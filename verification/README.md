# Campus Connect decision logic in Dafny

This project models the decision logic of the Campus Connect campus app. That app is a React
single-page client for students and administrators of a college campus, with a hosted database
behind it. The decisions live inside the app's screen components. The model expresses each one as
a pure function on immutable data, and lemmas relate those functions to each other and to
independent reference definitions.

What is modelled:

- **Navigation screen** (`ActiveNavigation`):
  - merging the built-in and the locally cached panorama tables;
  - the destination panorama, chosen by priority: event, then staff member, then destination;
  - the street-view panorama, found by scanning the `"lat,lng"` keys;
  - the route length, its rounding, and the walking time;
  - recomputation when the user position or the destination changes;
  - the recenter command sent to the map.
- **Application shell** (`App`):
  - the search dispatch: the `admin mode` keyword, then locations, then staff, then events;
  - the priority that resolves the selected destination;
  - the events screen's "GO NOW" handler.
- **Event editor** (`AdminEventManagement`) and **events screen** (`EventsDashboard`):
  - the 24-hour to 12-hour time formatter (module `TimeFormat`; both screens contain the same copy);
  - form validation, the venue name, the edit defaults and the form reset;
  - the upcoming/past tabs and their date ordering;
  - the arguments of the "GO NOW" button.
- **Bus routes** (`AdminBusManagement`): the status cycle, and the validation and defaults for a new route.
- **Community board** (`PostsDashboard`):
  - the tag editor;
  - the post payload for each category;
  - the ride-join guard;
  - the `[MEETUP_ID:…]` link that location sharing writes into a comment and joining reads back;
  - the search and category filter.
- **Broadcast console** (`AdminNotificationSender`): alert validation with the emergency prefix, and poll validation with an option editor bounded to 2..5 options.
- **Notification list** (`NotificationList`): the display order, poll percentages and totals, and the voting buttons.
- **Staff directory editor** (`AdminAddStaff`): save validation, insert versus update, edit and reset defaults, and the availability toggle.
- **Staff card** (`StaffSearchResult`), **profile card** (`UserProfile`) and **community feed** (`CommunityFeed`):
  - avatar initials and display fallbacks;
  - the navigate button rule;
  - list prepend and delete;
  - the empty-post guard;
  - the author label.

Shared modules:

- `Wrappers`: `Option` and `Result`.
- `Seqs`: `find`, `filter`, `reverse` and summation.
- `JsString`: the JavaScript string semantics the screens rely on:
  - `trim` with JavaScript's whitespace set;
  - `includes`, `split` and `parseInt`;
  - number printing;
  - string `<`;
  - truthiness of optional strings.
- `JsMath`: `Math.round`.
- `Records`: the rows read from the backend tables.

Each backend call is modelled as a pure function that computes the intended write (insert or update
payload) or a validation error. A second function gives the state after the call, with the
backend's answer passed in as a boolean. Confirmation dialogs are boolean parameters too.

Other things that become parameters:

- the route, which the app gets from a path finder that is not part of this model;
- the distance of a leg;
- the distance from the user to the point a panorama key names;
- an event's timestamp;
- today's date.

## Model

| member | source | states |
|---|---|---|
| ActiveNavigation.Merge | src/app/components/ActiveNavigation.tsx:87-89 | the merged table is a valid object table; a cached key maps to the cached value, every other built-in key keeps its built-in value, and the key order is the built-in keys followed by the cache's new keys |
| ActiveNavigation.SpreadKeysValues | src/app/components/ActiveNavigation.tsx:89 | an object spread binds each spread key to its new value and leaves all other bindings alone |
| ActiveNavigation.SpreadKeysOrder | src/app/components/ActiveNavigation.tsx:89 | an object spread of distinct keys appends exactly the keys not yet present, in their order; existing keys keep their place |
| ActiveNavigation.SpreadKeysValid | src/app/components/ActiveNavigation.tsx:89 | spreading keeps the key order duplicate-free and in step with the bindings |
| ActiveNavigation.SpreadIntoEmpty | src/app/components/ActiveNavigation.tsx:89 | spreading a table into an empty object copies it exactly, order included |
| ActiveNavigation.DestinationPanorama | src/app/components/ActiveNavigation.tsx:155-181 | the event id's binding if the id is set and bound to a non-empty URL, else the staff id's likewise, else the destination id's binding, else none |
| ActiveNavigation.DestinationPanoramaFirstBound | src/app/components/ActiveNavigation.tsx:159-179 | the destination panorama is the binding of the first bound key among the set ids and the destination id, in priority order |
| ActiveNavigation.LastTrigger | src/app/components/ActiveNavigation.tsx:189-203 | a key triggers only if it contains a comma and its point is strictly closer than 70 m; the index found is the last triggering key, and none is found only if no key triggers |
| ActiveNavigation.ScanWaypoints | src/app/components/ActiveNavigation.tsx:187-209 | the key-by-key scan returns nothing exactly when no key triggers; otherwise it returns the value of the last triggering key in enumeration order, which is what `TurnPanorama` computes from `LastTrigger` |
| ActiveNavigation.TurnPanorama | src/app/components/ActiveNavigation.tsx:187-209 | the street-view panorama is absent exactly when no key triggers; otherwise it is the binding of a triggering key after which no key in the enumeration order triggers |
| ActiveNavigation.TotalDistance | src/app/components/ActiveNavigation.tsx:139-145 | the loop computes the sum of consecutive leg distances; fewer than two points give 0 |
| ActiveNavigation.RouteLength | src/app/components/ActiveNavigation.tsx:139-145 | the length of a route: the sum of the distances of consecutive points, 0 for fewer than two points (the reference the distance loop is checked against) |
| ActiveNavigation.RouteLengthNonNegative | src/app/components/ActiveNavigation.tsx:139-145 | with non-negative legs the route length is non-negative |
| ActiveNavigation.RouteLengthTriangle | src/app/components/ActiveNavigation.tsx:139-145 | when the leg distance obeys the triangle inequality, the route is never shorter than the straight line from its first to its last point |
| JsMath.Round | src/app/components/ActiveNavigation.tsx:147 | the displayed distance is the unique integer within half a metre of the length, halves rounding up |
| JsMath.RoundWithin | src/app/components/NotificationList.tsx:97 | rounding a value between two integers stays between them |
| ActiveNavigation.Eta | src/app/components/ActiveNavigation.tsx:377 | the walking time r is the least whole number of minutes with distance <= 80 r, i.e. ceil(distance / 80) |
| ActiveNavigation.EtaExamples | src/app/components/ActiveNavigation.tsx:377 | 240 m gives 3 min, 241 m gives 4, 0 m gives 0 |
| ActiveNavigation.Recompute | src/app/components/ActiveNavigation.tsx:115-213 | without a user position or a destination the view is unchanged; otherwise the route is the path finder's, the distance is within half a metre of its length, and both panoramas are the ones looked up; the street-view panorama is absent exactly when no key triggers for the user's position, and otherwise is the last triggering key's binding |
| ActiveNavigation.RecomputeIdempotent | src/app/components/ActiveNavigation.tsx:115-213 | recomputing with the same inputs changes nothing further |
| ActiveNavigation.Recenter | src/app/components/ActiveNavigation.tsx:33-45 | fit the route with 50 px padding exactly when the route is non-empty; otherwise centre on the user at zoom 18 exactly when the position is known; otherwise do nothing |
| App.HandleSearch | src/app/App.tsx:158-206 | the admin keyword only opens the admin login; otherwise the selections are cleared and the first matching location wins over the first matching staff member, which wins over the first matching event; each case sets its own screen, selection, tab and toast; no match leaves only an error toast |
| App.BlankQueryPicksFirstLocation | src/app/App.tsx:171-183 | a query that is blank after trimming navigates to the first location whenever there is one |
| App.LocationMatchShadowsOthers | src/app/App.tsx:171-183 | once a location matches, the staff and event lists do not affect the outcome |
| App.StaffMatchShadowsEvents | src/app/App.tsx:186-193 | once a staff member matches and no location does, the event list does not affect the outcome |
| App.SearchSelectsOnlyMatches | src/app/App.tsx:165-205 | every selection a search leaves set names a matching entry (a location selection may also be the matched staff member's `locationId`), and the error toast is shown exactly when the state is only cleared |
| App.FetchedStaffWithoutLatitude | src/app/App.tsx:78-82 | since the fetch sets every staff row's `locationId` to its own id, a staff match without a latitude selects that id as a location id, and the destination is then a bundled location with that id if there is one, never the cabin |
| App.SelectedStaffRow | src/app/App.tsx:104 | for a set staff id, a staff member is found exactly when one has that id, and it is the first such member in the list; for an unset id none is found |
| App.SelectedLocation | src/app/App.tsx:107-131 | a set location id alone decides: the first bundled location with that id, as a building with its name, position and panorama, or none when no location has it; else a selected staff member with a latitude gives the cabin, named by the cabin location or `Staff Cabin`, described as the name's cabin, with the cabin panorama; else, for a set event id, the event's venue (venue name and panorama) exactly when that event exists with a latitude; else nothing |
| App.ShowVenueAsWritten | src/app/App.tsx:303-306 | the handler sets the event selection and the navigation screen and leaves the location and staff selections as they were |
| App.ShowVenueAsWrittenKeepsStaleLocation | src/app/App.tsx:303-306 | after a search selected a location, pressing GO NOW on an event navigates to that old location instead of the venue |
| App.ShowVenue | src/app/App.tsx:303-306 | the corrected handler selects the event, clears the location and staff selections and opens navigation |
| App.ShowVenueTargetsEvent | src/app/App.tsx:119-130 | after the corrected handler, the destination is the chosen event's venue exactly when that event exists with a latitude |
| TimeFormat.FormatTime | src/app/components/AdminEventManagement.tsx:325-341 | the result is empty exactly for a missing or empty time |
| TimeFormat.FormatClock | src/app/components/AdminEventManagement.tsx:331-339 | for "HH:mm" or "HH:mm:ss" with a numeric hour, the text is the reference 12-hour reading of the hour with the minutes copied verbatim and any seconds dropped |
| TimeFormat.HourMapping | src/app/components/EventsDashboard.tsx:19-26 | for hours 0..23 the shown hour is (h mod 12) or 12, always in 1..12, PM exactly from 12 on, and the 24-hour hour can be recovered |
| TimeFormat.HourMappingOnto | src/app/components/EventsDashboard.tsx:22-24 | every 12-hour reading with a meridiem comes from a 24-hour hour, so the mapping is a bijection |
| TimeFormat.FormatHourExamples | src/app/components/AdminEventManagement.tsx:333-339 | hour 0 reads 12 AM, hour 12 reads 12 PM, hour 13 reads 1 PM |
| TimeFormat.ClockTextExamples | src/app/components/EventsDashboard.tsx:23-25 | the reference reading at hours 0, 12 and 13 is 12 AM, 12 PM and 1 PM |
| TimeFormat.FormatNonNumericHour | src/app/components/AdminEventManagement.tsx:333-337 | an hour field that does not parse reads as 12 AM |
| TimeFormat.FormatWithoutColon | src/app/components/AdminEventManagement.tsx:331-339 | a time without a colon prints the minutes as `undefined` |
| JsString.ParsePrinted | src/app/components/AdminEventManagement.tsx:333 | `parseInt` reads back every printed non-negative integer |
| JsString.ParseInt | src/app/components/AdminEventManagement.tsx:333 | `parseInt(s, 10)` is NaN exactly when no digit follows the leading whitespace and an optional sign; a negative value needs a leading `-` |
| JsString.ParseIntValue | src/app/components/AdminEventManagement.tsx:333 | whitespace, then no sign, `+` or `-`, then a non-empty run of digits followed by a non-digit or the end parses to the value of the digits, negated exactly for `-` |
| JsString.Trim | src/app/App.tsx:159 | the trimmed string is empty exactly when the input is all whitespace, otherwise it starts and ends with a non-whitespace character, and it is never longer than the input |
| JsString.TrimContent | src/app/App.tsx:159 | the trimmed string is a contiguous slice `s[i..j]` of the input with only whitespace before `i` and after `j` |
| JsString.Split | src/app/components/EventsDashboard.tsx:21 | `split` with a one-character separator gives at least one piece and no piece contains the separator |
| JsString.SplitJoin | src/app/components/EventsDashboard.tsx:21 | joining the pieces of a split with the separator gives back the original string |
| JsString.JoinSplit | src/app/components/EventsDashboard.tsx:21 | splitting a join of separator-free pieces gives back the pieces |
| AdminEventManagement.HandleEdit | src/app/components/AdminEventManagement.tsx:129-157 | editing opens the form on that event with a missing description as '' and a missing category as `academic`, all other fields copied |
| AdminEventManagement.VenueName | src/app/components/AdminEventManagement.tsx:223-225 | "name (building)" of the first bundled location with the form's location id, otherwise the free-text venue details |
| AdminEventManagement.SaveRequest | src/app/components/AdminEventManagement.tsx:177-273 | rejected exactly when title, date, start time or location is empty; otherwise an update of the edited event if there is one, else an insert, carrying the form's fields, the venue name and the uploaded or existing banner |
| AdminEventManagement.Complete | src/app/components/AdminEventManagement.tsx:179 | the required fields: title, date, start time and location must be truthy; `SaveRequest` is rejected exactly when this fails |
| AdminEventManagement.SavedMessage | src/app/components/AdminEventManagement.tsx:253-271 | the success toast of a write; `SavedMessageNamesWrite` ties it to the editor state |
| AdminEventManagement.SavedMessageNamesWrite | src/app/components/AdminEventManagement.tsx:253-271 | after an accepted save the toast is `Event Updated!` exactly when an event was being edited, else `Event Created!` |
| AdminEventManagement.EndTimeOptional | src/app/components/AdminEventManagement.tsx:179 | the end time never decides whether a save is accepted |
| AdminEventManagement.AfterSave | src/app/components/AdminEventManagement.tsx:277-299 | a successful save closes and blanks the editor; a failed one leaves it unchanged |
| AdminEventManagement.Cancel | src/app/components/AdminEventManagement.tsx:311-321 | cancel closes the editor with empty fields and type `academic` |
| AdminEventManagement.ResetIsBlank | src/app/components/AdminEventManagement.tsx:283-289 | cancel and a successful save give the same editor, and its blank form cannot be saved |
| AdminEventManagement.EditThenCancel | src/app/components/AdminEventManagement.tsx:311-321 | cancelling after an edit forgets the edited event entirely |
| AdminEventManagement.EditThenSaveUpdates | src/app/components/AdminEventManagement.tsx:253-261 | saving an edited complete event updates that event with its own fields |
| EventsDashboard.DatePart | src/app/components/EventsDashboard.tsx:38 | the date part is the first ten characters (or all of a shorter string) |
| EventsDashboard.InTab | src/app/components/EventsDashboard.tsx:36-39 | an event belongs to a tab only with a date; upcoming when its date part is not before today, past when it is before |
| EventsDashboard.UndatedInNoTab | src/app/components/EventsDashboard.tsx:37 | an event without a date is in neither tab |
| EventsDashboard.DatedInExactlyOneTab | src/app/components/EventsDashboard.tsx:38-39 | a dated event is in exactly one of upcoming and past |
| JsString.LexTrichotomy | src/app/components/EventsDashboard.tsx:39 | for any two strings exactly one of `a < b`, `a == b`, `b < a` holds |
| JsString.LexTransitive | src/app/components/EventsDashboard.tsx:39 | string `<` is transitive, so with trichotomy it is a strict total order |
| EventsDashboard.TabEvents | src/app/components/EventsDashboard.tsx:36-39 | a tab holds exactly the listed events that belong to it |
| EventsDashboard.TabsPartitionDated | src/app/components/EventsDashboard.tsx:36-39 | the two tabs together hold every dated event as often as the list does, and nothing else |
| EventsDashboard.InsertByTime | src/app/components/EventsDashboard.tsx:40 | inserting into a date-ordered list keeps it ordered and adds exactly that event |
| EventsDashboard.SortByTime | src/app/components/EventsDashboard.tsx:40 | the sort returns a date-ordered permutation of its input |
| EventsDashboard.FilteredEvents | src/app/components/EventsDashboard.tsx:36-40 | a tab's list is ordered by date and is a permutation of the tab's events |
| EventsDashboard.TabsShowDatedEvents | src/app/components/EventsDashboard.tsx:36-40 | the two sorted tabs together are a permutation of the dated events |
| EventsDashboard.GoNowArgs | src/app/components/EventsDashboard.tsx:135 | GO NOW passes the location id when present, else the event id, and then the event id |
| AdminBusManagement.ToggleStatus | src/app/components/AdminBusManagement.tsx:59 | the new status is always one of the three cycle statuses, and any unknown status becomes on_time |
| AdminBusManagement.ToggleIsCycleStep | src/app/components/AdminBusManagement.tsx:59 | status i of on_time, delayed, cancelled becomes status (i + 1) mod 3 |
| AdminBusManagement.ToggleHasPeriodThree | src/app/components/AdminBusManagement.tsx:59 | three toggles return a known status to itself, and one or two do not |
| AdminBusManagement.ToggleUnknownRestarts | src/app/components/AdminBusManagement.tsx:59 | from an unknown status, the toggles follow the cycle from on_time |
| AdminBusManagement.AddRoute | src/app/components/AdminBusManagement.tsx:31-41 | rejected exactly when route name, bus number or departure time is empty; otherwise the form's fields with status on_time and no stops |
| AdminBusManagement.AfterAdd | src/app/components/AdminBusManagement.tsx:43-47 | the form is cleared only after a successful insert |
| AdminBusManagement.ClearedFormRejected | src/app/components/AdminBusManagement.tsx:32 | the cleared form cannot be submitted, and the driver name never decides acceptance |
| PostsDashboard.AddTag | src/app/components/PostsDashboard.tsx:91-96 | the trimmed input is appended and the input cleared exactly when it is non-blank and fewer than five tags exist; otherwise nothing changes |
| PostsDashboard.RemoveTag | src/app/components/PostsDashboard.tsx:293 | removing index i drops exactly that tag and keeps the rest in order |
| PostsDashboard.TagEditsBounded | src/app/components/PostsDashboard.tsx:91-96 | no sequence of adds, removals and typing takes the list past five tags or adds a blank tag |
| PostsDashboard.FinalTags | src/app/components/PostsDashboard.tsx:112-113 | the submitted tags are the list, plus the trimmed pending input when non-blank |
| PostsDashboard.SixTagsSubmitted | src/app/components/PostsDashboard.tsx:92-113 | five tags and a pending input submit six tags although the add button refuses a sixth |
| PostsDashboard.BuildPost | src/app/components/PostsDashboard.tsx:115-134 | travel posts get the trip fields, food posts restaurant and deadline, errands status `open`, general posts nothing more |
| PostsDashboard.AfterPost | src/app/components/PostsDashboard.tsx:139-140 | a successful post clears content, image, tags, destination and restaurant, and keeps the pending tag input |
| PostsDashboard.PendingTagResubmitted | src/app/components/PostsDashboard.tsx:112-140 | a non-blank pending tag input is submitted again with the next post |
| PostsDashboard.SubmitDisabled | src/app/components/PostsDashboard.tsx:316 | submit is disabled exactly while loading or when the content is all whitespace |
| PostsDashboard.JoinRide | src/app/components/PostsDashboard.tsx:168-173 | a seat is written exactly when the count is positive and the user confirms, and the new count is one less |
| PostsDashboard.StopAt | src/app/components/PostsDashboard.tsx:195 | finds the first `]` or line terminator at or after a position |
| PostsDashboard.CaptureFrom | src/app/components/PostsDashboard.tsx:195 | searching from a position, the result is the text of the leftmost closed marker at or after it, and none exactly when no closed marker starts there or later |
| PostsDashboard.ShareComment | src/app/components/PostsDashboard.tsx:188 | the comment posted when a location is shared: the fixed text, the marker, the meetup id and `]`; `ShareThenJoin` reads the id back from it |
| PostsDashboard.MeetupCapture | src/app/components/PostsDashboard.tsx:195 | the capture is taken at the leftmost marker whose `]` comes before any line terminator and is the text up to that `]`, so it holds neither `]` nor a line terminator; there is none exactly when no marker is closed that way |
| PostsDashboard.JoinMeetup | src/app/components/PostsDashboard.tsx:194-197 | the captured id becomes the active meetup when non-empty; no match or an empty capture keeps the current one |
| PostsDashboard.CaptureAfterPlainPrefix | src/app/components/PostsDashboard.tsx:195 | after text without `[`, the capture is the text between the marker and the first `]` |
| PostsDashboard.ShareThenJoin | src/app/components/PostsDashboard.tsx:188-196 | joining from the comment posted when a location is shared opens exactly the shared meetup |
| PostsDashboard.MatchesSearch | src/app/components/PostsDashboard.tsx:200-203 | an empty query matches every post; otherwise the lower-cased content, a tag or the author's full name must include the lower-cased query |
| PostsDashboard.MatchesCategory | src/app/components/PostsDashboard.tsx:204 | `general` matches every post, any other category only posts of that category |
| PostsDashboard.FilteredPosts | src/app/components/PostsDashboard.tsx:199-206 | the shown posts are exactly the listed posts matching both the search and the category, and no post appears more often than in the list |
| PostsDashboard.FilteredPostsAppend | src/app/components/PostsDashboard.tsx:199-206 | filtering a list in two parts filters each part and keeps the parts in order, so the shown posts keep the list order |
| PostsDashboard.FilteredPostsSingle | src/app/components/PostsDashboard.tsx:199-206 | a single post is shown exactly when it matches both the search and the category |
| PostsDashboard.EmptyFilterKeepsAll | src/app/components/PostsDashboard.tsx:200-204 | an empty query with the general filter shows every post in order |
| PostsDashboard.CategoryFilterExact | src/app/components/PostsDashboard.tsx:204 | with a non-general filter and an empty query a post is shown exactly when its category is the filter |
| AdminNotificationSender.SendAlert | src/app/components/AdminNotificationSender.tsx:47-58 | rejected exactly when title or message is empty; an emergency title gets the siren prefix, any other is unchanged |
| AdminNotificationSender.AlertTitleRecoverable | src/app/components/AdminNotificationSender.tsx:54 | the sent title ends with the typed title; for a typed title not already starting with the siren, it starts with the siren exactly for emergencies |
| AdminNotificationSender.AfterAlert | src/app/components/AdminNotificationSender.tsx:62-70 | the alert form is cleared only after a successful insert |
| AdminNotificationSender.ValidOptions | src/app/components/AdminNotificationSender.tsx:75 | the stored options are exactly the options that are non-blank after trimming, untrimmed |
| AdminNotificationSender.ValidOptionsAppend | src/app/components/AdminNotificationSender.tsx:75 | the valid options keep their original order |
| AdminNotificationSender.CreatePoll | src/app/components/AdminNotificationSender.tsx:74-88 | rejected exactly when the title is empty or fewer than two options are valid; otherwise the poll stores only the valid options |
| AdminNotificationSender.AfterPoll | src/app/components/AdminNotificationSender.tsx:92-99 | a published poll resets the title and the options to two empty ones |
| AdminNotificationSender.EditOption | src/app/components/AdminNotificationSender.tsx:194-198 | typing into option i changes only position i |
| AdminNotificationSender.RemoveOption | src/app/components/AdminNotificationSender.tsx:200-201 | removal above two options drops only index i; at two options nothing changes |
| AdminNotificationSender.AddOption | src/app/components/AdminNotificationSender.tsx:205-206 | below five options one empty option is appended; at five nothing changes |
| AdminNotificationSender.OptionCountStaysInRange | src/app/components/AdminNotificationSender.tsx:200-206 | any sequence of edits keeps between two and five options |
| AdminNotificationSender.FreshOptionsInRange | src/app/components/AdminNotificationSender.tsx:22 | every option list reachable from the fresh form has two to five entries |
| NotificationList.DisplayOrder | src/app/components/NotificationList.tsx:16 | position i shows the notification i places from the end of the input |
| NotificationList.DisplayOrderInvolutive | src/app/components/NotificationList.tsx:16 | reversing the display order restores the input order |
| NotificationList.Counts | src/app/components/NotificationList.tsx:96 | each option's count, with a missing count as 0 |
| NotificationList.Divisor | src/app/components/NotificationList.tsx:96 | the divisor is the vote total, or 1 when the total is 0 |
| NotificationList.TotalVotes | src/app/components/NotificationList.tsx:126 | an empty option list totals 0; with non-negative counts the displayed total is non-negative, at least every option's count, and 0 exactly when every count is 0 |
| NotificationList.TotalVotesAppend | src/app/components/NotificationList.tsx:126 | adding an option adds its count (a missing count as 0) to the total, so the total is the sum of the counts |
| Seqs.SumAppend | src/app/components/NotificationList.tsx:126 | the sum of a concatenation is the sum of the two sums |
| NotificationList.Percentage | src/app/components/NotificationList.tsx:97 | the shown percentage is the integer within half a point of count / divisor x 100 |
| NotificationList.VoteDisabled | src/app/components/NotificationList.tsx:104 | the vote buttons are disabled exactly when the note records a non-empty voted option id |
| NotificationList.IsSelected | src/app/components/NotificationList.tsx:98 | an option is marked exactly when its id is the recorded voted option id |
| NotificationList.ShowsPoll | src/app/components/NotificationList.tsx:93 | the poll block renders for a note of type `poll` that has an option list, an empty list included |
| NotificationList.PercentageBounds | src/app/components/NotificationList.tsx:96-97 | with non-negative counts each percentage is between 0 and 100 |
| NotificationList.NoVotesAllZero | src/app/components/NotificationList.tsx:96-97 | with non-negative counts a zero total means every count and every percentage is 0 |
| NotificationList.AllVotesOneOption | src/app/components/NotificationList.tsx:97 | an option holding all of a positive total shows 100 |
| NotificationList.ExactlyVotedSelected | src/app/components/NotificationList.tsx:98-104 | once a vote is recorded, voting is disabled and exactly the voted option is marked |
| NotificationList.NoVoteNothingSelected | src/app/components/NotificationList.tsx:98-104 | without a vote nothing is marked and voting is open |
| AdminAddStaff.SaveRequest | src/app/components/AdminAddStaff.tsx:37-71 | rejected exactly when name or role is empty; otherwise an update of the form's id when non-empty, else an insert, with the form's fields and the uploaded image URLs |
| AdminAddStaff.PayloadIgnoresId | src/app/components/AdminAddStaff.tsx:58-63 | the written columns never depend on the id |
| AdminAddStaff.StartEdit | src/app/components/AdminAddStaff.tsx:90-100 | editing a row copies it with missing text as '' and missing coordinates as 0; no row gives the blank form; the editor opens |
| AdminAddStaff.ResetForm | src/app/components/AdminAddStaff.tsx:102-105 | reset gives empty text, zero coordinates, available, and no chosen files |
| AdminAddStaff.AfterSave | src/app/components/AdminAddStaff.tsx:73-79 | a successful save closes the editor with a blank form; a failure changes nothing |
| AdminAddStaff.EditThenSaveUpdatesRow | src/app/components/AdminAddStaff.tsx:65-67 | an edited row is saved back as an update of the same id |
| AdminAddStaff.NewEntryInserts | src/app/components/AdminAddStaff.tsx:68-70 | a new entry is rejected until name and role are filled, then inserted |
| AdminAddStaff.ToggleAvailability | src/app/components/AdminAddStaff.tsx:107-112 | rows with the toggled id get the opposite availability; every other row and the order are unchanged; a refused update changes nothing |
| AdminAddStaff.ToggleTwiceRestores | src/app/components/AdminAddStaff.tsx:107-112 | toggling a row twice restores the list |
| AdminAddStaff.SavedMessage | src/app/components/AdminAddStaff.tsx:73 | the success toast of a save; `SavedMessageNamesWrite` ties it to the write |
| AdminAddStaff.SavedMessageNamesWrite | src/app/components/AdminAddStaff.tsx:65-73 | after an accepted save the toast is `Profile Updated` exactly for an update and `Staff Member Added` exactly for an insert |
| AdminAddStaff.ToggleMessage | src/app/components/AdminAddStaff.tsx:113 | the toast after a toggle; `ToggleMessageNamesNewState` ties it to the list update |
| AdminAddStaff.ToggleMessageNamesNewState | src/app/components/AdminAddStaff.tsx:108-113 | the toast names the availability a successful toggle leaves the toggled row in |
| JsString.WordInitials | src/app/components/StaffSearchResult.tsx:17-22 | the initials have at most two characters, are empty exactly for a name of spaces only, and start with the upper-cased first non-space character of the name |
| JsString.WordInitialsFirst | src/app/components/StaffSearchResult.tsx:17-22 | the first initial is the upper-cased first non-space character of the name |
| JsString.WordInitialsTwoWords | src/app/components/StaffSearchResult.tsx:17-22 | a word followed by a space and a second word gives exactly the two upper-cased first letters, whatever follows |
| JsString.WordInitialsExample | src/app/components/UserProfile.tsx:42 | `ada lovelace` gives `AL` |
| JsString.WordInitialsSkipSpace | src/app/components/StaffSearchResult.tsx:17-22 | a leading space contributes no initial: the initials of `" " + s` are those of `s` |
| JsString.WordInitialsOneWord | src/app/components/StaffSearchResult.tsx:17-22 | a single word without spaces gives exactly its upper-cased first letter |
| StaffSearchResult.StaffInitials | src/app/components/StaffSearchResult.tsx:17-24 | the word initials, or `St` for a missing, empty or all-space name |
| StaffSearchResult.StaffInitialsFromName | src/app/components/StaffSearchResult.tsx:17-24 | for a name with a non-space character, the first initial is its first non-space character, upper-cased |
| StaffSearchResult.StaffInitialsTwoWords | src/app/components/StaffSearchResult.tsx:17-24 | a name of two or more words shows the upper-cased first letters of the first two words |
| StaffSearchResult.NavigateDisabled | src/app/components/StaffSearchResult.tsx:138 | navigate is enabled exactly when there is a location or both coordinates are non-zero |
| StaffSearchResult.ShowViewer | src/app/components/StaffSearchResult.tsx:30 | the viewer shows exactly when requested and a cabin panorama URL exists |
| StaffSearchResult.DepartmentLabel | src/app/components/StaffSearchResult.tsx:77 | a non-empty department is shown as is; a missing or empty one shows `General Staff` |
| StaffSearchResult.CabinLabel | src/app/components/StaffSearchResult.tsx:109 | a non-empty cabin location is shown as is; a missing or empty one shows `Location Details Not Available` |
| StaffSearchResult.StatusText | src/app/components/StaffSearchResult.tsx:125 | one of exactly two texts, `Currently Available` exactly when available |
| UserProfile.InitialsSource | src/app/components/UserProfile.tsx:63 | the profile's full name when set, else the session email |
| UserProfile.ProfileInitials | src/app/components/UserProfile.tsx:41-43 | `U` for a missing or empty name, else the word initials |
| UserProfile.BlankNameGivesEmptyInitials | src/app/components/UserProfile.tsx:42 | a name of spaces only gives empty initials |
| UserProfile.InitialsWithoutProfile | src/app/components/UserProfile.tsx:63 | without a profile the email's initials are shown, or `U` |
| UserProfile.DisplayName | src/app/components/UserProfile.tsx:65 | the full name, or `Student` |
| UserProfile.FieldOrNotSet | src/app/components/UserProfile.tsx:82 | a field's value, or `Not set` when missing or empty |
| UserProfile.DetailLines | src/app/components/UserProfile.tsx:82-102 | roll number, department and year, each with the `Not set` fallback |
| CommunityFeed.Prepend | src/app/components/CommunityFeed.tsx:70-71 | a realtime insert puts exactly one post first and keeps the list after it |
| CommunityFeed.DeletePost | src/app/components/CommunityFeed.tsx:95-101 | an accepted delete removes exactly the posts with that id; a refused one changes nothing |
| CommunityFeed.DeleteKeepsOrder | src/app/components/CommunityFeed.tsx:100 | deletion keeps the remaining posts in order |
| CommunityFeed.DeleteAbsentId | src/app/components/CommunityFeed.tsx:70-100 | deleting a just-prepended post with a fresh id restores the list |
| CommunityFeed.CanPost | src/app/components/CommunityFeed.tsx:75 | a post is sent exactly when it has a non-whitespace character |
| CommunityFeed.LocalPart | src/app/components/CommunityFeed.tsx:130 | the local part is the text before the first `@`, or the whole email when it has none |
| CommunityFeed.AuthorName | src/app/components/CommunityFeed.tsx:130 | the full name, else the email's non-empty local part, else `Unknown`; never empty |
| CommunityFeed.AuthorFromEmail | src/app/components/CommunityFeed.tsx:130 | without a profile name, `user@domain` is labelled `user` |
| CommunityFeed.AvatarLetter | src/app/components/CommunityFeed.tsx:138 | the label's first character, upper-cased |

## Findings

| source | as written | input that shows it | evidently intended | confidence | as-written member | corrected member |
|---|---|---|---|---|---|---|
| src/app/App.tsx:303-306 | `onShowVenue` sets only the event selection and the screen. It ignores its location argument and keeps earlier location and staff selections. `selectedLocation` ranks those selections above the event (lines 107-119). | Search for a department (this selects location `lib`). Go back, open the events screen and press GO NOW on an event with a venue position. Navigation shows `lib`. | Navigate to the pressed event's venue | not executed; high that the stale selection wins, medium on the exact fix | App.ShowVenueAsWritten, App.ShowVenueAsWrittenKeepsStaleLocation | App.ShowVenue, App.ShowVenueTargetsEvent |

## Left out

- Path finding, the road network and the built-in panorama table: these come from modules that are not part of this model. The route and the tables are inputs.
- Backend I/O is not modelled: queries, inserts, updates, deletes, storage uploads, realtime channels and authentication. The model states the intended write and takes the outcome as a boolean.
- Geolocation watching, timers, `Date.now`, `Math.random` tag colours and upload file names, and relative-time display are not modelled.
- Leaflet's `distanceTo` (haversine over floating point) is not modelled. Leg distances and key distances are real-valued parameters.
- ActiveNavigation.Triggers: a panorama key with a comma whose coordinates are not numbers makes Leaflet throw, which stops the whole recomputation effect and leaves the street-view panorama as it was. The model does not follow the exception: it treats such a key as one that does not trigger.
- Parsing of an event date to a timestamp is not modelled, and neither is the local-date computation behind `today`; both are parameters.
- NotificationList.Percentage: computed in exact arithmetic, so the floating-point error of `count / total * 100` at exact halves (e.g. 3 of 40) is not modelled.
- EventsDashboard.SortByTime: the sort is stable by construction, but stability is not stated as a property. Comparisons with an invalid date (NaN) are not modelled.
- ActiveNavigation.Merge: JavaScript enumerates integer-like keys first. The model keeps insertion order for every key, which is exact for the `"lat,lng"` keys the waypoint scan uses.
- JsString.Lower and JsString.Upper: only ASCII letters change case. Full Unicode case mapping is not modelled, including mappings that change length.
- Strings are sequences of Unicode scalar values rather than UTF-16 code units. This affects string comparison, and also indexing: `n[0]` in the initials and `charAt(0)` in the avatar letter take the first code point here, where JavaScript takes the first code unit. The two agree except for characters outside the Basic Multilingual Plane, where JavaScript gives half of a surrogate pair.
- Records.StaffRow: availability is a boolean; a null availability is not modelled.
- Records.EventRow: the title is always present, because the search lowercases it unconditionally.
- Delete handlers are left out: events, staff, bus routes, notifications and posts. Behind their confirmation dialog they only call the backend (except the feed delete, which is modelled).
- Comment submission, likes, accepting an errand and image selection in the community board are not modelled; they are backend calls or DOM events.
- The location sharing itself (inserting a meetup) is not modelled; only the comment it writes is.
- The remaining screens are not modelled. They are pure rendering or backend round-trips:
  - authentication;
  - the main map and the bus schedule;
  - the panorama viewer and the panorama upload;
  - the map pickers and the admin dashboard;
  - the live meetup session;
  - lost-and-found.
- PostsDashboard.Category: a post's category is one of the four values the dashboard offers (`general`, `travel`, `food`, `errand`). A stored post with any other category string is not represented; the source would show it only under `general`.
- PostsDashboard.BuildPost: the early return of the submit handler when no one is signed in is not modelled; the signed-in user's id is a parameter.
- `parseInt` of numerals too large for exact floating point is not modelled (hour fields are short).
