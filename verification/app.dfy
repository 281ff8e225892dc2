/**
 * The application shell (`App`): the search box dispatch and the resolution of the selected
 * destination from the three selections (location, staff member, event).
 */
module App {
  import opened Wrappers
  import opened JsString
  import Seqs
  import opened Records

  /** The screens of the application. */
  datatype Screen =
    | AuthScreen | StudentMap | StaffDetail | Navigation | Events | Community | Profile
    | AdminDashboard | AdminAddStaff | AdminPathDrawing | AdminPickLocation | AdminPanorama
    | AdminEvents | AdminNotifications

  /** The part of the shell state the handlers touch. */
  datatype AppState = AppState(screen: Screen, showAdminModal: bool, activeTab: string,
                               selectedStaffId: Option<string>, selectedLocationId: Option<string>,
                               selectedEventId: Option<string>)

  /** A toast shown to the user. */
  datatype Toast = Success(text: string) | Failure(text: string)

  /** A handler's new state together with the toast it shows, if any. */
  datatype Outcome = Outcome(state: AppState, toast: Option<Toast>)

  const NoMatchMessage := "No matching Department, Staff, or Event found"

  /** The normalised query: lower-cased, then trimmed. */
  function NormalQuery(query: string): string {
    Trim(Lower(query))
  }

  /** A location matches on its name or building (lower-cased) or on its non-empty id (as written). */
  predicate LocationMatches(l: Location, q: string) {
    Includes(Lower(l.name), q) || Includes(Lower(l.building), q) || (l.id != "" && Includes(l.id, q))
  }

  /** A staff member matches on the name or on a non-empty department, both lower-cased. */
  predicate StaffMatches(s: StaffRow, q: string) {
    Includes(Lower(s.name), q) || (Truthy(s.department) && Includes(Lower(s.department.value), q))
  }

  /** An event matches on its lower-cased title. */
  predicate EventMatches(e: EventRow, q: string) {
    Includes(Lower(e.title), q)
  }

  /** The state with the three selections cleared. */
  function Cleared(st: AppState): AppState {
    st.(selectedStaffId := None, selectedLocationId := None, selectedEventId := None)
  }

  /**
   * `handleSearch`. The query "admin mode" only opens the admin login. Any other query clears the
   * selections and then takes the first matching location, else the first matching staff member,
   * else the first matching event; with no match only an error toast is shown.
   */
  function HandleSearch(st: AppState, query: string, locations: seq<Location>, staff: seq<StaffRow>, events: seq<EventRow>): (r: Outcome)
    ensures NormalQuery(query) == "admin mode" ==> r == Outcome(st.(showAdminModal := true), None)
    ensures NormalQuery(query) != "admin mode" ==> r.state.showAdminModal == st.showAdminModal
    ensures NormalQuery(query) != "admin mode" ==>
      var q := NormalQuery(query);
      match Seqs.FirstMatch(locations, l => LocationMatches(l, q))
      case Some(i) =>
        r.state == Cleared(st).(selectedLocationId := Some(locations[i].id), screen := Navigation, activeTab := "search") &&
        r.toast == Some(Success("Found: " + locations[i].name))
      case None =>
        match Seqs.FirstMatch(staff, s => StaffMatches(s, q))
        case Some(j) =>
          r.state.screen == StaffDetail && r.state.activeTab == "search" && r.toast.None? &&
          r.state.selectedStaffId == Some(staff[j].id) && r.state.selectedEventId.None? &&
          (r.state.selectedLocationId.Some? <==> !TruthyNum(staff[j].lat) && Truthy(staff[j].locationId)) &&
          (r.state.selectedLocationId.Some? ==> r.state.selectedLocationId == staff[j].locationId)
        case None =>
          match Seqs.FirstMatch(events, e => EventMatches(e, q))
          case Some(k) =>
            r.state == Cleared(st).(selectedEventId := Some(events[k].id), screen := Navigation, activeTab := "search") &&
            r.toast == Some(Success("Found Event: " + events[k].title))
          case None =>
            r == Outcome(Cleared(st), Some(Failure(NoMatchMessage)))
  {
    var q := NormalQuery(query);
    if q == "admin mode" then Outcome(st.(showAdminModal := true), None)
    else
      var cleared := Cleared(st);
      match Seqs.Find(locations, l => LocationMatches(l, q))
      case Some(l) =>
        Outcome(cleared.(selectedLocationId := Some(l.id), screen := Navigation, activeTab := "search"),
                Some(Success("Found: " + l.name)))
      case None =>
        match Seqs.Find(staff, s => StaffMatches(s, q))
        case Some(s) =>
          var withLocation := if !TruthyNum(s.lat) && Truthy(s.locationId) then s.locationId else None;
          Outcome(cleared.(selectedStaffId := Some(s.id), selectedLocationId := withLocation,
                           screen := StaffDetail, activeTab := "search"), None)
        case None =>
          match Seqs.Find(events, e => EventMatches(e, q))
          case Some(e) =>
            Outcome(cleared.(selectedEventId := Some(e.id), screen := Navigation, activeTab := "search"),
                    Some(Success("Found Event: " + e.title)))
          case None =>
            Outcome(cleared, Some(Failure(NoMatchMessage)))
  }

  /**
   * A query that is blank after trimming matches the first location, since every string includes
   * the empty string: it navigates there whenever the location list is non-empty.
   */
  lemma BlankQueryPicksFirstLocation(st: AppState, query: string, locations: seq<Location>, staff: seq<StaffRow>, events: seq<EventRow>)
    requires NormalQuery(query) == ""
    requires |locations| > 0
    ensures var r := HandleSearch(st, query, locations, staff, events);
      r.state.selectedLocationId == Some(locations[0].id) && r.state.screen == Navigation
  {
    IncludesEmpty(Lower(locations[0].name));
    assert LocationMatches(locations[0], "");
  }

  /** Once a location matches, the staff and event lists play no part in the outcome. */
  lemma LocationMatchShadowsOthers(st: AppState, query: string, locations: seq<Location>,
                                   staff1: seq<StaffRow>, events1: seq<EventRow>, staff2: seq<StaffRow>, events2: seq<EventRow>)
    requires exists i :: 0 <= i < |locations| && LocationMatches(locations[i], NormalQuery(query))
    ensures HandleSearch(st, query, locations, staff1, events1) == HandleSearch(st, query, locations, staff2, events2)
  {
    var q := NormalQuery(query);
    var i :| 0 <= i < |locations| && LocationMatches(locations[i], q);
    assert (l => LocationMatches(l, q))(locations[i]);
  }

  /** Once a staff member matches (and no location does), the event list plays no part. */
  lemma StaffMatchShadowsEvents(st: AppState, query: string, locations: seq<Location>, staff: seq<StaffRow>,
                                events1: seq<EventRow>, events2: seq<EventRow>)
    requires forall i :: 0 <= i < |locations| ==> !LocationMatches(locations[i], NormalQuery(query))
    requires exists j :: 0 <= j < |staff| && StaffMatches(staff[j], NormalQuery(query))
    ensures HandleSearch(st, query, locations, staff, events1) == HandleSearch(st, query, locations, staff, events2)
  {
    var q := NormalQuery(query);
    var j :| 0 <= j < |staff| && StaffMatches(staff[j], q);
    assert Seqs.FirstMatch(locations, l => LocationMatches(l, q)).None?;
    assert (s => StaffMatches(s, q))(staff[j]);
    assert Seqs.FirstMatch(staff, s => StaffMatches(s, q)).Some?;
  }

  /**
   * Every selection a non-admin search leaves set names a matching entry: the selected location
   * is a matching location or the matching staff member's location, the staff and event selections are
   * matching entries; and the screen changes exactly when something matched.
   */
  lemma SearchSelectsOnlyMatches(st: AppState, query: string, locations: seq<Location>, staff: seq<StaffRow>, events: seq<EventRow>)
    requires NormalQuery(query) != "admin mode"
    ensures var r := HandleSearch(st, query, locations, staff, events);
      var q := NormalQuery(query);
      (r.state.selectedEventId.Some? ==>
         exists k :: 0 <= k < |events| && EventMatches(events[k], q) && events[k].id == r.state.selectedEventId.value) &&
      (r.state.selectedStaffId.Some? ==>
         exists j :: 0 <= j < |staff| && StaffMatches(staff[j], q) && staff[j].id == r.state.selectedStaffId.value) &&
      (r.state.selectedLocationId.Some? ==>
         (exists i :: 0 <= i < |locations| && LocationMatches(locations[i], q) && locations[i].id == r.state.selectedLocationId.value) ||
         exists j :: 0 <= j < |staff| && StaffMatches(staff[j], q) && staff[j].locationId == r.state.selectedLocationId) &&
      (r.toast == Some(Failure(NoMatchMessage)) <==> r.state == Cleared(st))
  {
    var q := NormalQuery(query);
    var r := HandleSearch(st, query, locations, staff, events);
    match Seqs.FirstMatch(locations, l => LocationMatches(l, q))
    case Some(i) =>
      assert LocationMatches(locations[i], q) && r.state.selectedLocationId == Some(locations[i].id);
    case None =>
      match Seqs.FirstMatch(staff, s => StaffMatches(s, q))
      case Some(j) =>
        assert StaffMatches(staff[j], q) && r.state.selectedStaffId == Some(staff[j].id);
      case None =>
        match Seqs.FirstMatch(events, e => EventMatches(e, q))
        case Some(k) =>
          assert EventMatches(events[k], q) && r.state.selectedEventId == Some(events[k].id);
        case None =>
  }

  /**
   * The fetch gives every staff row its own id as `locationId`. So a staff match without a latitude
   * always selects the staff member's own id as a location id, and the destination is then the
   * bundled location that happens to carry that id, or nothing: never the cabin.
   */
  lemma FetchedStaffWithoutLatitude(st: AppState, query: string, locations: seq<Location>, staff: seq<StaffRow>,
                                    events: seq<EventRow>, j: nat)
    requires forall k :: 0 <= k < |staff| ==> staff[k].locationId == Some(staff[k].id)
    requires NormalQuery(query) != "admin mode"
    requires forall i :: 0 <= i < |locations| ==> !LocationMatches(locations[i], NormalQuery(query))
    requires j < |staff| && StaffMatches(staff[j], NormalQuery(query))
    requires forall k :: 0 <= k < j ==> !StaffMatches(staff[k], NormalQuery(query))
    requires !TruthyNum(staff[j].lat)
    ensures var r := HandleSearch(st, query, locations, staff, events);
      var shown := SelectedLocation(r.state, locations, staff, events);
      r.state.selectedLocationId == (if staff[j].id != "" then Some(staff[j].id) else None) &&
      (staff[j].id != "" ==>
         (shown.Some? <==> exists i :: 0 <= i < |locations| && locations[i].id == staff[j].id) &&
         (shown.Some? ==> shown.value.kind == Building)) &&
      (staff[j].id == "" ==> shown.None?)
  {
    var q := NormalQuery(query);
    assert Seqs.FirstMatch(locations, l => LocationMatches(l, q)).None?;
    assert (s => StaffMatches(s, q))(staff[j]);
    assert Seqs.FirstMatch(staff, s => StaffMatches(s, q)) == Some(j);
  }

  // ---------------------------------------------------------------------------------------------
  // Selected destination

  /** Where a destination comes from. */
  datatype PlaceKind = Building | Cabin | Venue

  /** The destination object handed to the navigation screen. */
  datatype Place = Place(id: string, name: Option<string>, lat: real, lng: Option<real>, kind: PlaceKind,
                         description: Option<string>, panorama: Option<string>)

  /** A bundled location as a destination. */
  function LocationPlace(l: Location): Place {
    Place(l.id, Some(l.name), l.lat, Some(l.lng), Building, None, l.panorama)
  }

  /** `selectedStaff`: the staff member with the selected id, when that id is set. */
  function SelectedStaffRow(st: AppState, staff: seq<StaffRow>): (r: Option<StaffRow>)
    ensures r.Some? ==> Truthy(st.selectedStaffId) && r.value in staff && r.value.id == st.selectedStaffId.value
    ensures Truthy(st.selectedStaffId) ==>
      (r.Some? <==> exists i :: 0 <= i < |staff| && staff[i].id == st.selectedStaffId.value)
    ensures r.Some? ==> exists i :: 0 <= i < |staff| && staff[i] == r.value &&
                          forall j :: 0 <= j < i ==> staff[j].id != st.selectedStaffId.value
  {
    if Truthy(st.selectedStaffId) then Seqs.Find(staff, (s: StaffRow) => s.id == st.selectedStaffId.value) else None
  }

  /** A staff member is selected and has a (non-zero) latitude, so the cabin is the destination. */
  predicate CabinSelected(st: AppState, staff: seq<StaffRow>) {
    SelectedStaffRow(st, staff).Some? && TruthyNum(SelectedStaffRow(st, staff).value.lat)
  }

  /**
   * `selectedLocation`. A set location id decides alone: the bundled location with that id, or
   * nothing when there is none. Otherwise a selected staff member with a latitude gives the cabin;
   * otherwise a selected event with a latitude gives its venue; otherwise nothing.
   */
  function SelectedLocation(st: AppState, locations: seq<Location>, staff: seq<StaffRow>, events: seq<EventRow>): (r: Option<Place>)
    ensures Truthy(st.selectedLocationId) ==>
      (r.Some? <==> exists i :: 0 <= i < |locations| && locations[i].id == st.selectedLocationId.value)
    ensures Truthy(st.selectedLocationId) && r.Some? ==> r.value.kind == Building && r.value.id == st.selectedLocationId.value
    ensures Truthy(st.selectedLocationId) ==>
      match Seqs.FirstMatch(locations, (l: Location) => l.id == st.selectedLocationId.value)
      case Some(i) => r == Some(LocationPlace(locations[i]))
      case None => r.None?
    ensures !Truthy(st.selectedLocationId) && CabinSelected(st, staff) ==>
      r.Some? && r.value.kind == Cabin && r.value.id == st.selectedStaffId.value
    ensures r.Some? && r.value.kind == Venue ==>
      !Truthy(st.selectedLocationId) && Truthy(st.selectedEventId) && r.value.id == st.selectedEventId.value &&
      !CabinSelected(st, staff)
    ensures !Truthy(st.selectedLocationId) && CabinSelected(st, staff) ==>
      var s := SelectedStaffRow(st, staff).value;
      r == Some(Place(s.id, Some(OrElse(s.cabinLocation, "Staff Cabin")), s.lat.value, s.lng, Cabin,
                      Some(s.name + "'s Cabin"), s.cabinPanorama))
    ensures !Truthy(st.selectedLocationId) && !CabinSelected(st, staff) && Truthy(st.selectedEventId) ==>
      var e := Seqs.Find(events, (ev: EventRow) => ev.id == st.selectedEventId.value);
      (r.Some? <==> e.Some? && TruthyNum(e.value.lat)) &&
      (r.Some? ==> r == Some(Place(st.selectedEventId.value, e.value.venueName, e.value.lat.value, e.value.lng, Venue,
                                   None, e.value.venuePanorama)))
    ensures !Truthy(st.selectedLocationId) && !CabinSelected(st, staff) && !Truthy(st.selectedEventId) ==> r.None?
    ensures r.Some? ==> r.value.lat != 0.0 || r.value.kind == Building
  {
    if Truthy(st.selectedLocationId) then
      match Seqs.Find(locations, (l: Location) => l.id == st.selectedLocationId.value)
      case Some(l) => Some(LocationPlace(l))
      case None => None
    else
      if CabinSelected(st, staff) then
        var s := SelectedStaffRow(st, staff).value;
        Some(Place(s.id, Some(OrElse(s.cabinLocation, "Staff Cabin")), s.lat.value, s.lng, Cabin,
                   Some(s.name + "'s Cabin"), s.cabinPanorama))
      else if Truthy(st.selectedEventId) then
        match Seqs.Find(events, (e: EventRow) => e.id == st.selectedEventId.value)
        case Some(e) =>
          if TruthyNum(e.lat) then Some(Place(e.id, e.venueName, e.lat.value, e.lng, Venue, None, e.venuePanorama))
          else None
        case None => None
      else None
  }

  // ---------------------------------------------------------------------------------------------
  // "GO NOW" from the events screen

  /**
   * `onShowVenue` as written: it sets the event selection and opens the navigation screen, ignoring
   * the location argument and leaving any earlier location or staff selection in place.
   */
  function ShowVenueAsWritten(st: AppState, locId: string, eventId: string): (r: AppState)
    ensures r.selectedEventId == Some(eventId) && r.screen == Navigation
    ensures r.selectedLocationId == st.selectedLocationId && r.selectedStaffId == st.selectedStaffId
  {
    st.(selectedEventId := Some(eventId), screen := Navigation)
  }

  /**
   * A location selected by an earlier search survives `onShowVenue`, and the navigation screen
   * then shows that location instead of the venue of the event whose button was pressed.
   */
  lemma ShowVenueAsWrittenKeepsStaleLocation()
    ensures var lib := Location("lib", "Library", "Main", 15.0, 73.0, None);
      var ev := EventRow("e1", "Fest", None, None, None, None, None, None, None, Some("Hall"), None, Some(15.5), Some(73.5));
      var before := AppState(Events, false, "events", None, Some("lib"), None);
      var after := ShowVenueAsWritten(before, "e1", "e1");
      var shown := SelectedLocation(after, [lib], [], [ev]);
      shown.Some? && shown.value.kind == Building && shown.value.id == "lib"
  {
    var lib := Location("lib", "Library", "Main", 15.0, 73.0, None);
    assert Seqs.FirstMatch([lib], (l: Location) => l.id == "lib") == Some(0);
  }

  /**
   * `onShowVenue` as evidently intended: navigate to the chosen event, clearing the location and
   * staff selections that would otherwise take priority over it.
   */
  function ShowVenue(st: AppState, eventId: string): (r: AppState)
    ensures r.selectedEventId == Some(eventId) && r.screen == Navigation
    ensures r.selectedLocationId.None? && r.selectedStaffId.None?
    ensures r.showAdminModal == st.showAdminModal && r.activeTab == st.activeTab
  {
    Cleared(st).(selectedEventId := Some(eventId), screen := Navigation)
  }

  /**
   * After the corrected `onShowVenue`, the destination is the chosen event's venue whenever that
   * event exists with a latitude, and nothing otherwise, whatever was selected before.
   */
  lemma ShowVenueTargetsEvent(st: AppState, eventId: string, locations: seq<Location>, staff: seq<StaffRow>, events: seq<EventRow>)
    requires eventId != ""
    ensures var shown := SelectedLocation(ShowVenue(st, eventId), locations, staff, events);
      var e := Seqs.Find(events, (ev: EventRow) => ev.id == eventId);
      (shown.Some? <==> e.Some? && TruthyNum(e.value.lat)) &&
      (shown.Some? ==> shown.value.kind == Venue && shown.value.id == eventId && shown.value.name == e.value.venueName)
  {
  }
}
