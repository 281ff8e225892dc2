/**
 * The community board (`PostsDashboard`): the tag editor of the composer, the post payload, the
 * ride-join guard, the meetup link embedded in comments, and the search and category filter.
 */
module PostsDashboard {
  import opened Wrappers
  import opened JsString
  import Seqs

  /** The board's categories; `General` is also the "show everything" filter. */
  datatype Category = General | Travel | Food | Errand

  // ---------------------------------------------------------------------------------------------
  // Tags

  const MaxTags := 5

  /** The tag list and the pending tag input. Tag colours are random and not modelled. */
  datatype TagEditor = TagEditor(tags: seq<string>, input: string)

  /**
   * `addTag`: append the trimmed input when it is non-blank and fewer than five tags exist, and
   * then clear the input; otherwise change nothing.
   */
  function AddTag(ed: TagEditor): (r: TagEditor)
    ensures Trim(ed.input) != "" && |ed.tags| < MaxTags ==> r == TagEditor(ed.tags + [Trim(ed.input)], "")
    ensures !(Trim(ed.input) != "" && |ed.tags| < MaxTags) ==> r == ed
    ensures |ed.tags| <= MaxTags ==> |r.tags| <= MaxTags
    ensures forall i :: 0 <= i < |r.tags| ==> r.tags[i] != "" || i < |ed.tags|
  {
    var name := Trim(ed.input);
    if name != "" && |ed.tags| < MaxTags then TagEditor(ed.tags + [name], "") else ed
  }

  /** Removing the tag at index `i` drops exactly that tag and keeps the others in order. */
  function RemoveTag(ed: TagEditor, i: int): (r: TagEditor)
    ensures 0 <= i < |ed.tags| ==> r.tags == ed.tags[..i] + ed.tags[i + 1..]
    ensures !(0 <= i < |ed.tags|) ==> r.tags == ed.tags
    ensures r.input == ed.input
  {
    Seqs.DropIndexSlices(ed.tags, i);
    TagEditor(Seqs.DropIndex(ed.tags, i), ed.input)
  }

  /** An edit of the tag list: an "add" press or a remove click at some index. */
  datatype TagEdit = PressAdd | RemoveAt(i: int) | Type(text: string)

  function ApplyTagEdit(ed: TagEditor, e: TagEdit): TagEditor {
    match e
    case PressAdd => AddTag(ed)
    case RemoveAt(i) => RemoveTag(ed, i)
    case Type(text) => ed.(input := text)
  }

  function ApplyTagEdits(ed: TagEditor, es: seq<TagEdit>): TagEditor
    decreases |es|
  {
    if |es| == 0 then ed else ApplyTagEdits(ApplyTagEdit(ed, es[0]), es[1..])
  }

  /** No sequence of edits takes the tag list past five tags, nor puts a blank tag in it. */
  lemma {:induction false} TagEditsBounded(ed: TagEditor, es: seq<TagEdit>)
    requires |ed.tags| <= MaxTags
    requires forall i :: 0 <= i < |ed.tags| ==> ed.tags[i] != ""
    ensures |ApplyTagEdits(ed, es).tags| <= MaxTags
    ensures forall i :: 0 <= i < |ApplyTagEdits(ed, es).tags| ==> ApplyTagEdits(ed, es).tags[i] != ""
    decreases |es|
  {
    if |es| > 0 {
      var next := ApplyTagEdit(ed, es[0]);
      if es[0].RemoveAt? {
        assert forall i :: 0 <= i < |next.tags| ==> next.tags[i] in ed.tags;
      }
      TagEditsBounded(next, es[1..]);
    }
  }

  /** The tags submitted with a post: the list, plus the pending input when it is non-blank. */
  function FinalTags(ed: TagEditor): (r: seq<string>)
    ensures ed.tags <= r
    ensures |r| == |ed.tags| + (if Trim(ed.input) != "" then 1 else 0)
    ensures Trim(ed.input) != "" ==> r[|r| - 1] == Trim(ed.input)
  {
    var name := Trim(ed.input);
    if name != "" then ed.tags + [name] else ed.tags
  }

  /** Five tags and a pending input submit six tags: the cap holds for the list, not for the post. */
  lemma SixTagsSubmitted(ed: TagEditor)
    requires |ed.tags| == MaxTags && Trim(ed.input) != ""
    ensures |FinalTags(ed)| == MaxTags + 1
    ensures AddTag(ed) == ed
  {
  }

  // ---------------------------------------------------------------------------------------------
  // Composer payload

  /** The composer's inputs. */
  datatype Composer = Composer(
    content: string, category: Category, tags: TagEditor, imageUrl: Option<string>,
    tripOrigin: string, tripDest: string, tripTime: string, tripMode: string, seats: int,
    restaurant: string, deadline: string)

  /** The category-specific columns of a new post. */
  datatype Extras =
    | NoExtras
    | TripFields(origin: string, destination: string, datetime: string, mode: string, seatsAvailable: int)
    | FoodFields(restaurantName: string, orderDeadline: string)
    | ErrandFields(status: string)

  /** The `posts` row a submit inserts. */
  datatype NewPost = NewPost(userId: string, content: string, category: Category, imageUrl: Option<string>,
                             tags: seq<string>, extras: Extras)

  /**
   * The post payload: travel posts carry the trip fields, food posts the restaurant and deadline,
   * errands the status `open`, and general posts nothing more.
   */
  function BuildPost(userId: string, c: Composer): (r: NewPost)
    ensures r.extras.TripFields? <==> c.category == Travel
    ensures r.extras.FoodFields? <==> c.category == Food
    ensures r.extras.ErrandFields? <==> c.category == Errand
    ensures r.extras.NoExtras? <==> c.category == General
    ensures r.extras.TripFields? ==> r.extras == TripFields(c.tripOrigin, c.tripDest, c.tripTime, c.tripMode, c.seats)
    ensures r.extras.FoodFields? ==> r.extras == FoodFields(c.restaurant, c.deadline)
    ensures r.extras.ErrandFields? ==> r.extras.status == "open"
    ensures r.userId == userId && r.content == c.content && r.category == c.category && r.imageUrl == c.imageUrl
    ensures r.tags == FinalTags(c.tags)
  {
    var extras := match c.category
      case Travel => TripFields(c.tripOrigin, c.tripDest, c.tripTime, c.tripMode, c.seats)
      case Food => FoodFields(c.restaurant, c.deadline)
      case Errand => ErrandFields("open")
      case General => NoExtras;
    NewPost(userId, c.content, c.category, c.imageUrl, FinalTags(c.tags), extras)
  }

  /**
   * The composer after a successful insert: content, image, tags, destination and restaurant are
   * cleared; the pending tag input and the other trip and food fields are kept.
   */
  function AfterPost(c: Composer): (r: Composer)
    ensures r.content == "" && r.imageUrl.None? && r.tags.tags == [] && r.tripDest == "" && r.restaurant == ""
    ensures r.tags.input == c.tags.input && r.category == c.category && r.tripOrigin == c.tripOrigin
    ensures r.tripTime == c.tripTime && r.tripMode == c.tripMode && r.seats == c.seats && r.deadline == c.deadline
  {
    c.(content := "", imageUrl := None, tags := c.tags.(tags := []), tripDest := "", restaurant := "")
  }

  /** The pending tag input survives a post, so a non-blank one is submitted again with the next post. */
  lemma PendingTagResubmitted(userId: string, c: Composer, next: Composer)
    requires Trim(c.tags.input) != ""
    requires next == AfterPost(c)
    ensures BuildPost(userId, next).tags == [Trim(c.tags.input)]
  {
  }

  /** The submit button is disabled while a post is being sent and while the content is blank. */
  function SubmitDisabled(loading: bool, content: string): (r: bool)
    ensures r <==> loading || forall i :: 0 <= i < |content| ==> IsSpace(content[i])
  {
    loading || Trim(content) == ""
  }

  // ---------------------------------------------------------------------------------------------
  // Rides

  /**
   * `handleJoinRide`: the new seat count written, or None when nothing is written. A missing or
   * non-positive count stops the join, as does a declined confirmation; otherwise one seat is taken.
   */
  function JoinRide(seats: Option<int>, confirmed: bool): (r: Option<int>)
    ensures r.Some? <==> seats.Some? && seats.value > 0 && confirmed
    ensures r.Some? ==> r.value == seats.value - 1 && r.value >= 0
  {
    var available := if seats.Some? then seats.value else 0;
    if available <= 0 || !confirmed then None
    else
      var before := if seats.Some? && seats.value != 0 then seats.value else 1;
      Some(before - 1)
  }

  // ---------------------------------------------------------------------------------------------
  // Meetup links

  const Marker := "[MEETUP_ID:"

  /** Index of the first character at or after `k` that is `]` or a line terminator, or None. */
  function StopAt(s: string, k: nat): (r: Option<nat>)
    requires k <= |s|
    ensures r.Some? ==> k <= r.value < |s| && (s[r.value] == ']' || IsLineTerminator(s[r.value]))
    ensures r.Some? ==> forall j :: k <= j < r.value ==> s[j] != ']' && !IsLineTerminator(s[j])
    ensures r.None? ==> forall j :: k <= j < |s| ==> s[j] != ']' && !IsLineTerminator(s[j])
    decreases |s| - k
  {
    if k == |s| then None
    else if s[k] == ']' || IsLineTerminator(s[k]) then Some(k)
    else StopAt(s, k + 1)
  }

  /** Whether the marker occurs at position `i`. */
  predicate MarkerAt(s: string, i: nat) {
    i + |Marker| <= |s| && s[i..i + |Marker|] == Marker
  }

  /** The marker at `i` is closed: the first `]` or line terminator after it is a `]`. */
  predicate Closes(s: string, i: nat) {
    MarkerAt(s, i) && StopAt(s, i + |Marker|).Some? && s[StopAt(s, i + |Marker|).value] == ']'
  }

  /** The text between a closed marker and its `]`. */
  function Between(s: string, i: nat): string
    requires Closes(s, i)
  {
    s[i + |Marker|..StopAt(s, i + |Marker|).value]
  }

  /**
   * The capture of `/\[MEETUP_ID:(.*?)\]/` searching from position `i`: at the leftmost marker
   * whose text is followed by a `]` before any line terminator (`.` does not match one), the text
   * up to that first `]`.
   */
  function CaptureFrom(s: string, i: nat): (r: Option<string>)
    requires i <= |s|
    ensures r.None? <==> forall m :: i <= m < |s| ==> !Closes(s, m)
    ensures r.Some? ==> exists m :: LeftmostClosed(s, i, m) && r.value == Between(s, m)
    decreases |s| - i
  {
    if i + |Marker| > |s| then
      assert forall m :: i <= m < |s| ==> !MarkerAt(s, m);
      None
    else if Closes(s, i) then
      assert LeftmostClosed(s, i, i);
      Some(Between(s, i))
    else
      var r := CaptureFrom(s, i + 1);
      CaptureStep(s, i, r);
      r
  }

  /** The marker at `m` is closed and no marker from `i` up to `m` is. */
  predicate LeftmostClosed(s: string, i: nat, m: nat) {
    i <= m < |s| && Closes(s, m) && forall m' :: i <= m' < m ==> !Closes(s, m')
  }

  /** A search result from `i + 1` is also the result from `i` when the marker at `i` is not closed. */
  lemma CaptureStep(s: string, i: nat, r: Option<string>)
    requires i < |s| && !Closes(s, i)
    requires r.None? <==> forall m :: i + 1 <= m < |s| ==> !Closes(s, m)
    requires r.Some? ==> exists m :: LeftmostClosed(s, i + 1, m) && r.value == Between(s, m)
    ensures r.None? <==> forall m :: i <= m < |s| ==> !Closes(s, m)
    ensures r.Some? ==> exists m :: LeftmostClosed(s, i, m) && r.value == Between(s, m)
  {
    if r.Some? {
      var m :| LeftmostClosed(s, i + 1, m) && r.value == Between(s, m);
      assert LeftmostClosed(s, i, m);
    }
  }

  /** The capture group of the first match in the whole text, if any. */
  function MeetupCapture(content: string): (r: Option<string>)
    ensures r.Some? ==> forall j :: 0 <= j < |r.value| ==> r.value[j] != ']' && !IsLineTerminator(r.value[j])
    ensures r.None? <==> forall m :: 0 <= m < |content| ==> !Closes(content, m)
    ensures r.Some? ==> exists m :: LeftmostClosed(content, 0, m) && r.value == Between(content, m)
  {
    CaptureSound(content, 0);
    CaptureFrom(content, 0)
  }

  lemma {:induction false} CaptureSound(s: string, i: nat)
    requires i <= |s|
    ensures var r := CaptureFrom(s, i);
      r.Some? ==> forall j :: 0 <= j < |r.value| ==> r.value[j] != ']' && !IsLineTerminator(r.value[j])
    decreases |s| - i
  {
    if i + |Marker| <= |s| {
      CaptureSound(s, i + 1);
      if Closes(s, i) {
        var c := Between(s, i);
        assert forall j :: 0 <= j < |c| ==> c[j] == s[i + |Marker| + j];
      }
    }
  }

  /** `handleJoinMeetup`: open the captured meetup; with no match or an empty capture keep the current one. */
  function JoinMeetup(active: Option<string>, content: string): (r: Option<string>)
    ensures MeetupCapture(content).Some? && MeetupCapture(content).value != "" ==> r == MeetupCapture(content)
    ensures !(MeetupCapture(content).Some? && MeetupCapture(content).value != "") ==> r == active
  {
    var m := MeetupCapture(content);
    if m.Some? && m.value != "" then m else active
  }

  /** The comment `handleShareLocation` posts for meetup `id`. */
  function ShareComment(id: string): string {
    "📍 LIVE LOCATION SHARED. " + Marker + id + "]"
  }

  /** No marker starts at a position holding something other than `[`. */
  lemma NoMarkerWithoutBracket(s: string, i: nat)
    requires i < |s| && s[i] != '['
    ensures !MarkerAt(s, i)
  {
  }

  /** After a prefix without `[`, the capture is the text between the marker and the first `]`. */
  lemma {:induction false} CaptureAfterPlainPrefix(prefix: string, id: string, suffix: string, i: nat)
    requires '[' !in prefix
    requires forall j :: 0 <= j < |id| ==> id[j] != ']' && !IsLineTerminator(id[j])
    requires i <= |prefix|
    ensures var s := prefix + Marker + id + "]" + suffix;
      CaptureFrom(s, i) == Some(id)
    decreases |prefix| - i
  {
    var s := prefix + Marker + id + "]" + suffix;
    if i < |prefix| {
      assert s[i] == prefix[i];
      NoMarkerWithoutBracket(s, i);
      assert !Closes(s, i);
      CaptureAfterPlainPrefix(prefix, id, suffix, i + 1);
    } else {
      MarkerClosed(prefix, id, suffix);
    }
  }

  /** The marker right after `prefix` is closed by the `]` after `id`, and encloses `id`. */
  lemma MarkerClosed(prefix: string, id: string, suffix: string)
    requires forall j :: 0 <= j < |id| ==> id[j] != ']' && !IsLineTerminator(id[j])
    ensures var s := prefix + Marker + id + "]" + suffix;
      Closes(s, |prefix|) && Between(s, |prefix|) == id
  {
    var s := prefix + Marker + id + "]" + suffix;
    var k := |prefix| + |Marker|;
    assert s[|prefix|..k] == Marker;
    assert forall j :: k <= j < k + |id| ==> s[j] == id[j - k];
    assert s[k + |id|] == ']';
    StopAtFinds(s, k, k + |id|);
    assert s[k..k + |id|] == id;
  }

  /** `StopAt` finds the first stop character when everything before it is plain. */
  lemma {:induction false} StopAtFinds(s: string, k: nat, j: nat)
    requires k <= j < |s| && s[j] == ']'
    requires forall m :: k <= m < j ==> s[m] != ']' && !IsLineTerminator(s[m])
    ensures StopAt(s, k) == Some(j)
    decreases j - k
  {
    if k < j {
      StopAtFinds(s, k + 1, j);
    }
  }

  /** Joining from the shared-location comment opens exactly the meetup that was shared. */
  lemma ShareThenJoin(active: Option<string>, id: string)
    requires id != ""
    requires forall j :: 0 <= j < |id| ==> id[j] != ']' && !IsLineTerminator(id[j])
    ensures JoinMeetup(active, ShareComment(id)) == Some(id)
  {
    var prefix := "📍 LIVE LOCATION SHARED. ";
    assert ShareComment(id) == prefix + Marker + id + "]" + "";
    CaptureAfterPlainPrefix(prefix, id, "", 0);
  }

  // ---------------------------------------------------------------------------------------------
  // Feed filter

  /** A post as the board lists it; `tags` and the author's name may be missing. */
  datatype Post = Post(id: string, content: Option<string>, tags: Option<seq<string>>,
                       authorName: Option<string>, category: Category)

  /** The search part: an empty query matches everything; otherwise content, a tag or the author name must include it (case-insensitively). */
  predicate MatchesSearch(p: Post, query: string) {
    var q := Lower(query);
    query == "" ||
    (p.content.Some? && Includes(Lower(p.content.value), q)) ||
    (p.tags.Some? && exists i :: 0 <= i < |p.tags.value| && Includes(Lower(p.tags.value[i]), q)) ||
    (p.authorName.Some? && Includes(Lower(p.authorName.value), q))
  }

  /** The category part: `General` shows every category, any other shows only its own. */
  predicate MatchesCategory(p: Post, active: Category) {
    active == General || p.category == active
  }

  /** `filteredPosts`: the posts matching both the search and the category, in order. */
  function FilteredPosts(posts: seq<Post>, query: string, active: Category): (r: seq<Post>)
    ensures forall i :: 0 <= i < |r| ==> r[i] in posts && MatchesSearch(r[i], query) && MatchesCategory(r[i], active)
    ensures forall p :: p in posts && MatchesSearch(p, query) && MatchesCategory(p, active) ==> p in r
    ensures multiset(r) <= multiset(posts)
  {
    Seqs.Filter(posts, (p: Post) => MatchesSearch(p, query) && MatchesCategory(p, active))
  }

  /** Filtering a list in two parts filters each part and keeps them in order. */
  lemma FilteredPostsAppend(a: seq<Post>, b: seq<Post>, query: string, active: Category)
    ensures FilteredPosts(a + b, query, active) == FilteredPosts(a, query, active) + FilteredPosts(b, query, active)
  {
    Seqs.FilterAppend(a, b, (p: Post) => MatchesSearch(p, query) && MatchesCategory(p, active));
  }

  /** A single post is shown exactly when it matches, so the filter keeps matching posts in their order. */
  lemma FilteredPostsSingle(p: Post, query: string, active: Category)
    ensures FilteredPosts([p], query, active) == (if MatchesSearch(p, query) && MatchesCategory(p, active) then [p] else [])
  {
    assert [p][1..] == [];
  }

  /** With an empty query and the `General` filter, every post is shown, in order. */
  lemma EmptyFilterKeepsAll(posts: seq<Post>)
    ensures FilteredPosts(posts, "", General) == posts
  {
    Seqs.FilterAll(posts, (p: Post) => MatchesSearch(p, "") && MatchesCategory(p, General));
  }

  /** A non-general filter shows only that category, and with an empty query all of it. */
  lemma CategoryFilterExact(posts: seq<Post>, active: Category, p: Post)
    requires active != General && p in posts
    ensures p in FilteredPosts(posts, "", active) <==> p.category == active
  {
  }
}
