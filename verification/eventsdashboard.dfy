/**
 * The student events screen (`EventsDashboard`): the upcoming/past tabs, the date ordering of a
 * tab, and the arguments of the "GO NOW" button. `today` is the local date as "YYYY-MM-DD" and
 * `time` gives an event's date as a timestamp; both come from the clock and date library.
 */
module EventsDashboard {
  import opened Wrappers
  import opened JsString
  import opened Records
  import Seqs

  /** The two tabs. */
  datatype Tab = Upcoming | Past

  /** `s.substring(0, 10)`: the date part of an ISO date or timestamp. */
  function DatePart(s: string): (r: string)
    ensures |r| == if |s| < 10 then |s| else 10
    ensures r <= s
  {
    if |s| < 10 then s else s[..10]
  }

  /**
   * The tab filter: an event without a date is in no tab; a dated one is upcoming when its date
   * part is not before `today` (string order) and past when it is before.
   */
  predicate InTab(e: EventRow, tab: Tab, today: string) {
    Truthy(e.date) &&
    (match tab
     case Upcoming => !LexLess(DatePart(e.date.value), today)
     case Past => LexLess(DatePart(e.date.value), today))
  }

  /** An event without a date appears in neither tab. */
  lemma UndatedInNoTab(e: EventRow, today: string)
    requires !Truthy(e.date)
    ensures !InTab(e, Upcoming, today) && !InTab(e, Past, today)
  {
  }

  /** A dated event appears in exactly one tab. */
  lemma DatedInExactlyOneTab(e: EventRow, today: string)
    requires Truthy(e.date)
    ensures InTab(e, Upcoming, today) != InTab(e, Past, today)
  {
  }

  /** The events of one tab, in list order. */
  function TabEvents(events: seq<EventRow>, tab: Tab, today: string): (r: seq<EventRow>)
    ensures forall i :: 0 <= i < |r| ==> InTab(r[i], tab, today) && r[i] in events
    ensures forall e :: e in events && InTab(e, tab, today) ==> e in r
  {
    Seqs.Filter(events, (e: EventRow) => InTab(e, tab, today))
  }

  /** The dated events, in list order. */
  function Dated(events: seq<EventRow>): seq<EventRow> {
    Seqs.Filter(events, (e: EventRow) => Truthy(e.date))
  }

  /** Together the two tabs hold every dated event exactly as often as the list does, and nothing else. */
  lemma {:induction false} TabsPartitionDated(events: seq<EventRow>, today: string)
    ensures multiset(TabEvents(events, Upcoming, today)) + multiset(TabEvents(events, Past, today)) ==
            multiset(Dated(events))
    decreases |events|
  {
    if |events| > 0 {
      TabsPartitionDated(events[1..], today);
      if Truthy(events[0].date) {
        DatedInExactlyOneTab(events[0], today);
      }
    }
  }

  /** The list is ordered by `time`. */
  predicate SortedBy(xs: seq<EventRow>, time: EventRow -> int) {
    forall i, j :: 0 <= i < j < |xs| ==> time(xs[i]) <= time(xs[j])
  }

  /** Insert `x` into an ordered list after every element whose time is not later than its own. */
  function InsertByTime(x: EventRow, xs: seq<EventRow>, time: EventRow -> int): (r: seq<EventRow>)
    requires SortedBy(xs, time)
    ensures SortedBy(r, time)
    ensures multiset(r) == multiset(xs) + multiset{x}
    ensures |r| == |xs| + 1
    decreases |xs|
  {
    if |xs| == 0 then [x]
    else if time(x) < time(xs[0]) then [x] + xs
    else
      var rest := InsertByTime(x, xs[1..], time);
      InsertStep(x, xs, rest, time);
      [xs[0]] + rest
  }

  /** Putting the head of an ordered list in front of the insertion into its tail keeps the list ordered. */
  lemma InsertStep(x: EventRow, xs: seq<EventRow>, rest: seq<EventRow>, time: EventRow -> int)
    requires |xs| > 0 && SortedBy(xs, time) && time(xs[0]) <= time(x)
    requires SortedBy(rest, time) && multiset(rest) == multiset(xs[1..]) + multiset{x}
    ensures SortedBy([xs[0]] + rest, time)
    ensures multiset([xs[0]] + rest) == multiset(xs) + multiset{x}
  {
    assert xs == [xs[0]] + xs[1..];
    forall k | 0 <= k < |rest|
      ensures time(xs[0]) <= time(rest[k])
    {
      assert rest[k] in multiset(rest);
      if rest[k] != x {
        assert rest[k] in xs[1..];
      }
    }
  }

  /** `sort((a, b) => time(a) - time(b))`, stable: each element is inserted after the earlier equal ones. */
  function SortByTime(xs: seq<EventRow>, time: EventRow -> int): (r: seq<EventRow>)
    ensures SortedBy(r, time)
    ensures multiset(r) == multiset(xs)
    decreases |xs|
  {
    if |xs| == 0 then []
    else
      assert xs == xs[..|xs| - 1] + [xs[|xs| - 1]];
      InsertByTime(xs[|xs| - 1], SortByTime(xs[..|xs| - 1], time), time)
  }

  /** `filteredEvents`: the active tab's events ordered by date. */
  function FilteredEvents(events: seq<EventRow>, tab: Tab, today: string, time: EventRow -> int): (r: seq<EventRow>)
    ensures SortedBy(r, time)
    ensures multiset(r) == multiset(TabEvents(events, tab, today))
    ensures forall i :: 0 <= i < |r| ==> InTab(r[i], tab, today)
  {
    var r := SortByTime(TabEvents(events, tab, today), time);
    assert forall i :: 0 <= i < |r| ==> r[i] in multiset(TabEvents(events, tab, today));
    r
  }

  /** The two tabs, each sorted, together hold exactly the dated events. */
  lemma TabsShowDatedEvents(events: seq<EventRow>, today: string, time: EventRow -> int)
    ensures multiset(FilteredEvents(events, Upcoming, today, time)) + multiset(FilteredEvents(events, Past, today, time)) ==
            multiset(Dated(events))
  {
    TabsPartitionDated(events, today);
  }

  /** "GO NOW": the event's location id when it has one, else the event id; then the event id. */
  function GoNowArgs(e: EventRow): (r: (string, string))
    ensures Truthy(e.locationId) ==> r.0 == e.locationId.value
    ensures !Truthy(e.locationId) ==> r.0 == e.id
    ensures r.1 == e.id
  {
    (OrElse(e.locationId, e.id), e.id)
  }
}
