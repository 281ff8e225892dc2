/**
 * The student notification list (`NotificationList`): display order, poll percentages and totals,
 * and the voting buttons.
 */
module NotificationList {
  import opened Wrappers
  import opened JsString
  import opened JsMath
  import Seqs

  /** A poll option; a missing count counts as 0. */
  datatype PollOption = PollOption(id: string, text: string, count: Option<int>)

  /** A notification as the list receives it. */
  datatype Note = Note(id: string, kind: string, title: string, pollOptions: Option<seq<PollOption>>,
                       votedOptionId: Option<string>)

  /** Notifications are shown newest last-in first: the reverse of the order received. */
  function DisplayOrder(notes: seq<Note>): (r: seq<Note>)
    ensures |r| == |notes|
    ensures forall i :: 0 <= i < |notes| ==> r[i] == notes[|notes| - 1 - i]
  {
    Seqs.ReverseIndex(notes);
    Seqs.Reverse(notes)
  }

  /** Reversing the display order gives back the order received. */
  lemma DisplayOrderInvolutive(notes: seq<Note>)
    ensures Seqs.Reverse(DisplayOrder(notes)) == notes
  {
    Seqs.ReverseInvolutive(notes);
  }

  /** The poll block shows for a poll that has an option list (an empty list included). */
  predicate ShowsPoll(n: Note) {
    n.kind == "poll" && n.pollOptions.Some?
  }

  /** `count || 0`. */
  function Count(o: PollOption): int {
    if o.count.Some? then o.count.value else 0
  }

  function Counts(options: seq<PollOption>): (r: seq<int>)
    ensures |r| == |options|
    ensures forall i :: 0 <= i < |options| ==> r[i] == Count(options[i])
  {
    seq(|options|, i requires 0 <= i < |options| => Count(options[i]))
  }

  /** The "Total votes" line: the plain sum of the counts. */
  function TotalVotes(options: seq<PollOption>): (r: int)
    ensures |options| == 0 ==> r == 0
    ensures NonNegative(options) ==> r >= 0 && forall i :: 0 <= i < |options| ==> Count(options[i]) <= r
    ensures NonNegative(options) ==> (r == 0 <==> forall i :: 0 <= i < |options| ==> Count(options[i]) == 0)
  {
    if NonNegative(options) then
      Seqs.SumBoundsTerms(Counts(options));
      Seqs.SumZero(Counts(options));
      Seqs.Sum(Counts(options))
    else Seqs.Sum(Counts(options))
  }

  /** Adding an option adds its `count || 0` to the total. */
  lemma TotalVotesAppend(options: seq<PollOption>, o: PollOption)
    ensures TotalVotes(options + [o]) == TotalVotes(options) + Count(o)
  {
    assert Counts(options + [o]) == Counts(options) + [Count(o)];
    Seqs.SumAppend(Counts(options), [Count(o)]);
    assert Seqs.Sum([Count(o)]) == Count(o) + Seqs.Sum([]);
  }

  /** The percentage divisor: the total, or 1 when the total is 0. */
  function Divisor(options: seq<PollOption>): (r: int)
    ensures r != 0
    ensures TotalVotes(options) != 0 ==> r == TotalVotes(options)
    ensures TotalVotes(options) == 0 ==> r == 1
  {
    var t := TotalVotes(options);
    if t != 0 then t else 1
  }

  /** `Math.round(count / divisor * 100)`, in exact arithmetic. */
  function Percentage(options: seq<PollOption>, o: PollOption): (r: int)
    ensures var exact := Count(o) as real / Divisor(options) as real * 100.0;
      exact - 0.5 < r as real <= exact + 0.5
  {
    Round(Count(o) as real / Divisor(options) as real * 100.0)
  }

  /** No option carries a negative count. */
  predicate NonNegative(options: seq<PollOption>) {
    forall i :: 0 <= i < |options| ==> Count(options[i]) >= 0
  }

  /** With non-negative counts every option's percentage lies between 0 and 100. */
  lemma PercentageBounds(options: seq<PollOption>, i: nat)
    requires NonNegative(options) && i < |options|
    ensures 0 <= Percentage(options, options[i]) <= 100
  {
    var c := Count(options[i]);
    var d := Divisor(options);
    assert 0 <= c <= d || (c == 0 && d == 1);
    RatioAtMostOne(c as real, d as real);
    RoundWithin(c as real / d as real * 100.0, 0, 100);
  }

  /** A share of a positive whole lies between 0 and 1. */
  lemma RatioAtMostOne(c: real, d: real)
    requires 0.0 <= c <= d && 0.0 < d
    ensures 0.0 <= c / d <= 1.0
  {
    assert c / d * d == c;
  }

  /** When no option has a vote every percentage is 0, and with non-negative counts that is the only way the total is 0. */
  lemma NoVotesAllZero(options: seq<PollOption>, i: nat)
    requires NonNegative(options) && i < |options|
    requires TotalVotes(options) == 0
    ensures Count(options[i]) == 0 && Percentage(options, options[i]) == 0
  {
    Seqs.SumZero(Counts(options));
  }

  /** A single option with every vote shows 100. */
  lemma AllVotesOneOption(options: seq<PollOption>, i: nat)
    requires i < |options| && Count(options[i]) == TotalVotes(options) && TotalVotes(options) > 0
    ensures Percentage(options, options[i]) == 100
  {
    var c := Count(options[i]) as real;
    assert Divisor(options) as real == c;
    assert c / c == 1.0;
  }

  /** The buttons are disabled once the note records a vote (a non-empty voted option id). */
  predicate VoteDisabled(n: Note) {
    Truthy(n.votedOptionId)
  }

  /** An option is marked selected when it is the voted one. */
  predicate IsSelected(n: Note, o: PollOption) {
    n.votedOptionId == Some(o.id)
  }

  /**
   * With distinct option ids, a recorded vote for one of the options marks exactly that option
   * selected and disables voting; with no vote nothing is selected and voting is open.
   */
  lemma ExactlyVotedSelected(n: Note, options: seq<PollOption>, k: nat)
    requires forall i, j :: 0 <= i < j < |options| ==> options[i].id != options[j].id
    requires k < |options| && n.votedOptionId == Some(options[k].id) && options[k].id != ""
    ensures VoteDisabled(n)
    ensures forall i :: 0 <= i < |options| ==> (IsSelected(n, options[i]) <==> i == k)
  {
  }

  lemma NoVoteNothingSelected(n: Note, options: seq<PollOption>)
    requires n.votedOptionId.None?
    ensures !VoteDisabled(n)
    ensures forall i :: 0 <= i < |options| ==> !IsSelected(n, options[i])
  {
  }
}
