/**
 * The broadcast console of the admin (`AdminNotificationSender`): alerts with an emergency
 * marker, and polls whose option list the editor keeps between two and five entries.
 */
module AdminNotificationSender {
  import opened Wrappers
  import opened JsString
  import Seqs

  // ---------------------------------------------------------------------------------------------
  // Alerts

  /** The alert form. */
  datatype AlertForm = AlertForm(title: string, message: string, emergency: bool)

  const EmptyAlert := AlertForm("", "", false)

  /** The `notifications` row an alert inserts (the timestamp comes from the clock and is left out). */
  datatype AlertRow = AlertRow(title: string, content: string, kind: string)

  const AlertRequired := "Title and message required"

  /** The siren prefix of an emergency title. */
  const Siren := "🚨 "

  /**
   * `handleSendAlert` up to the insert: title and message are required; an emergency title gets
   * the siren prefix, any other title is sent unchanged.
   */
  function SendAlert(f: AlertForm): (r: Result<AlertRow, string>)
    ensures r.Err? <==> f.title == "" || f.message == ""
    ensures r.Err? ==> r.error == AlertRequired
    ensures r.Ok? ==> r.value.content == f.message && r.value.kind == "alert"
    ensures r.Ok? && f.emergency ==> r.value.title == Siren + f.title
    ensures r.Ok? && !f.emergency ==> r.value.title == f.title
  {
    if f.title == "" || f.message == "" then Err(AlertRequired)
    else Ok(AlertRow(if f.emergency then Siren + f.title else f.title, f.message, "alert"))
  }

  /** The sent title always ends with the typed title, and starts with the siren exactly for emergencies (given a title not already starting with it). */
  lemma AlertTitleRecoverable(f: AlertForm)
    requires f.title != "" && f.message != ""
    requires !(Siren <= f.title)
    ensures var t := SendAlert(f).value.title;
      (Siren <= t <==> f.emergency) && t[|t| - |f.title|..] == f.title
  {
  }

  /** The alert form after the insert: cleared (and the emergency flag dropped) only on success. */
  function AfterAlert(f: AlertForm, succeeded: bool): (r: AlertForm)
    ensures succeeded ==> r == EmptyAlert
    ensures !succeeded ==> r == f
  {
    if succeeded then EmptyAlert else f
  }

  // ---------------------------------------------------------------------------------------------
  // Polls

  const MinOptions := 2
  const MaxOptions := 5

  /** The option list a fresh or just-published poll form shows. */
  const FreshOptions: seq<string> := ["", ""]

  /** The poll form. */
  datatype PollForm = PollForm(title: string, options: seq<string>)

  /** The `notifications` row a poll inserts. */
  datatype PollRow = PollRow(title: string, content: string, kind: string, options: seq<string>)

  const PollRequired := "Poll needs title and at least 2 options"

  /** An option counts when it is non-blank after trimming. */
  predicate Filled(o: string) {
    Trim(o) != ""
  }

  /** The options that count, untrimmed and in their original order. */
  function ValidOptions(options: seq<string>): (r: seq<string>)
    ensures forall i :: 0 <= i < |r| ==> Filled(r[i]) && r[i] in options
    ensures forall o :: o in options && Filled(o) ==> o in r
    ensures multiset(r) <= multiset(options)
  {
    Seqs.Filter(options, Filled)
  }

  /** Blank options are dropped and every other option kept, in order: the valid options of `a + b` are those of `a` then those of `b`. */
  lemma ValidOptionsAppend(a: seq<string>, b: seq<string>)
    ensures ValidOptions(a + b) == ValidOptions(a) + ValidOptions(b)
  {
    Seqs.FilterAppend(a, b, Filled);
  }

  /**
   * `handleCreatePoll` up to the insert: a title and at least two valid options are required,
   * and only the valid options are stored.
   */
  function CreatePoll(f: PollForm): (r: Result<PollRow, string>)
    ensures r.Err? <==> f.title == "" || |ValidOptions(f.options)| < MinOptions
    ensures r.Err? ==> r.error == PollRequired
    ensures r.Ok? ==> r.value == PollRow(f.title, "Poll", "poll", ValidOptions(f.options))
    ensures r.Ok? ==> |r.value.options| >= MinOptions && forall i :: 0 <= i < |r.value.options| ==> Filled(r.value.options[i])
  {
    var valid := ValidOptions(f.options);
    if f.title == "" || |valid| < MinOptions then Err(PollRequired)
    else Ok(PollRow(f.title, "Poll", "poll", valid))
  }

  /** The poll form after the insert: on success the title is blank and the options are two empty ones again. */
  function AfterPoll(f: PollForm, succeeded: bool): (r: PollForm)
    ensures succeeded ==> r == PollForm("", FreshOptions)
    ensures !succeeded ==> r == f
  {
    if succeeded then PollForm("", FreshOptions) else f
  }

  /** Typing `text` into the input of option `i`: only that position changes. */
  function EditOption(options: seq<string>, i: int, text: string): (r: seq<string>)
    ensures |r| == |options|
    ensures 0 <= i < |options| ==> r[i] == text
    ensures forall j :: 0 <= j < |options| && j != i ==> r[j] == options[j]
  {
    if 0 <= i < |options| then options[i := text] else options
  }

  /** The remove button, shown only above two options, drops option `i` and keeps the rest in order. */
  function RemoveOption(options: seq<string>, i: int): (r: seq<string>)
    ensures |options| > MinOptions && 0 <= i < |options| ==> r == options[..i] + options[i + 1..]
    ensures !(|options| > MinOptions && 0 <= i < |options|) ==> r == options
  {
    if |options| > MinOptions && 0 <= i < |options| then
      Seqs.DropIndexSlices(options, i);
      Seqs.DropIndex(options, i)
    else options
  }

  /** The add button, shown only below five options, appends one empty option. */
  function AddOption(options: seq<string>): (r: seq<string>)
    ensures |options| < MaxOptions ==> r == options + [""]
    ensures |options| >= MaxOptions ==> r == options
  {
    if |options| < MaxOptions then options + [""] else options
  }

  /** A user action on the option list. */
  datatype OptionEdit = Edit(i: int, text: string) | Remove(i: int) | Add

  function ApplyOptionEdit(options: seq<string>, e: OptionEdit): seq<string> {
    match e
    case Edit(i, text) => EditOption(options, i, text)
    case Remove(i) => RemoveOption(options, i)
    case Add => AddOption(options)
  }

  function ApplyOptionEdits(options: seq<string>, es: seq<OptionEdit>): seq<string>
    decreases |es|
  {
    if |es| == 0 then options else ApplyOptionEdits(ApplyOptionEdit(options, es[0]), es[1..])
  }

  /** Starting from the fresh form, any sequence of edits keeps between two and five options. */
  lemma {:induction false} OptionCountStaysInRange(options: seq<string>, es: seq<OptionEdit>)
    requires MinOptions <= |options| <= MaxOptions
    ensures MinOptions <= |ApplyOptionEdits(options, es)| <= MaxOptions
    decreases |es|
  {
    if |es| > 0 {
      OptionCountStaysInRange(ApplyOptionEdit(options, es[0]), es[1..]);
    }
  }

  /** The fresh form starts in range, so every reachable option list is in range. */
  lemma FreshOptionsInRange(es: seq<OptionEdit>)
    ensures MinOptions <= |ApplyOptionEdits(FreshOptions, es)| <= MaxOptions
  {
    OptionCountStaysInRange(FreshOptions, es);
  }
}
