/**
 * The event editor of the admin console (`AdminEventManagement`): editing an existing event,
 * validating and saving the form, deriving the venue name, and resetting the form.
 */
module AdminEventManagement {
  import opened Wrappers
  import opened JsString
  import opened Records
  import Seqs

  /** The editor form. Fields copied verbatim from a row may be missing, hence the Options. */
  datatype EventForm = EventForm(
    title: Option<string>, description: string, date: Option<string>, startTime: Option<string>,
    endTime: Option<string>, locationId: Option<string>, kind: string, bannerImage: Option<string>,
    venueDetails: Option<string>)

  /** The blank form: every text field empty and the type `academic`. */
  const EmptyForm := EventForm(Some(""), "", Some(""), Some(""), Some(""), Some(""), "academic", Some(""), Some(""))

  /** The editor's state: the form, the id being edited (None when creating), and whether the form is open. */
  datatype Editor = Editor(form: EventForm, editingId: Option<string>, isAdding: bool, hasFile: bool)

  /** The editor when nothing is being edited. */
  const Closed := Editor(EmptyForm, None, false, false)

  /** The `events` columns a save writes. */
  datatype Payload = Payload(
    title: Option<string>, description: string, date: Option<string>, startTime: Option<string>,
    endTime: Option<string>, venueName: Option<string>, locationId: Option<string>, category: string,
    bannerUrl: Option<string>)

  /** The write a save issues. */
  datatype Write = Insert(payload: Payload) | Update(id: string, payload: Payload)

  const RequiredMessage := "Please fill in required fields"

  /** `handleEdit`: load a row into the form, defaulting a missing description to '' and a missing category to `academic`. */
  function HandleEdit(e: EventRow): (r: Editor)
    ensures r.isAdding && r.editingId == Some(e.id)
    ensures r.form.description == OrElse(e.description, "")
    ensures r.form.kind == OrElse(e.category, "academic")
    ensures r.form.title == Some(e.title) && r.form.date == e.date && r.form.startTime == e.startTime
    ensures r.form.endTime == e.endTime && r.form.locationId == e.locationId
    ensures r.form.bannerImage == e.bannerUrl && r.form.venueDetails == e.venueName
  {
    Editor(EventForm(Some(e.title), OrElse(e.description, ""), e.date, e.startTime, e.endTime, e.locationId,
                     OrElse(e.category, "academic"), e.bannerUrl, e.venueName),
           Some(e.id), true, false)
  }

  /** The required fields: title, date, start time and location; the end time is optional. */
  predicate Complete(f: EventForm) {
    Truthy(f.title) && Truthy(f.date) && Truthy(f.startTime) && Truthy(f.locationId)
  }

  /**
   * The venue name stored with the event: "name (building)" of the bundled location whose id is
   * the form's location id, or the free-text venue details when no location has that id.
   */
  function VenueName(f: EventForm, locations: seq<Location>): (r: Option<string>)
    ensures var i := Seqs.FirstMatch(locations, (l: Location) => f.locationId == Some(l.id));
      (i.Some? ==> r == Some(locations[i.value].name + " (" + locations[i.value].building + ")")) &&
      (i.None? ==> r == f.venueDetails)
  {
    match Seqs.Find(locations, (l: Location) => f.locationId == Some(l.id))
    case Some(l) => Some(l.name + " (" + l.building + ")")
    case None => f.venueDetails
  }

  /**
   * `handleSave` up to the backend write. An incomplete form is rejected with a message. Otherwise
   * the payload carries the form with the derived venue name and the banner URL (the uploaded
   * file's URL when a file was uploaded, else the form's), and it updates the edited event when
   * there is one and inserts a new one otherwise.
   */
  function SaveRequest(ed: Editor, locations: seq<Location>, uploadedUrl: Option<string>): (r: Result<Write, string>)
    ensures r.Err? <==> !Complete(ed.form)
    ensures r.Err? ==> r.error == RequiredMessage
    ensures r.Ok? ==> (r.value.Update? <==> Truthy(ed.editingId))
    ensures r.Ok? && r.value.Update? ==> r.value.id == ed.editingId.value
    ensures r.Ok? ==> r.value.payload.venueName == VenueName(ed.form, locations)
    ensures r.Ok? ==> r.value.payload.bannerUrl == (if uploadedUrl.Some? then uploadedUrl else ed.form.bannerImage)
    ensures r.Ok? ==> var p := r.value.payload;
      p.title == ed.form.title && p.description == ed.form.description && p.date == ed.form.date &&
      p.startTime == ed.form.startTime && p.endTime == ed.form.endTime &&
      p.locationId == ed.form.locationId && p.category == ed.form.kind
  {
    if !Complete(ed.form) then Err(RequiredMessage)
    else
      var f := ed.form;
      var banner := if uploadedUrl.Some? then uploadedUrl else f.bannerImage;
      var payload := Payload(f.title, f.description, f.date, f.startTime, f.endTime, VenueName(f, locations),
                             f.locationId, f.kind, banner);
      if Truthy(ed.editingId) then Ok(Update(ed.editingId.value, payload)) else Ok(Insert(payload))
  }

  /** The end time never decides whether a save is accepted. */
  lemma EndTimeOptional(ed: Editor, locations: seq<Location>, uploadedUrl: Option<string>, endTime: Option<string>)
    ensures SaveRequest(ed, locations, uploadedUrl).Ok? ==
            SaveRequest(ed.(form := ed.form.(endTime := endTime)), locations, uploadedUrl).Ok?
  {
  }

  /** The toast of a successful write. */
  function SavedMessage(w: Write): string {
    if w.Update? then "Event Updated!" else "Event Created!"
  }

  /** After an accepted save, the toast is "Event Updated!" exactly when an event was being edited. */
  lemma SavedMessageNamesWrite(ed: Editor, locations: seq<Location>, uploadedUrl: Option<string>)
    requires SaveRequest(ed, locations, uploadedUrl).Ok?
    ensures SavedMessage(SaveRequest(ed, locations, uploadedUrl).value) ==
            (if Truthy(ed.editingId) then "Event Updated!" else "Event Created!")
  {
  }

  /** After the write: success closes and resets the editor; a failed upload or write leaves it as it was. */
  function AfterSave(ed: Editor, succeeded: bool): (r: Editor)
    ensures succeeded ==> r == Closed
    ensures !succeeded ==> r == ed
  {
    if succeeded then Closed else ed
  }

  /** `handleCancel`: close the editor, forget the edited id and the chosen file, and blank the form. */
  function Cancel(ed: Editor): (r: Editor)
    ensures !r.isAdding && r.editingId.None? && !r.hasFile
    ensures r.form == EmptyForm && r.form.kind == "academic"
  {
    Closed
  }

  /** Cancelling and a successful save leave the same blank editor, and the blank form cannot be saved. */
  lemma ResetIsBlank(ed: Editor, locations: seq<Location>, uploadedUrl: Option<string>)
    ensures Cancel(ed) == AfterSave(ed, true)
    ensures SaveRequest(Cancel(ed), locations, uploadedUrl) == Err(RequiredMessage)
  {
  }

  /** Editing a row and cancelling forgets the row entirely. */
  lemma EditThenCancel(e: EventRow, ed: Editor)
    ensures Cancel(HandleEdit(e)) == Cancel(ed)
  {
  }

  /** Saving an edited complete row updates that row, with the row's own fields in the payload. */
  lemma EditThenSaveUpdates(e: EventRow, locations: seq<Location>)
    requires e.id != "" && e.title != ""
    requires Truthy(e.date) && Truthy(e.startTime) && Truthy(e.locationId)
    ensures var r := SaveRequest(HandleEdit(e), locations, None);
      r.Ok? && r.value == Update(e.id, r.value.payload) && r.value.payload.title == Some(e.title) &&
      r.value.payload.category == OrElse(e.category, "academic") && r.value.payload.bannerUrl == e.bannerUrl
  {
  }
}
