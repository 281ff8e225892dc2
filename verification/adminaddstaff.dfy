/**
 * The staff directory editor of the admin console (`AdminAddStaff`): the form, save validation,
 * the choice between insert and update, and the availability toggle on the listed rows.
 */
module AdminAddStaff {
  import opened Wrappers
  import opened JsString
  import opened Records

  /** The editor form. `name` and `role` are copied verbatim from a row, so the role may be missing. */
  datatype StaffForm = StaffForm(
    id: string, name: string, role: Option<string>, department: string, cabinLocation: string,
    email: string, imageUrl: string, cabinPanorama: string, lat: real, lng: real, isAvailable: bool)

  /** `resetForm`: empty text, zero coordinates, available. */
  const BlankForm := StaffForm("", "", Some(""), "", "", "", "", "", 0.0, 0.0, true)

  /** The editor: the form, whether it is open, and whether image files are waiting to upload. */
  datatype Editor = Editor(form: StaffForm, isEditing: bool, profileFile: bool, panoFile: bool)

  /** The `staff` columns a save writes; the id is never among them. */
  datatype StaffPayload = StaffPayload(
    name: string, role: Option<string>, department: string, cabinLocation: string, email: string,
    imageUrl: string, cabinPanorama: string, lat: real, lng: real, isAvailable: bool)

  /** The write a save issues. */
  datatype Write = Insert(payload: StaffPayload) | Update(id: string, payload: StaffPayload)

  const RequiredMessage := "Name and Role are required."

  /**
   * `handleSave` up to the write. Name and role are required. The payload is the form without its
   * id, with the uploaded images' URLs in place of the form's when files were uploaded. A non-empty
   * form id updates that row; an empty one inserts a new row.
   */
  function SaveRequest(f: StaffForm, profileUrl: Option<string>, panoUrl: Option<string>): (r: Result<Write, string>)
    ensures r.Err? <==> f.name == "" || !Truthy(f.role)
    ensures r.Err? ==> r.error == RequiredMessage
    ensures r.Ok? ==> (r.value.Update? <==> f.id != "")
    ensures r.Ok? && r.value.Update? ==> r.value.id == f.id
    ensures r.Ok? ==> r.value.payload.imageUrl == (if profileUrl.Some? then profileUrl.value else f.imageUrl)
    ensures r.Ok? ==> r.value.payload.cabinPanorama == (if panoUrl.Some? then panoUrl.value else f.cabinPanorama)
    ensures r.Ok? ==> var p := r.value.payload;
      p.name == f.name && p.role == f.role && p.department == f.department && p.cabinLocation == f.cabinLocation &&
      p.email == f.email && p.lat == f.lat && p.lng == f.lng && p.isAvailable == f.isAvailable
  {
    if f.name == "" || !Truthy(f.role) then Err(RequiredMessage)
    else
      var payload := StaffPayload(f.name, f.role, f.department, f.cabinLocation, f.email,
                                  if profileUrl.Some? then profileUrl.value else f.imageUrl,
                                  if panoUrl.Some? then panoUrl.value else f.cabinPanorama,
                                  f.lat, f.lng, f.isAvailable);
      if f.id != "" then Ok(Update(f.id, payload)) else Ok(Insert(payload))
  }

  /** The payload does not depend on the form's id: two forms differing only in id write the same columns. */
  lemma PayloadIgnoresId(f: StaffForm, id: string, profileUrl: Option<string>, panoUrl: Option<string>)
    requires SaveRequest(f, profileUrl, panoUrl).Ok?
    ensures SaveRequest(f.(id := id), profileUrl, panoUrl).Ok?
    ensures SaveRequest(f.(id := id), profileUrl, panoUrl).value.payload == SaveRequest(f, profileUrl, panoUrl).value.payload
  {
  }

  /** The success toast names what the write did. */
  function SavedMessage(f: StaffForm): string {
    if f.id != "" then "Profile Updated" else "Staff Member Added"
  }

  /** After an accepted save, the toast says "Profile Updated" exactly for an update and "Staff Member Added" for an insert. */
  lemma SavedMessageNamesWrite(f: StaffForm, profileUrl: Option<string>, panoUrl: Option<string>)
    requires SaveRequest(f, profileUrl, panoUrl).Ok?
    ensures SaveRequest(f, profileUrl, panoUrl).value.Update? <==> SavedMessage(f) == "Profile Updated"
    ensures SaveRequest(f, profileUrl, panoUrl).value.Insert? <==> SavedMessage(f) == "Staff Member Added"
  {
  }

  /** `startEdit`: load a row (missing text as '', missing or zero coordinates as 0), or a blank form; then open the editor. */
  function StartEdit(ed: Editor, staff: Option<StaffRow>): (r: Editor)
    ensures r.isEditing
    ensures staff.None? ==> r.form == BlankForm && !r.profileFile && !r.panoFile
    ensures staff.Some? ==> r.profileFile == ed.profileFile && r.panoFile == ed.panoFile
    ensures staff.Some? ==> var s := staff.value;
      r.form.id == s.id && r.form.name == s.name && r.form.role == s.role &&
      r.form.department == OrElse(s.department, "") && r.form.cabinLocation == OrElse(s.cabinLocation, "") &&
      r.form.email == OrElse(s.email, "") && r.form.imageUrl == OrElse(s.imageUrl, "") &&
      r.form.cabinPanorama == OrElse(s.cabinPanorama, "") &&
      r.form.lat == NumOrZero(s.lat) && r.form.lng == NumOrZero(s.lng) && r.form.isAvailable == s.isAvailable
  {
    match staff
    case None => ResetForm(ed).(isEditing := true)
    case Some(s) =>
      Editor(StaffForm(s.id, s.name, s.role, OrElse(s.department, ""), OrElse(s.cabinLocation, ""),
                       OrElse(s.email, ""), OrElse(s.imageUrl, ""), OrElse(s.cabinPanorama, ""),
                       NumOrZero(s.lat), NumOrZero(s.lng), s.isAvailable),
             true, ed.profileFile, ed.panoFile)
  }

  /** `resetForm`: the blank form, with the chosen files forgotten. */
  function ResetForm(ed: Editor): (r: Editor)
    ensures r.form.id == "" && r.form.name == "" && r.form.lat == 0.0 && r.form.lng == 0.0 && r.form.isAvailable
    ensures !r.profileFile && !r.panoFile && r.isEditing == ed.isEditing
  {
    ed.(form := BlankForm, profileFile := false, panoFile := false)
  }

  /** After the write: success closes the editor and resets the form; a failure leaves everything as it was. */
  function AfterSave(ed: Editor, succeeded: bool): (r: Editor)
    ensures succeeded ==> !r.isEditing && r.form == BlankForm
    ensures !succeeded ==> r == ed
  {
    if succeeded then ResetForm(ed).(isEditing := false) else ed
  }

  /** A saved row that is edited again is saved back to the same row, with its own id. */
  lemma EditThenSaveUpdatesRow(ed: Editor, s: StaffRow)
    requires s.id != "" && s.name != "" && Truthy(s.role)
    ensures var r := SaveRequest(StartEdit(ed, Some(s)).form, None, None);
      r.Ok? && r.value.Update? && r.value.id == s.id && r.value.payload.isAvailable == s.isAvailable
  {
  }

  /** A new entry (no row) is inserted, and the blank form is rejected until name and role are typed. */
  lemma NewEntryInserts(ed: Editor, name: string, role: string)
    requires name != "" && role != ""
    ensures SaveRequest(StartEdit(ed, None).form, None, None).Err?
    ensures SaveRequest(StartEdit(ed, None).form.(name := name, role := Some(role)), None, None).Ok?
    ensures SaveRequest(StartEdit(ed, None).form.(name := name, role := Some(role)), None, None).value.Insert?
  {
  }

  /**
   * `toggleAvailability` after the backend accepted it: every listed row with the toggled row's
   * id gets the opposite of that row's availability; all other rows, and the order, are unchanged.
   */
  function ToggleAvailability(list: seq<StaffRow>, staff: StaffRow, succeeded: bool): (r: seq<StaffRow>)
    ensures |r| == |list|
    ensures !succeeded ==> r == list
    ensures succeeded ==> forall i :: 0 <= i < |list| && list[i].id != staff.id ==> r[i] == list[i]
    ensures succeeded ==> forall i :: 0 <= i < |list| && list[i].id == staff.id ==>
      r[i] == list[i].(isAvailable := !staff.isAvailable)
  {
    if !succeeded then list
    else
      seq(|list|, i requires 0 <= i < |list| =>
            if list[i].id == staff.id then list[i].(isAvailable := !staff.isAvailable) else list[i])
  }

  /** Toggling a listed row twice (the second time with its updated state) restores the list. */
  lemma ToggleTwiceRestores(list: seq<StaffRow>, k: nat)
    requires k < |list|
    requires forall i :: 0 <= i < |list| && list[i].id == list[k].id ==> list[i].isAvailable == list[k].isAvailable
    ensures var once := ToggleAvailability(list, list[k], true);
      ToggleAvailability(once, once[k], true) == list
  {
    var once := ToggleAvailability(list, list[k], true);
    var twice := ToggleAvailability(once, once[k], true);
    assert forall i :: 0 <= i < |list| ==> twice[i] == list[i];
  }

  /** The toast after a toggle, naming the new state. */
  function ToggleMessage(staff: StaffRow): string {
    if !staff.isAvailable then "Marked as Available" else "Marked as Busy"
  }

  /** The toast names the state a successful toggle leaves the toggled row in. */
  lemma ToggleMessageNamesNewState(list: seq<StaffRow>, staff: StaffRow, k: nat)
    requires k < |list| && list[k].id == staff.id
    ensures var row := ToggleAvailability(list, staff, true)[k];
      ToggleMessage(staff) == (if row.isAvailable then "Marked as Available" else "Marked as Busy")
  {
  }
}
