/** The student profile card (`UserProfile`): avatar initials and field fallbacks. */
module UserProfile {
  import opened Wrappers
  import opened JsString

  /** The profile row; every column may be missing, and so may the row itself. */
  datatype Profile = Profile(fullName: Option<string>, rollNo: Option<string>, department: Option<string>, year: Option<string>)

  /** The text the avatar is built from: the profile's full name, else the session's email. */
  function InitialsSource(profile: Option<Profile>, email: Option<string>): (r: Option<string>)
    ensures profile.Some? && Truthy(profile.value.fullName) ==> r == profile.value.fullName
    ensures !(profile.Some? && Truthy(profile.value.fullName)) ==> r == email
  {
    if profile.Some? && Truthy(profile.value.fullName) then profile.value.fullName else email
  }

  /**
   * `getInitials`: `U` for a missing or empty name, otherwise the upper-cased first characters of
   * the space-separated words, at most two (empty for a name of spaces only).
   */
  function ProfileInitials(name: Option<string>): (r: string)
    ensures !Truthy(name) ==> r == "U"
    ensures Truthy(name) ==> r == WordInitials(name.value)
    ensures |r| <= 2
  {
    if Truthy(name) then WordInitials(name.value) else "U"
  }

  /** Unlike the staff card, a name of spaces only gives an empty avatar rather than the fallback. */
  lemma BlankNameGivesEmptyInitials(name: string)
    requires name != "" && forall i :: 0 <= i < |name| ==> name[i] == ' '
    ensures ProfileInitials(Some(name)) == ""
  {
  }

  /** A missing profile falls back to the email's initials, and a missing email too gives `U`. */
  lemma InitialsWithoutProfile(email: Option<string>)
    ensures ProfileInitials(InitialsSource(None, email)) == (if Truthy(email) then WordInitials(email.value) else "U")
  {
  }

  /** The heading: the full name, or `Student`. */
  function DisplayName(profile: Option<Profile>): (r: string)
    ensures r != ""
    ensures profile.Some? && Truthy(profile.value.fullName) ==> r == profile.value.fullName.value
    ensures !(profile.Some? && Truthy(profile.value.fullName)) ==> r == "Student"
  {
    if profile.Some? then OrElse(profile.value.fullName, "Student") else "Student"
  }

  /** A detail field: its value, or `Not set` when missing or empty. */
  function FieldOrNotSet(field: Option<string>): (r: string)
    ensures r != ""
    ensures Truthy(field) ==> r == field.value
    ensures !Truthy(field) ==> r == "Not set"
  {
    OrElse(field, "Not set")
  }

  /** The three detail lines: roll number, department and year, each with the `Not set` fallback. */
  function DetailLines(profile: Option<Profile>): (r: seq<string>)
    ensures |r| == 3
    ensures profile.None? ==> r == ["Not set", "Not set", "Not set"]
    ensures profile.Some? ==> r == [FieldOrNotSet(profile.value.rollNo), FieldOrNotSet(profile.value.department), FieldOrNotSet(profile.value.year)]
  {
    match profile
    case None => ["Not set", "Not set", "Not set"]
    case Some(p) => [FieldOrNotSet(p.rollNo), FieldOrNotSet(p.department), FieldOrNotSet(p.year)]
  }
}
