/** The staff detail card (`StaffSearchResult`): avatar initials, the navigate button and the display fallbacks. */
module StaffSearchResult {
  import opened Wrappers
  import opened JsString
  import opened Records

  /**
   * `getInitials`: the upper-cased first characters of the space-separated words, at most two,
   * or `St` when that is empty (a missing name, an empty one, or one of spaces only).
   */
  function StaffInitials(name: Option<string>): (r: string)
    ensures 1 <= |r| <= 2
    ensures name.None? ==> r == "St"
    ensures name.Some? && (forall i :: 0 <= i < |name.value| ==> name.value[i] == ' ') ==> r == "St"
    ensures name.Some? && (exists i :: 0 <= i < |name.value| && name.value[i] != ' ') ==> r == WordInitials(name.value)
  {
    if name.None? then "St"
    else
      var w := WordInitials(name.value);
      if w == "" then "St" else w
  }

  /** For a name with a non-space character the first initial is its first non-space character, upper-cased. */
  lemma StaffInitialsFromName(name: string, c: nat)
    requires FirstNonSpace(name, c)
    ensures StaffInitials(Some(name))[0] == UpperChar(name[c])
  {
    WordInitialsFirst(name, c);
  }

  /** A two-word name shows the upper-cased first letters of both words. */
  lemma StaffInitialsTwoWords(first: string, rest: string)
    requires |first| > 0 && ' ' !in first
    requires |rest| > 0 && rest[0] != ' '
    ensures StaffInitials(Some(first + [' '] + rest)) == [UpperChar(first[0]), UpperChar(rest[0])]
  {
    WordInitialsTwoWords(first, rest);
  }

  /** The navigate button is disabled when there is no location and a coordinate is missing or zero. */
  function NavigateDisabled(hasLocation: bool, lat: Option<real>, lng: Option<real>): (r: bool)
    ensures !r <==> hasLocation || (TruthyNum(lat) && TruthyNum(lng))
  {
    !hasLocation && (!TruthyNum(lat) || !TruthyNum(lng))
  }

  /** The cabin panorama opens only when requested and the staff member has a panorama URL. */
  function ShowViewer(requested: bool, s: StaffRow): (r: bool)
    ensures r <==> requested && s.cabinPanorama.Some? && s.cabinPanorama.value != ""
  {
    requested && Truthy(s.cabinPanorama)
  }

  /** The department line, `General Staff` when there is none. */
  function DepartmentLabel(s: StaffRow): (r: string)
    ensures r != ""
    ensures Truthy(s.department) ==> r == s.department.value
    ensures s.department.None? || s.department == Some("") ==> r == "General Staff"
  {
    OrElse(s.department, "General Staff")
  }

  /** The cabin line, with its own fallback text. */
  function CabinLabel(s: StaffRow): (r: string)
    ensures r != ""
    ensures Truthy(s.cabinLocation) ==> r == s.cabinLocation.value
    ensures s.cabinLocation.None? || s.cabinLocation == Some("") ==> r == "Location Details Not Available"
  {
    OrElse(s.cabinLocation, "Location Details Not Available")
  }

  /** The availability line: one of exactly two texts, chosen by the flag. */
  function StatusText(s: StaffRow): (r: string)
    ensures r == "Currently Available" || r == "Busy / Out of Cabin"
    ensures (r == "Currently Available") == s.isAvailable
  {
    if s.isAvailable then "Currently Available" else "Busy / Out of Cabin"
  }
}
