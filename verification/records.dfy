/**
 * The rows the screens read from the backend tables and the bundled location list. A column that
 * may be empty (null or missing) is an Option; the screens test such columns for truthiness.
 */
module Records {
  import opened Wrappers

  /** A department, lab or other building entry of the bundled location list. */
  datatype Location = Location(id: string, name: string, building: string, lat: real, lng: real, panorama: Option<string>)

  /**
   * A row of the `staff` table as the shell keeps it. `locationId` is the camel-case field the
   * search handler reads; the fetch sets it to the row's own id, and the model keeps it a field of
   * its own so that lemmas state that link as a precondition where they rely on it.
   */
  datatype StaffRow = StaffRow(
    id: string, name: string, role: Option<string>, department: Option<string>,
    cabinLocation: Option<string>, email: Option<string>, imageUrl: Option<string>,
    cabinPanorama: Option<string>, lat: Option<real>, lng: Option<real>, isAvailable: bool,
    locationId: Option<string>)

  /** A row of the `events` table. */
  datatype EventRow = EventRow(
    id: string, title: string, description: Option<string>, date: Option<string>,
    startTime: Option<string>, endTime: Option<string>, locationId: Option<string>,
    category: Option<string>, bannerUrl: Option<string>, venueName: Option<string>,
    venuePanorama: Option<string>, lat: Option<real>, lng: Option<real>)

  /** A number is truthy when present and non-zero. */
  predicate TruthyNum(x: Option<real>) {
    x.Some? && x.value != 0.0
  }

  /** `x || 0` for a number column. */
  function NumOrZero(x: Option<real>): (r: real)
    ensures TruthyNum(x) ==> r == x.value
    ensures !TruthyNum(x) ==> r == 0.0
  {
    if TruthyNum(x) then x.value else 0.0
  }
}
