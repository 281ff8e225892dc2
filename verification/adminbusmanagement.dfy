/** The bus route editor of the admin console (`AdminBusManagement`): adding routes and cycling their status. */
module AdminBusManagement {
  import opened Wrappers

  /** The route form. */
  datatype RouteForm = RouteForm(routeName: string, busNumber: string, driverName: string, departureTime: string)

  const EmptyRouteForm := RouteForm("", "", "", "")

  /** The `bus_routes` row an add inserts. */
  datatype NewRoute = NewRoute(routeName: string, busNumber: string, driverName: string, departureTime: string,
                               status: string, stops: seq<string>)

  const RequiredMessage := "Fill required fields"

  /** The three statuses in the order the toggle button walks through them. */
  const StatusCycle: seq<string> := ["on_time", "delayed", "cancelled"]

  /** `toggleStatus`: on_time becomes delayed, delayed becomes cancelled, anything else becomes on_time. */
  function ToggleStatus(status: string): (r: string)
    ensures r in StatusCycle
    ensures status !in StatusCycle ==> r == "on_time"
  {
    if status == "on_time" then "delayed" else if status == "delayed" then "cancelled" else "on_time"
  }

  /** The toggle is the cycle step: for each index i of the cycle, status i becomes status (i + 1) mod 3. */
  lemma ToggleIsCycleStep(i: nat)
    requires i < 3
    ensures ToggleStatus(StatusCycle[i]) == StatusCycle[(i + 1) % 3]
  {
    assert StatusCycle[0] != StatusCycle[1] && StatusCycle[1] != StatusCycle[2] && StatusCycle[0] != StatusCycle[2];
  }

  /** Applying the toggle `n` times. */
  function ToggleTimes(status: string, n: nat): string
    decreases n
  {
    if n == 0 then status else ToggleTimes(ToggleStatus(status), n - 1)
  }

  /** Three toggles return a known status to itself, and the cycle has no shorter period. */
  lemma ToggleHasPeriodThree(status: string)
    requires status in StatusCycle
    ensures ToggleTimes(status, 3) == status
    ensures ToggleTimes(status, 1) != status && ToggleTimes(status, 2) != status
  {
  }

  /** From an unknown status, one toggle reaches on_time and the cycle continues from there. */
  lemma ToggleUnknownRestarts(status: string, n: nat)
    requires status !in StatusCycle
    ensures ToggleTimes(status, n + 1) == ToggleTimes("on_time", n)
  {
  }

  /**
   * `handleAddRoute` up to the insert: route name, bus number and departure time are required
   * (the driver name is optional); the new route starts on time with no stops.
   */
  function AddRoute(f: RouteForm): (r: Result<NewRoute, string>)
    ensures r.Err? <==> f.routeName == "" || f.busNumber == "" || f.departureTime == ""
    ensures r.Err? ==> r.error == RequiredMessage
    ensures r.Ok? ==> r.value.status == "on_time" && r.value.stops == []
    ensures r.Ok? ==> r.value.routeName == f.routeName && r.value.busNumber == f.busNumber &&
                      r.value.driverName == f.driverName && r.value.departureTime == f.departureTime
  {
    if f.routeName == "" || f.busNumber == "" || f.departureTime == "" then Err(RequiredMessage)
    else Ok(NewRoute(f.routeName, f.busNumber, f.driverName, f.departureTime, "on_time", []))
  }

  /** The form after the insert: cleared only when the insert succeeded. */
  function AfterAdd(f: RouteForm, succeeded: bool): (r: RouteForm)
    ensures succeeded ==> r == EmptyRouteForm
    ensures !succeeded ==> r == f
  {
    if succeeded then EmptyRouteForm else f
  }

  /** A cleared form cannot be submitted again, and the driver name never decides acceptance. */
  lemma ClearedFormRejected(f: RouteForm, driver: string)
    ensures AddRoute(AfterAdd(f, true)) == Err(RequiredMessage)
    ensures AddRoute(f).Ok? == AddRoute(f.(driverName := driver)).Ok?
  {
  }
}
