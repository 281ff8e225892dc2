/**
 * The navigation screen (`ActiveNavigation`): the merged panorama table, the destination and
 * street-view panoramas, the route distance and walking time, and the map recentering decision.
 * The route itself comes from a path finder that is not part of this model, so it is an input.
 */
module ActiveNavigation {
  import opened Wrappers
  import opened JsString
  import Seqs
  import opened JsMath

  /** A map coordinate. */
  datatype Point = Point(lat: real, lng: real)

  /**
   * A JavaScript object with string values: its keys in enumeration order and their bindings.
   * Keys of the form "lat,lng" are never array indices, so enumeration order is insertion order.
   */
  datatype Table = Table(order: seq<string>, values: map<string, string>)
  {
    ghost predicate Valid() {
      Seqs.Distinct(order) && values.Keys == set k | k in order
    }
  }

  const EmptyTable := Table([], map[])

  /** `obj[k] = v`: a new key goes to the end of the enumeration order, an existing one keeps its place. */
  function Assign(t: Table, k: string, v: string): Table {
    if k in t.values then Table(t.order, t.values[k := v]) else Table(t.order + [k], t.values[k := v])
  }

  /** The keys of `keys` that are not in `present`, in order. */
  function NewKeys(keys: seq<string>, present: set<string>): (r: seq<string>)
    ensures forall k :: k in r <==> k in keys && k !in present
  {
    if |keys| == 0 then []
    else (if keys[0] in present then [] else [keys[0]]) + NewKeys(keys[1..], present)
  }

  /** Copying the bindings of `keys` (taken from `vals`) into `t` one by one, as an object spread does. */
  function SpreadKeys(t: Table, keys: seq<string>, vals: map<string, string>): Table
    requires forall i :: 0 <= i < |keys| ==> keys[i] in vals
    decreases |keys|
  {
    if |keys| == 0 then t else SpreadKeys(Assign(t, keys[0], vals[keys[0]]), keys[1..], vals)
  }

  /** The bindings of `vals` restricted to `keys`. */
  function Restrict(vals: map<string, string>, keys: seq<string>): map<string, string>
    requires forall i :: 0 <= i < |keys| ==> keys[i] in vals
  {
    map k | k in keys :: vals[k]
  }

  lemma AssignValid(t: Table, k: string, v: string)
    requires t.Valid()
    ensures Assign(t, k, v).Valid()
  {
    var r := Assign(t, k, v);
    if k !in t.values {
      assert forall i :: 0 <= i < |t.order| ==> t.order[i] in t.values;
      assert r.values.Keys == set x | x in r.order;
    }
  }

  /** A key outside `keys` changes nothing about which keys are new. */
  lemma {:induction false} NewKeysIgnores(keys: seq<string>, present: set<string>, k: string)
    requires k !in keys
    ensures NewKeys(keys, present + {k}) == NewKeys(keys, present)
  {
    if |keys| > 0 {
      NewKeysIgnores(keys[1..], present, k);
    }
  }

  /** Spreading keys into a valid table keeps it valid. */
  lemma {:induction false} SpreadKeysValid(t: Table, keys: seq<string>, vals: map<string, string>)
    requires t.Valid()
    requires forall i :: 0 <= i < |keys| ==> keys[i] in vals
    ensures SpreadKeys(t, keys, vals).Valid()
    decreases |keys|
  {
    if |keys| > 0 {
      AssignValid(t, keys[0], vals[keys[0]]);
      SpreadKeysValid(Assign(t, keys[0], vals[keys[0]]), keys[1..], vals);
    }
  }

  /** Spreading binds every spread key to its new value and leaves every other key's binding alone. */
  lemma {:induction false} SpreadKeysValues(t: Table, keys: seq<string>, vals: map<string, string>)
    requires forall i :: 0 <= i < |keys| ==> keys[i] in vals
    ensures SpreadKeys(t, keys, vals).values == t.values + Restrict(vals, keys)
    decreases |keys|
  {
    if |keys| > 0 {
      var k := keys[0];
      var t1 := Assign(t, k, vals[k]);
      SpreadKeysValues(t1, keys[1..], vals);
      RestrictCons(vals, keys);
      assert t1.values == t.values[k := vals[k]];
      OverrideStep(t.values, k, vals[k], Restrict(vals, keys[1..]), Restrict(vals, keys));
    }
  }

  /** Assigning `k` and then overriding with `m1` is overriding with `m1` plus `k`'s binding. */
  lemma OverrideStep(base: map<string, string>, k: string, v: string, m1: map<string, string>, m: map<string, string>)
    requires m.Keys == m1.Keys + {k} && m[k] == v
    requires forall x :: x in m1 ==> m1[x] == m[x]
    ensures base[k := v] + m1 == base + m
  {
    var lhs := base[k := v] + m1;
    var rhs := base + m;
    assert lhs.Keys == rhs.Keys;
    forall x | x in lhs
      ensures lhs[x] == rhs[x]
    {
    }
  }

  /** Restricting to `k :: rest` is restricting to `rest` and adding `k`'s binding. */
  lemma RestrictCons(vals: map<string, string>, keys: seq<string>)
    requires |keys| > 0
    requires forall i :: 0 <= i < |keys| ==> keys[i] in vals
    ensures Restrict(vals, keys).Keys == Restrict(vals, keys[1..]).Keys + {keys[0]}
    ensures Restrict(vals, keys)[keys[0]] == vals[keys[0]]
    ensures forall x :: x in Restrict(vals, keys[1..]) ==> Restrict(vals, keys[1..])[x] == Restrict(vals, keys)[x]
  {
    assert keys == [keys[0]] + keys[1..];
  }

  /** Spreading distinct keys appends exactly the keys not already present, in their order. */
  lemma {:induction false} SpreadKeysOrder(t: Table, keys: seq<string>, vals: map<string, string>)
    requires Seqs.Distinct(keys)
    requires forall i :: 0 <= i < |keys| ==> keys[i] in vals
    ensures SpreadKeys(t, keys, vals).order == t.order + NewKeys(keys, t.values.Keys)
    decreases |keys|
  {
    if |keys| > 0 {
      var k := keys[0];
      var t1 := Assign(t, k, vals[k]);
      Seqs.DistinctTail(keys);
      SpreadKeysOrder(t1, keys[1..], vals);
      AssignOrder(t, k, vals[k]);
      NewKeysIgnores(keys[1..], t.values.Keys, k);
      ConcatAssoc(t.order, if k in t.values then [] else [k], NewKeys(keys[1..], t.values.Keys));
    }
  }

  /** An assignment appends the key exactly when it is new. */
  lemma AssignOrder(t: Table, k: string, v: string)
    ensures Assign(t, k, v).order == t.order + (if k in t.values then [] else [k])
    ensures Assign(t, k, v).values.Keys == t.values.Keys + {k}
  {
  }

  lemma ConcatAssoc(a: seq<string>, b: seq<string>, c: seq<string>)
    ensures (a + b) + c == a + (b + c)
  {
  }

  /** A valid table's bindings restricted to its own keys are all of its bindings. */
  lemma RestrictOwn(t: Table)
    requires t.Valid()
    ensures forall i :: 0 <= i < |t.order| ==> t.order[i] in t.values
    ensures Restrict(t.values, t.order) == t.values
  {
    assert forall i :: 0 <= i < |t.order| ==> t.order[i] in t.values;
  }

  /**
   * `{ ...remote, ...local }`: the cached panoramas override the built-in ones. A key of the cache
   * maps to the cached value, every other built-in key keeps its value, and the enumeration order is
   * the built-in keys followed by the cache's new keys.
   */
  function Merge(remote: Table, local: Table): (r: Table)
    requires remote.Valid() && local.Valid()
    ensures r.Valid()
    ensures r.values.Keys == remote.values.Keys + local.values.Keys
    ensures forall k :: k in local.values ==> r.values[k] == local.values[k]
    ensures forall k :: k in remote.values && k !in local.values ==> r.values[k] == remote.values[k]
    ensures r.order == remote.order + NewKeys(local.order, remote.values.Keys)
  {
    RestrictOwn(remote);
    RestrictOwn(local);
    MergeFacts(remote, local);
    SpreadKeys(SpreadKeys(EmptyTable, remote.order, remote.values), local.order, local.values)
  }

  /** The two spreads of `Merge`, one after the other. */
  lemma MergeFacts(remote: Table, local: Table)
    requires remote.Valid() && local.Valid()
    ensures forall i :: 0 <= i < |remote.order| ==> remote.order[i] in remote.values
    ensures forall i :: 0 <= i < |local.order| ==> local.order[i] in local.values
    ensures var r := SpreadKeys(SpreadKeys(EmptyTable, remote.order, remote.values), local.order, local.values);
      r.Valid() && r.values == remote.values + local.values &&
      r.order == remote.order + NewKeys(local.order, remote.values.Keys)
  {
    RestrictOwn(remote);
    RestrictOwn(local);
    var base := SpreadKeys(EmptyTable, remote.order, remote.values);
    SpreadIntoEmpty(remote);
    SpreadKeysValid(base, local.order, local.values);
    SpreadKeysValues(base, local.order, local.values);
    SpreadKeysOrder(base, local.order, local.values);
  }

  /** Spreading a valid table into an empty object copies it exactly. */
  lemma SpreadIntoEmpty(t: Table)
    requires t.Valid()
    ensures forall i :: 0 <= i < |t.order| ==> t.order[i] in t.values
    ensures SpreadKeys(EmptyTable, t.order, t.values) == t
  {
    RestrictOwn(t);
    var base := SpreadKeys(EmptyTable, t.order, t.values);
    SpreadKeysValues(EmptyTable, t.order, t.values);
    SpreadKeysOrder(EmptyTable, t.order, t.values);
    NewKeysNone(t.order);
    EmptyUnion(t.values);
    assert base.values == map[] + t.values;
    assert EmptyTable.values.Keys == {};
    assert base.order == [] + NewKeys(t.order, {});
  }

  lemma EmptyUnion(m: map<string, string>)
    ensures map[] + m == m
  {
  }

  lemma {:induction false} NewKeysNone(keys: seq<string>)
    ensures NewKeys(keys, {}) == keys
  {
    if |keys| > 0 {
      NewKeysNone(keys[1..]);
      assert keys == [keys[0]] + keys[1..];
    }
  }

  // ---------------------------------------------------------------------------------------------
  // Destination panorama (the purple eye)

  /** `table[k]` is truthy: the key is bound to a non-empty URL. */
  predicate Bound(t: Table, k: string) {
    k in t.values && t.values[k] != ""
  }

  /**
   * The destination panorama: the event's binding when the event id is set and bound, else the
   * staff member's binding when that id is set and bound, else the destination's own binding,
   * else nothing. A set but unbound id falls through to the next candidate.
   */
  function DestinationPanorama(t: Table, eventId: Option<string>, staffId: Option<string>, destId: string): (r: Option<string>)
    ensures r.Some? ==> r.value != ""
    ensures Truthy(eventId) && Bound(t, eventId.value) ==> r == Some(t.values[eventId.value])
    ensures !(Truthy(eventId) && Bound(t, eventId.value)) && Truthy(staffId) && Bound(t, staffId.value) ==>
      r == Some(t.values[staffId.value])
    ensures !(Truthy(eventId) && Bound(t, eventId.value)) && !(Truthy(staffId) && Bound(t, staffId.value)) ==>
      r == (if Bound(t, destId) then Some(t.values[destId]) else None)
  {
    if Truthy(eventId) && Bound(t, eventId.value) then Some(t.values[eventId.value])
    else if Truthy(staffId) && Bound(t, staffId.value) then Some(t.values[staffId.value])
    else if Bound(t, destId) then Some(t.values[destId])
    else None
  }

  /** The keys the destination lookup tries, in priority order: the ids that are set, then the destination id. */
  function Candidates(eventId: Option<string>, staffId: Option<string>, destId: string): seq<string> {
    (if Truthy(eventId) then [eventId.value] else []) + (if Truthy(staffId) then [staffId.value] else []) + [destId]
  }

  /** The destination panorama is the binding of the first candidate key that is bound. */
  lemma DestinationPanoramaFirstBound(t: Table, eventId: Option<string>, staffId: Option<string>, destId: string)
    ensures var c := Candidates(eventId, staffId, destId);
      var i := Seqs.FirstMatch(c, k => Bound(t, k));
      DestinationPanorama(t, eventId, staffId, destId) == (if i.Some? then Some(t.values[c[i.value]]) else None)
  {
    var c := Candidates(eventId, staffId, destId);
    var p := k => Bound(t, k);
    var i := Seqs.FirstMatch(c, p);
    if Truthy(eventId) && Bound(t, eventId.value) {
      assert p(c[0]);
      assert i == Some(0);
    } else if Truthy(staffId) && Bound(t, staffId.value) {
      var j := if Truthy(eventId) then 1 else 0;
      assert c[j] == staffId.value && p(c[j]);
      assert forall m :: 0 <= m < j ==> !p(c[m]);
      assert i == Some(j);
    } else {
      assert forall m :: 0 <= m < |c| - 1 ==> !p(c[m]);
      assert c[|c| - 1] == destId;
    }
  }

  // ---------------------------------------------------------------------------------------------
  // Street-view panorama (the blue eye)

  /**
   * A key triggers the street view when it contains a comma and the point it names lies strictly
   * less than 70 metres from the user. `near(k)` is that distance. It is None when a coordinate of
   * the key is not a number; Leaflet then throws and the whole effect stops, which the model does
   * not follow: it treats such a key as one that does not trigger.
   */
  predicate Triggers(k: string, near: string -> Option<real>) {
    Includes(k, ",") && near(k).Some? && near(k).value < 70.0
  }

  /** Index of the last triggering key, or None. */
  function LastTrigger(keys: seq<string>, near: string -> Option<real>): (r: Option<nat>)
    ensures r.None? <==> forall i :: 0 <= i < |keys| ==> !Triggers(keys[i], near)
    ensures r.Some? ==> r.value < |keys| && Triggers(keys[r.value], near)
    ensures r.Some? ==> forall j :: r.value < j < |keys| ==> !Triggers(keys[j], near)
    decreases |keys|
  {
    if |keys| == 0 then None
    else if Triggers(keys[|keys| - 1], near) then Some(|keys| - 1)
    else LastTrigger(keys[..|keys| - 1], near)
  }

  /** `v` is the binding of a triggering key after which no key in the order triggers. */
  predicate LastTriggerBinding(t: Table, near: string -> Option<real>, v: string)
    requires t.Valid()
  {
    RestrictOwn(t);
    exists i :: 0 <= i < |t.order| && Triggers(t.order[i], near) && v == t.values[t.order[i]] &&
                forall j :: i < j < |t.order| ==> !Triggers(t.order[j], near)
  }

  /** The binding of the key at the index `LastTrigger` found. */
  function TurnPanorama(t: Table, near: string -> Option<real>): (r: Option<string>)
    requires t.Valid()
    ensures r.None? <==> forall i :: 0 <= i < |t.order| ==> !Triggers(t.order[i], near)
    ensures r.Some? ==> LastTriggerBinding(t, near, r.value)
  {
    match LastTrigger(t.order, near)
    case None => None
    case Some(i) => RestrictOwn(t); Some(t.values[t.order[i]])
  }

  /**
   * The `forEach` scan over the table's keys: every triggering key overwrites the result, so the
   * last triggering key in enumeration order wins, even when its URL is empty.
   */
  method ScanWaypoints(t: Table, near: string -> Option<real>) returns (found: Option<string>)
    requires t.Valid()
    ensures found.None? <==> forall i :: 0 <= i < |t.order| ==> !Triggers(t.order[i], near)
    ensures found.Some? ==> LastTriggerBinding(t, near, found.value)
    ensures found == TurnPanorama(t, near)
  {
    RestrictOwn(t);
    found := None;
    var last: Option<nat> := None;
    var i := 0;
    while i < |t.order|
      invariant 0 <= i <= |t.order|
      invariant last == LastTrigger(t.order[..i], near)
      invariant found == (if last.Some? then Some(t.values[t.order[last.value]]) else None)
    {
      var key := t.order[i];
      assert t.order[..i + 1][..i] == t.order[..i];
      if Includes(key, ",") {
        var dist := near(key);
        if dist.Some? && dist.value < 70.0 {
          found := Some(t.values[key]);
          last := Some(i);
        }
      }
      i := i + 1;
    }
    assert t.order[..i] == t.order;
    if found.Some? {
      assert Triggers(t.order[last.value], near);
    }
  }

  // ---------------------------------------------------------------------------------------------
  // Distance and walking time

  /** The route length: the sum of the distances of consecutive legs (0 for fewer than two points). */
  function RouteLength(path: seq<Point>, leg: (Point, Point) -> real): real
    decreases |path|
  {
    if |path| < 2 then 0.0
    else RouteLength(path[..|path| - 1], leg) + leg(path[|path| - 2], path[|path| - 1])
  }

  /** The distance loop: it adds the leg from each point to the next one. */
  method TotalDistance(path: seq<Point>, leg: (Point, Point) -> real) returns (total: real)
    ensures total == RouteLength(path, leg)
    ensures |path| <= 1 ==> total == 0.0
  {
    total := 0.0;
    var i := 0;
    while i < |path| - 1
      invariant 0 <= i && (|path| == 0 ==> i == 0) && (|path| > 0 ==> i <= |path| - 1)
      invariant |path| > 0 ==> total == RouteLength(path[..i + 1], leg)
      invariant |path| == 0 ==> total == 0.0
    {
      assert path[..i + 2][..i + 1] == path[..i + 1];
      total := total + leg(path[i], path[i + 1]);
      i := i + 1;
    }
    if |path| > 0 {
      assert path[..i + 1] == path;
    }
  }

  /** A route whose legs are non-negative has a non-negative length. */
  lemma {:induction false} RouteLengthNonNegative(path: seq<Point>, leg: (Point, Point) -> real)
    requires forall a, b :: leg(a, b) >= 0.0
    ensures RouteLength(path, leg) >= 0.0
    decreases |path|
  {
    if |path| >= 2 {
      RouteLengthNonNegative(path[..|path| - 1], leg);
    }
  }

  /**
   * When the leg distance obeys the triangle inequality, a route is never shorter than the
   * straight leg from its first point to its last.
   */
  lemma {:induction false} RouteLengthTriangle(path: seq<Point>, leg: (Point, Point) -> real)
    requires forall a :: leg(a, a) == 0.0
    requires forall a, b, c :: leg(a, c) <= leg(a, b) + leg(b, c)
    requires |path| >= 1
    ensures RouteLength(path, leg) >= leg(path[0], path[|path| - 1])
    decreases |path|
  {
    if |path| >= 2 {
      var init := path[..|path| - 1];
      RouteLengthTriangle(init, leg);
      assert init[0] == path[0] && init[|init| - 1] == path[|path| - 2];
      assert leg(path[0], path[|path| - 1]) <= leg(path[0], path[|path| - 2]) + leg(path[|path| - 2], path[|path| - 1]);
    }
  }

  /** `Math.ceil(distance / 80)`: whole minutes at 80 metres per minute, rounded up. */
  function Eta(distance: int): (r: int)
    ensures 80 * (r - 1) < distance <= 80 * r
  {
    -((-distance) / 80)
  }

  /** The walking times quoted for 240, 241 and 0 metres. */
  lemma EtaExamples()
    ensures Eta(240) == 3 && Eta(241) == 4 && Eta(0) == 0 && Eta(80) == 1 && Eta(1) == 1
  {
  }

  // ---------------------------------------------------------------------------------------------
  // Recomputation and recentering

  /** The navigation target. */
  datatype Destination = Destination(id: string, name: string, at: Point)

  /** What the screen derives from the user position and the destination. */
  datatype NavView = NavView(route: seq<Point>, distance: int, destPano: Option<string>, turnPano: Option<string>)

  const InitialView := NavView([], 0, None, None)

  /**
   * The recomputation effect. Without a user position or a destination nothing is recomputed;
   * otherwise the route comes from the path finder, the distance is the rounded route length, and
   * the two panoramas are looked up. `near(user)` gives the distance from `user` to a key's point.
   */
  function Recompute(view: NavView, user: Option<Point>, dest: Option<Destination>, t: Table,
                     eventId: Option<string>, staffId: Option<string>,
                     findPath: (Point, Point) -> seq<Point>, leg: (Point, Point) -> real,
                     near: Point -> string -> Option<real>): (r: NavView)
    requires t.Valid()
    ensures user.None? || dest.None? ==> r == view
    ensures user.Some? && dest.Some? ==> r.route == findPath(user.value, dest.value.at)
    ensures user.Some? && dest.Some? ==>
      r.distance as real - 0.5 <= RouteLength(r.route, leg) < r.distance as real + 0.5
    ensures user.Some? && dest.Some? ==> r.destPano == DestinationPanorama(t, eventId, staffId, dest.value.id)
    ensures user.Some? && dest.Some? ==>
      (r.turnPano.None? <==> forall i :: 0 <= i < |t.order| ==> !Triggers(t.order[i], near(user.value)))
    ensures user.Some? && dest.Some? && r.turnPano.Some? ==> LastTriggerBinding(t, near(user.value), r.turnPano.value)
  {
    if user.None? || dest.None? then view
    else
      var route := findPath(user.value, dest.value.at);
      NavView(route, Round(RouteLength(route, leg)), DestinationPanorama(t, eventId, staffId, dest.value.id),
              TurnPanorama(t, near(user.value)))
  }

  /** Recomputing twice is recomputing once: the result does not depend on the previous view. */
  lemma RecomputeIdempotent(view: NavView, user: Option<Point>, dest: Option<Destination>, t: Table,
                            eventId: Option<string>, staffId: Option<string>,
                            findPath: (Point, Point) -> seq<Point>, leg: (Point, Point) -> real,
                            near: Point -> string -> Option<real>)
    requires t.Valid()
    ensures var once := Recompute(view, user, dest, t, eventId, staffId, findPath, leg, near);
      Recompute(once, user, dest, t, eventId, staffId, findPath, leg, near) == once
  {
  }

  /** The map command `AutoRecenter` issues. */
  datatype MapCommand = FitBounds(bounds: seq<Point>, padding: int) | SetView(center: Point, zoom: int) | KeepView

  /**
   * Fit the route with 50 px padding when there is a route; otherwise center on the user at zoom
   * 18 when the position is known; otherwise leave the map alone.
   */
  function Recenter(user: Option<Point>, route: seq<Point>): (c: MapCommand)
    ensures c.FitBounds? <==> |route| > 0
    ensures c.SetView? <==> |route| == 0 && user.Some?
    ensures c.KeepView? <==> |route| == 0 && user.None?
    ensures c.FitBounds? ==> c.bounds == route && c.padding == 50
    ensures c.SetView? ==> c.center == user.value && c.zoom == 18
  {
    if |route| > 0 then FitBounds(route, 50)
    else if user.Some? then SetView(user.value, 18)
    else KeepView
  }
}
