/** The sensitivity curve: one propagation per shock value, and when its responses must rise. */
module ScenarioSensitivity {
  import opened Options
  import opened ScenarioModel
  import opened ScenarioSearch
  import opened ScenarioPropagation
  import ScenarioValues

  const DEFAULT_DEPTH := 4

  datatype Point = Point(shock: real, response: Option<real>)

  datatype Curve = NoEdges | Failed | Curve(points: seq<Point>, monotonic: bool)

  /** The value of the last impact on `target`. */
  function LastOn(impacts: seq<Impact>, target: Node): Option<real> {
    if impacts == [] then None
    else if impacts[|impacts| - 1].subject == target then Some(impacts[|impacts| - 1].value)
    else LastOn(impacts[..|impacts| - 1], target)
  }

  function Responses(points: seq<Point>): seq<real> {
    if points == [] then []
    else
      var front, last := Responses(points[..|points| - 1]), points[|points| - 1].response;
      if last.Some? then front + [last.value] else front
  }

  predicate Ascending(xs: seq<real>) { forall i :: 0 <= i < |xs| - 1 ==> xs[i] <= xs[i + 1] }

  function Propagated(value: real, edges: seq<Edge>): Result
    requires edges != []
  {
    Propagation([Shock(edges[0].source, value)], edges, DEFAULT_DEPTH)
  }

  method SensitivityCurve(values: seq<real>, edges: seq<Edge>, target: Node) returns (curve: Curve)
    ensures curve.NoEdges? <==> values != [] && edges == []
    ensures curve.Failed? <==> edges != [] && exists v :: v in values && !Propagated(v, edges).Impacts?
    ensures curve.Curve? ==>
      && |curve.points| == |values|
      && (forall i :: 0 <= i < |values| ==>
            && edges != [] && Propagated(values[i], edges).Impacts?
            && curve.points[i] == Point(values[i], LastOn(Propagated(values[i], edges).impacts, target)))
      && curve.monotonic == Ascending(Responses(curve.points))
  {
    hide Propagation, LastOn, Responses;
    var points: seq<Point> := [];
    for i := 0 to |values|
      invariant |points| == i && (i > 0 ==> edges != [])
      invariant forall j :: 0 <= j < i ==>
        edges != [] && Propagated(values[j], edges).Impacts?
        && points[j] == Point(values[j], LastOn(Propagated(values[j], edges).impacts, target))
    {
      if edges == [] {
        return NoEdges;
      }
      var impacts := PropagateScenario([Shock(edges[0].source, values[i])], edges, DEFAULT_DEPTH);
      if !impacts.Impacts? {
        assert values[i] in values;
        return Failed;
      }
      points := points + [Point(values[i], LastOn(impacts.impacts, target))];
    }
    var numeric := Responses(points);
    curve := Curve(points, Ascending(numeric));
  }

  // ---------------------------------------------------------------- what the curve says

  lemma {:induction false} LastOnListed(impacts: seq<Impact>, target: Node)
    ensures match LastOn(impacts, target)
      case None => forall m :: m in impacts ==> m.subject != target
      case Some(value) => exists m :: m in impacts && m.subject == target && m.value == value
  {
    if impacts != [] {
      var front, last := impacts[..|impacts| - 1], impacts[|impacts| - 1];
      LastOnListed(front, target);
      assert impacts == front + [last];
    }
  }

  /** The value arriving on the target from the first edge's source is the response. */
  ghost predicate Responds(value: real, edges: seq<Edge>, target: Node, response: Option<real>)
    requires edges != []
  {
    var r := Propagation([Shock(edges[0].source, value)], edges, 4);
    && r.Impacts?
    && (response.Some? <==> ScenarioValues.Reachable(edges, edges[0].source, target, 4))
    && forall m :: m in r.impacts && m.subject == target ==> response == Some(m.value)
  }

  lemma ResponseArrives(value: real, edges: seq<Edge>, target: Node)
    requires edges != [] && Propagated(value, edges).Impacts?
    ensures Responds(value, edges, target, LastOn(Propagated(value, edges).impacts, target))
  {
    hide Propagation, LastOn, ScenarioValues.Reachable, ScenarioValues.Delivered;
    var origin, impacts := edges[0].source, Propagated(value, edges).impacts;
    var shocks := [Shock(origin, value)];
    ScenarioValues.PropagationDelivers(shocks, edges, 4);
    assert Shock(origin, value) in shocks;
    forall m | m in impacts ensures m.origin == origin { OriginListed(shocks, edges, m); }
    OnlyResponse(impacts, target);
    assert ScenarioValues.Hits(impacts, origin, target) <==> exists m :: m in impacts && m.subject == target;
  }

  lemma OnlyResponse(impacts: seq<Impact>, target: Node)
    requires forall i, j :: 0 <= i < j < |impacts| ==> impacts[i].subject != impacts[j].subject
    ensures LastOn(impacts, target).Some? <==> exists m :: m in impacts && m.subject == target
    ensures forall m :: m in impacts && m.subject == target ==> LastOn(impacts, target) == Some(m.value)
  {
    hide LastOn;
    LastOnListed(impacts, target);
    forall m | m in impacts && m.subject == target ensures LastOn(impacts, target) == Some(m.value) {
      var n :| n in impacts && n.subject == target && Some(n.value) == LastOn(impacts, target);
      var i :| 0 <= i < |impacts| && impacts[i] == m;
      var j :| 0 <= j < |impacts| && impacts[j] == n;
    }
  }

  lemma OriginListed(shocks: seq<Shock>, edges: seq<Edge>, m: Impact)
    requires ScenarioValues.Delivered(shocks, edges, 4, m) && |shocks| == 1
    ensures m.origin == shocks[0].target
  {
    hide ScenarioValues.Arrives, ScenarioValues.Route;
  }

  /** The numbers are the responses there are, at these places in order. */
  ghost predicate InPlaces(points: seq<Point>, numeric: seq<real>, places: seq<nat>) {
    && |places| == |numeric|
    && (forall n :: 0 <= n < |places| ==> places[n] < |points| && points[places[n]].response == Some(numeric[n]))
    && (forall m, n :: 0 <= m < n < |places| ==> places[m] < places[n])
    && forall i: nat :: i < |points| && points[i].response.Some? ==> i in places
  }

  lemma {:induction false} ResponsesInOrder(points: seq<Point>) returns (places: seq<nat>)
    ensures InPlaces(points, Responses(points), places)
  {
    hide InPlaces;
    if points == [] {
      places := [];
      NoPlaces();
    } else {
      var front, last := points[..|points| - 1], points[|points| - 1];
      places := ResponsesInOrder(front);
      assert points == front + [last];
      OnePlaceMore(front, Responses(front), places, last);
      if last.response.Some? { places := places + [|front|]; }
    }
  }

  lemma NoPlaces()
    ensures InPlaces([], [], [])
  {}

  lemma OnePlaceMore(front: seq<Point>, numeric: seq<real>, places: seq<nat>, last: Point)
    requires InPlaces(front, numeric, places)
    ensures if last.response.Some? then InPlaces(front + [last], numeric + [last.response.value], places + [|front|])
            else InPlaces(front + [last], numeric, places)
  {
    assert forall i: nat :: i in places + [|front|] <==> i in places || i == |front|;
  }

  lemma {:induction false} AscendingPairs(xs: seq<real>, i: nat, j: nat)
    requires Ascending(xs) && i <= j < |xs|
    ensures xs[i] <= xs[j]
    decreases j
  {
    if i < j {
      AscendingPairs(xs, i, j - 1);
      assert xs[j - 1] <= xs[j - 1 + 1];
    }
  }

  /** A curve has one point for each value, with what arrives of it, if anything can, over at most four
      edges; and is monotonic if and only if no later response is below an earlier one. */
  lemma CurveMeans(values: seq<real>, edges: seq<Edge>, target: Node, curve: Curve)
    requires CurveOf(values, edges, target, curve)
    ensures |curve.points| == |values|
    ensures forall i :: 0 <= i < |values| ==>
      edges != [] && curve.points[i].shock == values[i] && Responds(values[i], edges, target, curve.points[i].response)
    ensures curve.monotonic <==>
      forall i, j :: 0 <= i < j < |values| && curve.points[i].response.Some? && curve.points[j].response.Some? ==>
        curve.points[i].response.value <= curve.points[j].response.value
  {
    hide LastOn, Responses, Propagated, Responds;
    var points, numeric := curve.points, Responses(curve.points);
    forall i | 0 <= i < |values| ensures Responds(values[i], edges, target, points[i].response) {
      ResponseArrives(values[i], edges, target);
    }
    var places := ResponsesInOrder(points);
    if Ascending(numeric) {
      forall i, j | 0 <= i < j < |points| && points[i].response.Some? && points[j].response.Some?
        ensures points[i].response.value <= points[j].response.value
      {
        var m :| 0 <= m < |places| && places[m] == i;
        var n :| 0 <= n < |places| && places[n] == j;
        AscendingPairs(numeric, m, n);
      }
    } else {
      var n :| 0 <= n < |numeric| - 1 && numeric[n] > numeric[n + 1];
      assert places[n] < places[n + 1];
    }
  }

  // ---------------------------------------------------------------- monotone transmission

  /** Effective weight and lag discount are nonnegative. */
  predicate NonnegativeGain(e: Edge) { 0.0 <= e.weight && 0.0 <= e.lagDiscount }

  /** A larger shock never transmits less: always for the graded functions, and from
      nonnegative shocks for a binary disruption too. */
  lemma TransmitMonotone(e: Edge, x: real, y: real)
    requires e.Live() && Supported(e) && NonnegativeGain(e) && x <= y
    requires e.kind.BinaryDisruption? ==> 0.0 <= x
    ensures Transmit(e, x).Some? && Transmit(e, y).Some? && Transmit(e, x).value <= Transmit(e, y).value
    ensures 0.0 <= x ==> 0.0 <= Transmit(e, x).value
  {
    hide TransmissionValue, Gain;
    GainNonnegative(e);
    ValueMonotone(e.kind, x, y, Gain(e), e.lagDiscount, e.bound, e.threshold);
  }

  lemma GainNonnegative(e: Edge)
    requires e.Live() && NonnegativeGain(e)
    ensures 0.0 <= Gain(e)
  {}

  lemma ValueMonotone(kind: Kind, x: real, y: real, weight: real, lag: real, bound: real, threshold: real)
    requires !kind.Unsupported? && 0.0 <= weight && 0.0 <= lag && x <= y
    requires kind.BinaryDisruption? ==> 0.0 <= x
    ensures var tx, ty := TransmissionValue(kind, x, weight, lag, bound, threshold),
                          TransmissionValue(kind, y, weight, lag, bound, threshold);
      tx.Some? && ty.Some? && tx.value <= ty.value && (0.0 <= x ==> 0.0 <= tx.value)
  {
    hide Shaped, Raw;
    RawMonotone(weight, lag, x, y);
    ShapedMonotone(kind, x, y, Raw(x, weight, lag), Raw(y, weight, lag), weight, bound, threshold);
  }

  lemma ShapedMonotone(kind: Kind, x: real, y: real, rx: real, ry: real, weight: real, bound: real, threshold: real)
    requires !kind.Unsupported? && 0.0 <= weight && x <= y && rx <= ry
    requires kind.BinaryDisruption? ==> 0.0 <= x
    requires (0.0 <= x ==> 0.0 <= rx) && (x <= 0.0 ==> rx <= 0.0)
    requires (0.0 <= y ==> 0.0 <= ry) && (y <= 0.0 ==> ry <= 0.0)
    ensures var tx, ty := Shaped(kind, x, rx, weight, bound, threshold), Shaped(kind, y, ry, weight, bound, threshold);
      tx.Some? && ty.Some? && tx.value <= ty.value && (0.0 <= x ==> 0.0 <= tx.value)
  {}

  lemma RawMonotone(weight: real, lag: real, x: real, y: real)
    requires 0.0 <= weight && 0.0 <= lag && x <= y
    ensures Raw(x, weight, lag) <= Raw(y, weight, lag)
    ensures (0.0 <= x ==> 0.0 <= Raw(x, weight, lag)) && (x <= 0.0 ==> Raw(x, weight, lag) <= 0.0)
    ensures (0.0 <= y ==> 0.0 <= Raw(y, weight, lag)) && (y <= 0.0 ==> Raw(y, weight, lag) <= 0.0)
  {
    RawIsGain(weight, lag, x);
    RawIsGain(weight, lag, y);
    var gain := weight * lag;
    assert 0.0 <= gain;
    assert gain * x <= gain * y;
  }

  lemma RawIsGain(weight: real, lag: real, x: real)
    requires 0.0 <= weight && 0.0 <= lag
    ensures Raw(x, weight, lag) == (weight * lag) * x
    ensures (0.0 <= x ==> 0.0 <= Raw(x, weight, lag)) && (x <= 0.0 ==> Raw(x, weight, lag) <= 0.0)
  {
    var gain := weight * lag;
    assert 0.0 <= gain;
    assert x * weight * lag == gain * x;
  }

  lemma {:induction false} FoldMonotone(path: seq<Edge>, x: real, y: real)
    requires forall e :: e in path ==> e.Live() && Supported(e) && NonnegativeGain(e)
    requires x <= y && ((forall e :: e in path ==> !e.kind.BinaryDisruption?) || 0.0 <= x)
    ensures Fold(x, path).Some? && Fold(y, path).Some? && Fold(x, path).value <= Fold(y, path).value
    ensures 0.0 <= x ==> 0.0 <= Fold(x, path).value
  {
    if path != [] {
      var front, last := path[..|path| - 1], path[|path| - 1];
      assert last in path;
      FoldMonotone(front, x, y);
      TransmitMonotone(last, Fold(x, front).value, Fold(y, front).value);
    }
  }

  lemma {:induction false} ChainIsLive(edges: seq<Edge>, from: Node, path: seq<Edge>, to: Node)
    requires Chain(edges, from, path, to)
    ensures forall e :: e in path ==> e in edges && e.Live()
  {
    if path != [] {
      ChainIsLive(edges, from, path[..|path| - 1], path[|path| - 1].source);
      assert path == path[..|path| - 1] + [path[|path| - 1]];
    }
  }

  // ---------------------------------------------------------------- across zero

  predicate HasBinary(path: seq<Edge>) { exists e :: e in path && e.kind.BinaryDisruption? }

  ghost predicate Plain(path: seq<Edge>) {
    forall e :: e in path ==> e.Live() && Supported(e) && NonnegativeGain(e)
  }

  /** The largest value a positive shock can have after a path, if there is a largest one. */
  datatype Strength = Unbounded | UpTo(bound: real)

  function Factor(e: Edge): real { Gain(e) * e.lagDiscount }

  /** A product, kept as one term. */
  function Times(factor: real, v: real): real { factor * v }

  function Amplified(s: Strength, factor: real): Strength {
    match s
    case Unbounded => if factor == 0.0 then UpTo(0.0) else Unbounded
    case UpTo(b) => UpTo(Times(factor, b))
  }

  function Limit(s: Strength, bound: real): Strength {
    if s.UpTo? && s.bound <= bound then s else UpTo(bound)
  }

  function Passed(e: Edge, s: Strength): Strength {
    match e.kind
    case BoundedLinear => Limit(Amplified(s, Factor(e)), Abs(e.bound))
    case Threshold => if s.UpTo? && s.bound < Abs(e.threshold) then UpTo(0.0) else Amplified(s, Factor(e))
    case BinaryDisruption => UpTo(if s.UpTo? && s.bound <= 0.0 then 0.0 else Gain(e))
    case _ => Amplified(s, Factor(e))
  }

  function Strongest(path: seq<Edge>): Strength {
    if path == [] then Unbounded else Passed(path[|path| - 1], Strongest(path[..|path| - 1]))
  }

  /** A value on the way is within a strength; a value that reaches it attains the bound, or `m`. */
  predicate Within(v: real, s: Strength) { 0.0 <= v && (s.UpTo? ==> v <= s.bound) }

  predicate Reaches(v: real, s: Strength, m: real) { 0.0 <= v && if s.UpTo? then v == s.bound else m <= v }

  lemma TransmitRaw(e: Edge, v: real)
    requires e.Live() && Supported(e) && NonnegativeGain(e)
    ensures 0.0 <= Factor(e) && Raw(v, Gain(e), e.lagDiscount) == Times(Factor(e), v)
    ensures Transmit(e, v) == Shaped(e.kind, v, Times(Factor(e), v), Gain(e), e.bound, e.threshold)
  {
    hide Gain;
    GainNonnegative(e);
    RawIsGain(Gain(e), e.lagDiscount, v);
  }

  /** One edge passes a value within a strength on to a value within the passed strength. */
  lemma TransmitWithin(e: Edge, v: real, s: Strength)
    requires e.Live() && Supported(e) && NonnegativeGain(e) && Within(v, s)
    ensures Transmit(e, v).Some? && Within(Transmit(e, v).value, Passed(e, s))
  {
    hide Transmit, Gain, Factor, Times;
    GainNonnegative(e);
    TransmitRaw(e, v);
    AmplifiedWithin(v, s, Factor(e));
  }

  lemma AmplifiedWithin(v: real, s: Strength, factor: real)
    requires 0.0 <= factor && Within(v, s)
    ensures Within(Times(factor, v), Amplified(s, factor))
  {
    if s.UpTo? { assert factor * v <= factor * s.bound; }
  }

  /** How large an incoming value has to be for the outgoing one to attain the passed strength. */
  function Needed(e: Edge, m: real): real {
    Larger(Quota(Larger(Abs(m), Abs(e.bound)), Factor(e)), Larger(Abs(e.threshold), 1.0))
  }

  function Quota(target: real, factor: real): real { if factor > 0.0 then target / factor else 0.0 }

  function Larger(x: real, y: real): real { if x >= y then x else y }

  lemma TransmitReaches(e: Edge, v: real, s: Strength, m: real)
    requires e.Live() && Supported(e) && NonnegativeGain(e) && Reaches(v, s, Needed(e, m))
    ensures Transmit(e, v).Some? && Reaches(Transmit(e, v).value, Passed(e, s), m)
  {
    hide Transmit, Gain, Factor, Times, Quota;
    GainNonnegative(e);
    TransmitRaw(e, v);
    AmplifiedReaches(v, s, Factor(e), Larger(Abs(m), Abs(e.bound)));
  }

  lemma AmplifiedReaches(v: real, s: Strength, factor: real, m: real)
    requires 0.0 <= factor && 0.0 <= m && Reaches(v, s, Quota(m, factor))
    ensures Reaches(Times(factor, v), Amplified(s, factor), m)
  {
    if s.Unbounded? && factor > 0.0 {
      assert Quota(m, factor) * factor == m;
      assert Quota(m, factor) * factor <= v * factor;
    }
  }

  lemma {:induction false} StrongestBounds(path: seq<Edge>, x: real)
    requires Plain(path) && 0.0 <= x
    ensures Fold(x, path).Some? && Within(Fold(x, path).value, Strongest(path))
  {
    hide Transmit, Passed;
    if path != [] {
      var front, last := path[..|path| - 1], path[|path| - 1];
      assert last in path;
      StrongestBounds(front, x);
      TransmitWithin(last, Fold(x, front).value, Strongest(front));
    }
  }

  /** The strength is attained, or any amount when there is no bound. */
  lemma {:induction false} StrongestReached(path: seq<Edge>, m: real) returns (x: real)
    requires Plain(path)
    ensures 0.0 <= x && Fold(x, path).Some? && Reaches(Fold(x, path).value, Strongest(path), m)
  {
    hide Transmit, Passed, Needed;
    if path == [] {
      x := Abs(m);
    } else {
      var front, last := path[..|path| - 1], path[|path| - 1];
      assert last in path;
      x := StrongestReached(front, Needed(last, m));
      TransmitReaches(last, Fold(x, front).value, Strongest(front), m);
    }
  }

  lemma TransmitMirror(e: Edge, v: real)
    requires e.Live() && Supported(e) && NonnegativeGain(e)
    ensures Transmit(e, 0.0) == Some(0.0) && Transmit(e, v).Some? && Transmit(e, -v).Some?
    ensures Transmit(e, -v).value == if e.kind.BinaryDisruption? then Transmit(e, v).value else -Transmit(e, v).value
  {
    hide Transmit, Gain, Factor;
    TransmitRaw(e, v);
    TransmitRaw(e, -v);
    TransmitRaw(e, 0.0);
    assert Times(Factor(e), -v) == -Times(Factor(e), v) && Times(Factor(e), 0.0) == 0.0;
  }

  /** Up to the first binary disruption a negative shock mirrors the positive one; after it, both
      arrive alike. */
  lemma {:induction false} FoldMirror(path: seq<Edge>, x: real)
    requires Plain(path)
    ensures Fold(0.0, path) == Some(0.0) && Fold(x, path).Some? && Fold(-x, path).Some?
    ensures Fold(-x, path).value == if HasBinary(path) then Fold(x, path).value else -Fold(x, path).value
  {
    hide Transmit;
    if path != [] {
      var front, last := path[..|path| - 1], path[|path| - 1];
      assert last in path && path == front + [last];
      FoldMirror(front, x);
      TransmitMirror(last, Fold(x, front).value);
      TransmitMirror(last, 0.0);
    }
  }

  predicate Rises(path: seq<Edge>, x: real, y: real) {
    Fold(x, path).Some? && Fold(y, path).Some? && Fold(x, path).value <= Fold(y, path).value
  }

  /** Either no disruption is binary, or nothing ever arrives. */
  predicate Monotone(path: seq<Edge>) { !HasBinary(path) || Strongest(path) == UpTo(0.0) }

  lemma MonotoneRises(path: seq<Edge>, x: real, y: real)
    requires Plain(path) && x <= y && (Monotone(path) || 0.0 <= x)
    ensures Rises(path, x, y)
  {
    hide Fold, Strongest;
    if !HasBinary(path) || 0.0 <= x {
      FoldMonotone(path, x, y);
    } else {
      FoldMirror(path, x);
      FoldMirror(path, y);
      StrongestBounds(path, Abs(x));
      StrongestBounds(path, Abs(y));
    }
  }

  /** A larger shock never arrives smaller, at the end of a path of nonnegative gains, if and only
      if no edge of it is a binary disruption or its strength is zero. */
  lemma FoldMonotoneIff(path: seq<Edge>)
    requires Plain(path)
    ensures (forall x, y :: x <= y ==> Rises(path, x, y)) <==> Monotone(path)
  {
    hide Fold, Strongest;
    if Monotone(path) {
      forall x, y | x <= y ensures Rises(path, x, y) { MonotoneRises(path, x, y); }
    } else {
      var x := FallsAt(path);
      assert !Rises(path, -x, 0.0);
    }
  }

  lemma FallsAt(path: seq<Edge>) returns (x: real)
    requires Plain(path) && !Monotone(path)
    ensures 0.0 <= x && Fold(-x, path).Some? && Fold(0.0, path) == Some(0.0) && 0.0 < Fold(-x, path).value
  {
    hide Fold, Strongest;
    x := StrongestReached(path, 1.0);
    FoldMirror(path, x);
  }

  // ---------------------------------------------------------------- the chosen path

  /** The visit that decides the response on `target`, if any; it does not depend on the value. */
  function Deciding(visits: seq<Item>, target: Node): Option<Item> {
    if visits == [] then None
    else if visits[|visits| - 1].node == target then Some(visits[|visits| - 1])
    else Deciding(visits[..|visits| - 1], target)
  }

  lemma {:induction false} DecidingListed(visits: seq<Item>, target: Node)
    ensures Deciding(visits, target).Some? ==> Deciding(visits, target).value in visits
  {
    if visits != [] { DecidingListed(visits[..|visits| - 1], target); }
  }

  lemma {:induction false} ResponseIsFold(shocks: seq<Shock>, visits: seq<Item>, target: Node)
    requires Traversable(shocks, visits)
    ensures LastOn(Valued(shocks, visits), target) ==
      match Deciding(visits, target)
      case None => None
      case Some(v) => Fold(FirstShock(shocks, v.origin), v.path)
  {
    hide Fold, FirstShock;
    if visits != [] {
      var front := visits[..|visits| - 1];
      assert visits[|visits| - 1] in visits;
      ResponseIsFold(shocks, front, target);
      assert Valued(shocks, visits)[..|visits| - 1] == Valued(shocks, front);
    }
  }

  lemma VisitsIgnoreValue(origin: Node, x: real, y: real, edges: seq<Edge>)
    ensures Visits([Shock(origin, x)], edges, DEFAULT_DEPTH) == Visits([Shock(origin, y)], edges, DEFAULT_DEPTH)
    ensures Origins([Shock(origin, x)]) == {origin}
  {
    hide Walk;
    assert Roots([Shock(origin, x)]) == Roots([Shock(origin, y)]);
    OriginOne(origin, x);
    OriginOne(origin, y);
  }

  lemma OriginOne(origin: Node, x: real)
    ensures Origins([Shock(origin, x)]) == {origin}
  {
    assert [Shock(origin, x)][0] in [Shock(origin, x)];
  }

  /** The path whose end decides the response on `target`; no shock value enters into it. */
  function DecidingPath(edges: seq<Edge>, target: Node): Option<seq<Edge>>
    requires edges != []
  {
    match Deciding(Visits([Shock(edges[0].source, 0.0)], edges, DEFAULT_DEPTH), target)
    case None => None
    case Some(v) => Some(v.path)
  }

  /** The response can never fall: a condition on the edges alone. */
  predicate Calm(edges: seq<Edge>, target: Node)
    requires edges != []
  {
    DecidingPath(edges, target).None? || Monotone(DecidingPath(edges, target).value)
  }

  lemma NoBinaryIsCalm(edges: seq<Edge>, target: Node)
    requires edges != [] && forall e :: e in edges && e.Live() ==> !e.kind.BinaryDisruption?
    ensures Calm(edges, target)
  {
    hide Visits;
    var shocks := [Shock(edges[0].source, 0.0)];
    var visits := Visits(shocks, edges, DEFAULT_DEPTH);
    DecidingListed(visits, target);
    if Deciding(visits, target).Some? {
      VisitsAreBreadthFirst(shocks, edges, DEFAULT_DEPTH);
      var v := Deciding(visits, target).value;
      ChainIsLive(edges, v.origin, v.path, v.node);
    }
  }

  /** Two shock values on the same origin both fail or both propagate; they meet the target along
      the same path, or not at all; and the larger never has the smaller response, if the edges
      are calm about the target or neither shock is negative. */
  lemma ResponseMonotone(edges: seq<Edge>, target: Node, x: real, y: real)
    requires edges != [] && x <= y
    requires forall e :: e in edges && e.Live() ==> NonnegativeGain(e)
    requires Calm(edges, target) || 0.0 <= x
    ensures Propagated(x, edges).Impacts? <==> Propagated(y, edges).Impacts?
    ensures Propagated(x, edges).Impacts? ==>
      var rx, ry := LastOn(Propagated(x, edges).impacts, target), LastOn(Propagated(y, edges).impacts, target);
      (rx.Some? <==> ry.Some?) && (rx.Some? ==> rx.value <= ry.value)
  {
    hide Visits, Fold, Transmit, Propagation, LastOn, Monotone, DecidingPath;
    FailsAlike(edges[0].source, x, y, edges);
    if Propagated(x, edges).Impacts? {
      ResponseIs(edges, target, x);
      ResponseIs(edges, target, y);
      if DecidingPath(edges, target).Some? { MonotoneRises(DecidingPath(edges, target).value, x, y); }
    }
  }

  /** The response to a shock is the shock folded along the deciding path. */
  lemma ResponseIs(edges: seq<Edge>, target: Node, x: real)
    requires edges != [] && forall e :: e in edges && e.Live() ==> NonnegativeGain(e)
    requires Propagated(x, edges).Impacts?
    ensures LastOn(Propagated(x, edges).impacts, target) ==
      match DecidingPath(edges, target) case None => None case Some(path) => Fold(x, path)
    ensures DecidingPath(edges, target).Some? ==> Plain(DecidingPath(edges, target).value)
  {
    hide Visits, Fold, Transmit, Propagation, LastOn;
    var origin := edges[0].source;
    var shocks := [Shock(origin, x)];
    var visits := Visits(shocks, edges, DEFAULT_DEPTH);
    VisitsIgnoreValue(origin, x, 0.0, edges);
    ImpactsAre(shocks, edges);
    ResponseIsFold(shocks, visits, target);
    DecidingListed(visits, target);
    if Deciding(visits, target).Some? {
      var v := Deciding(visits, target).value;
      VisitsAreBreadthFirst(shocks, edges, DEFAULT_DEPTH);
      ChainIsLive(edges, v.origin, v.path, v.node);
      FoldSupported(x, v.path);
    }
  }

  lemma ImpactsAre(shocks: seq<Shock>, edges: seq<Edge>)
    requires Propagation(shocks, edges, DEFAULT_DEPTH).Impacts?
    ensures var visits := Visits(shocks, edges, DEFAULT_DEPTH);
      Traversable(shocks, visits) && Propagation(shocks, edges, DEFAULT_DEPTH).impacts == Valued(shocks, visits)
  {
    hide Visits, Fold;
  }

  /** Which functions are met does not depend on the shock's value. */
  lemma FailsAlike(origin: Node, x: real, y: real, edges: seq<Edge>)
    requires edges != [] && edges[0].source == origin
    ensures Propagated(x, edges).Impacts? <==> Propagated(y, edges).Impacts?
  {
    hide Propagation, Visits;
    VisitsIgnoreValue(origin, x, y, edges);
    PropagationIsExact([Shock(origin, x)], edges, DEFAULT_DEPTH);
    PropagationIsExact([Shock(origin, y)], edges, DEFAULT_DEPTH);
  }

  // ---------------------------------------------------------------- the curve

  lemma {:induction false} AllOrNone(points: seq<Point>)
    requires forall i, j :: 0 <= i < j < |points| ==>
      (points[i].response.Some? <==> points[j].response.Some?)
    ensures if points != [] && points[0].response.Some?
      then |Responses(points)| == |points| &&
        forall i :: 0 <= i < |points| ==> points[i].response == Some(Responses(points)[i])
      else Responses(points) == []
  {
    if points != [] {
      AllOrNone(points[..|points| - 1]);
      if |points| > 1 { assert points[..|points| - 1][0] == points[0]; }
    }
  }

  ghost predicate CurveOf(values: seq<real>, edges: seq<Edge>, target: Node, curve: Curve) {
    && curve.Curve? && |curve.points| == |values|
    && (forall i :: 0 <= i < |values| ==>
          && edges != [] && Propagated(values[i], edges).Impacts?
          && curve.points[i] == Point(values[i], LastOn(Propagated(values[i], edges).impacts, target)))
    && curve.monotonic == Ascending(Responses(curve.points))
  }

  predicate Ascends(values: seq<real>) { forall i, j :: 0 <= i < j < |values| ==> values[i] <= values[j] }

  /** With nonnegative gains, ascending shock values are always classified monotonic if the edges
      are calm about the target or no shock is negative. */
  lemma AscendingIsMonotonic(values: seq<real>, edges: seq<Edge>, target: Node, curve: Curve)
    requires CurveOf(values, edges, target, curve) && Ascends(values)
    requires forall e :: e in edges && e.Live() ==> NonnegativeGain(e)
    requires (edges != [] && Calm(edges, target)) || forall i :: 0 <= i < |values| ==> 0.0 <= values[i]
    ensures curve.monotonic
  {
    hide Propagation, Propagated, LastOn, Responses, Calm;
    var points := curve.points;
    forall i, j | 0 <= i < j < |points|
      ensures points[i].response.Some? <==> points[j].response.Some?
      ensures points[i].response.Some? ==> points[i].response.value <= points[j].response.value
    {
      ResponseMonotone(edges, target, values[i], values[j]);
    }
    AllOrNone(points);
  }

  ghost predicate AlwaysMonotonic(edges: seq<Edge>, target: Node) {
    forall values, curve :: CurveOf(values, edges, target, curve) && Ascends(values) ==> curve.monotonic
  }

  /** Where gains are nonnegative and the propagation succeeds, every ascending list of shock values
      is classified monotonic if and only if the edges are calm about the target: the path to it
      has no binary disruption, or passes nothing on. */
  lemma AlwaysMonotonicIff(edges: seq<Edge>, target: Node)
    requires edges != [] && forall e :: e in edges && e.Live() ==> NonnegativeGain(e)
    requires Propagated(0.0, edges).Impacts?
    ensures AlwaysMonotonic(edges, target) <==> Calm(edges, target)
  {
    hide Propagated, Ascends, Ascending, LastOn, Responses, Calm;
    if Calm(edges, target) {
      forall values, curve | CurveOf(values, edges, target, curve) && Ascends(values) ensures curve.monotonic {
        AscendingIsMonotonic(values, edges, target, curve);
      }
    } else {
      var values, curve := FallingCurve(edges, target);
    }
  }

  /** Where the edges are not calm, a curve over a negative shock and zero falls. */
  lemma FallingCurve(edges: seq<Edge>, target: Node) returns (values: seq<real>, curve: Curve)
    requires edges != [] && forall e :: e in edges && e.Live() ==> NonnegativeGain(e)
    requires Propagated(0.0, edges).Impacts? && !Calm(edges, target)
    ensures CurveOf(values, edges, target, curve) && Ascends(values) && !curve.monotonic
  {
    hide Propagation, LastOn, Fold, DecidingPath, Strongest, Propagated, Plain;
    ResponseIs(edges, target, 0.0);
    var x := FallsAt(DecidingPath(edges, target).value);
    FailsAlike(edges[0].source, -x, 0.0, edges);
    ResponseIs(edges, target, -x);
    values := [-x, 0.0];
    var first, second := Point(-x, LastOn(Propagated(-x, edges).impacts, target)),
                         Point(0.0, LastOn(Propagated(0.0, edges).impacts, target));
    curve := Curve([first, second], false);
    TwoResponses(first, second);
    assert !(Responses(curve.points)[0] <= Responses(curve.points)[0 + 1]);
  }

  lemma TwoResponses(first: Point, second: Point)
    requires first.response.Some? && second.response.Some?
    ensures Responses([first, second]) == [first.response.value, second.response.value]
  {
    assert [first, second][..1] == [first] && [first][..0] == [];
    assert Responses([first]) == [first.response.value];
  }

  /** For instance, across zero, a single binary disruption falls from its weight to nothing. */
  lemma BinaryFallsAcrossZero() returns (edges: seq<Edge>)
    ensures edges != [] && forall e :: e in edges ==> e.Live() && NonnegativeGain(e)
    ensures Propagated(-1.0, edges).Impacts? && LastOn(Propagated(-1.0, edges).impacts, "b") == Some(1.0)
    ensures Propagated(0.0, edges).Impacts? && LastOn(Propagated(0.0, edges).impacts, "b") == Some(0.0)
  {
    var e := Edge("a", "b", true, 1.0, 1.0, BinaryDisruption, 1.0, 1.0, 0.0);
    edges := [e];
    OneEdge(e, -1.0);
    OneEdge(e, 0.0);
  }

  /** From one edge the search makes one visit. */
  lemma {:induction false} OneVisit(e: Edge, value: real)
    requires e.Live() && e.source == "a" && e.target == "b"
    ensures Visits([Shock("a", value)], [e], DEFAULT_DEPTH) == [Item("a", "b", [e])]
  {
    hide Fan, Adjacent, Roots, Origins, Walk, Keys;
    var item, origins := Item("a", "b", [e]), {"a"};
    RootOne("a", value);
    OriginOne("a", value);
    AdjacentOne(e);
    FanOne(e, item);
    var root := [Item("a", "a", [])];
    WalkStep([e], DEFAULT_DEPTH, origins, root, {});
    assert root[1..] + [item] == [item] && {} + {("a", "b")} == {("a", "b")};
    WalkStep([e], DEFAULT_DEPTH, origins, [item], {("a", "b")});
    assert [item][1..] + [] == [] && {("a", "b")} + {} == {("a", "b")};
    WalkDone([e], DEFAULT_DEPTH, origins, {("a", "b")});
  }

  lemma RootOne(origin: Node, x: real)
    ensures Roots([Shock(origin, x)]) == [Item(origin, origin, [])]
  {}

  lemma AdjacentOne(e: Edge)
    requires e.Live() && e.source == "a" && e.target == "b"
    ensures Adjacent([e], "a") == [e] && Adjacent([e], "b") == []
  {
    assert [e][..0] == [] && [] + [e] == [e];
  }

  lemma {:induction false} FanOne(e: Edge, item: Item)
    requires e.target == "b" && item == Item("a", "b", [e])
    ensures Fan(Item("a", "a", []), [e], {}) == [item] && Fan(item, [], {("a", "b")}) == []
    ensures Keys([item]) == {("a", "b")} && Keys([]) == {}
  {
    assert [e][..0] == [] && [] + [e] == [e];
    KeysOne(item);
  }

  lemma {:induction false} OneValue(e: Edge, value: real)
    requires e == Edge("a", "b", true, 1.0, 1.0, BinaryDisruption, 1.0, 1.0, 0.0)
    ensures Fold(value, [e]) == Some(if value != 0.0 then 1.0 else 0.0)
  {
    FoldSnoc(value, [], e);
    assert [] + [e] == [e];
    assert Gain(e) == 1.0;
  }

  lemma {:induction false} OneEdge(e: Edge, value: real)
    requires e == Edge("a", "b", true, 1.0, 1.0, BinaryDisruption, 1.0, 1.0, 0.0)
    ensures Propagated(value, [e]).Impacts?
    ensures LastOn(Propagated(value, [e]).impacts, "b") == Some(if value != 0.0 then 1.0 else 0.0)
  {
    hide Visits, Fold, Transmit;
    var shocks, item := [Shock("a", value)], Item("a", "b", [e]);
    OneVisit(e, value);
    OneValue(e, value);
    assert FirstShock(shocks, "a") == value;
    assert Valued(shocks, [item]) == [ImpactOf(item, if value != 0.0 then 1.0 else 0.0)];
  }
}
