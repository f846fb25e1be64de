/** What arrives where, in terms of the edges' own fields: the value of every impact, which nodes have
    one, and in which order nodes and edges are served. */
module ScenarioValues {
  import opened Options
  import opened ScenarioModel
  import opened ScenarioSearch
  import opened ScenarioPropagation

  // ---------------------------------------------------------------- one edge

  /** What an edge's function makes of a value, or none where there is no such function. */
  ghost predicate Sends(e: Edge, value: real, sent: Option<real>) {
    var carried := Carried(e, value);
    match e.kind
    case Linear | Lagged | WeightedExposure | CapacityWeighted | LocationWeighted => sent == Some(carried)
    case BoundedLinear =>
      var bound := if e.bound >= 0.0 then e.bound else -e.bound;
      sent == Some(if carried < -bound then -bound else if carried <= bound then carried else bound)
    case Threshold =>
      var threshold := if e.threshold >= 0.0 then e.threshold else -e.threshold;
      sent == Some(if value >= threshold || value <= -threshold then carried else 0.0)
    case BinaryDisruption => sent == Some(if value == 0.0 then 0.0 else Full(e))
    case Unsupported(_) => sent == None
  }

  /** What a disruption passes on. */
  ghost function Full(e: Edge): real { e.weight * e.confidence }

  ghost function Carried(e: Edge, value: real): real { value * (e.weight * e.confidence) * e.lagDiscount }

  lemma TransmitSends(e: Edge, value: real)
    ensures Sends(e, value, Transmit(e, value))
  {
    hide Raw, Shaped, Sends;
    RawCarried(e, value);
    GainIs(e);
    hide Gain, Full;
    ShapedSends(e, value, Raw(value, Gain(e), e.lagDiscount), Gain(e));
  }

  lemma ShapedSends(e: Edge, value: real, raw: real, gain: real)
    requires raw == Carried(e, value) && gain == Full(e)
    ensures Sends(e, value, Shaped(e.kind, value, raw, gain, e.bound, e.threshold))
  {
    hide Carried, Full;
  }

  lemma RawCarried(e: Edge, value: real)
    ensures Raw(value, Gain(e), e.lagDiscount) == Carried(e, value)
  {}

  lemma GainIs(e: Edge)
    ensures Gain(e) == Full(e)
  {}

  // ---------------------------------------------------------------- along a path

  /** A shock arrives as `value`: every edge sends on what it was sent. */
  ghost predicate Arrives(shock: real, path: seq<Edge>, value: real) {
    exists values: seq<real> ::
      |values| == |path| + 1 && values[0] == shock && values[|path|] == value && Relayed(path, values)
  }

  ghost predicate Relayed(path: seq<Edge>, values: seq<real>)
    requires |values| == |path| + 1
  {
    forall i :: 0 <= i < |path| ==> Sends(path[i], values[i], Some(values[i + 1]))
  }

  lemma {:induction false} FoldArrives(shock: real, path: seq<Edge>)
    requires Fold(shock, path).Some?
    ensures Arrives(shock, path, Fold(shock, path).value)
  {
    hide Sends, Transmit;
    if path == [] {
      assert Relayed(path, [shock]);
    } else {
      var front, last, n := path[..|path| - 1], path[|path| - 1], |path| - 1;
      FoldArrives(shock, front);
      var values: seq<real> :| |values| == n + 1 && values[0] == shock && values[n] == Fold(shock, front).value
        && Relayed(front, values);
      var all := values + [Fold(shock, path).value];
      TransmitSends(last, values[n]);
      forall i | 0 <= i < |path| ensures Sends(path[i], all[i], Some(all[i + 1])) {
        if i < n { assert Sends(front[i], values[i], Some(values[i + 1])); }
      }
      assert Relayed(path, all);
    }
  }

  ghost predicate Proportional(e: Edge) {
    e.kind in {Linear, Lagged, WeightedExposure, CapacityWeighted, LocationWeighted}
  }

  /** The product of the weights, confidences and lag discounts of the edges. */
  ghost function Product(path: seq<Edge>): real {
    if path == [] then 1.0 else Times(Product(path[..|path| - 1]), Rate(path[|path| - 1]))
  }

  ghost function Rate(e: Edge): real { e.weight * e.confidence * e.lagDiscount }

  /** A product, kept as one term. */
  ghost function Times(x: real, y: real): real { x * y }

  /** Along proportional edges what arrives is the shock times the weight, confidence and lag discount
      of each. */
  lemma {:induction false} ArrivesInProportion(shock: real, path: seq<Edge>)
    requires forall e :: e in path ==> Proportional(e)
    ensures Fold(shock, path) == Some(Times(Product(path), shock))
  {
    hide Transmit, Rate, Times;
    if path == [] {
      TimesOne(shock);
    } else {
      var front, last := path[..|path| - 1], path[|path| - 1];
      assert last in path;
      ArrivesInProportion(shock, front);
      SentInProportion(last, Product(front), shock);
    }
  }

  lemma TimesOne(x: real)
    ensures Times(1.0, x) == x
  {}

  lemma SentInProportion(e: Edge, product: real, shock: real)
    requires Proportional(e)
    ensures Transmit(e, Times(product, shock)) == Some(Times(Times(product, Rate(e)), shock))
  {
    hide Transmit, Carried, Times, Rate;
    TransmitSends(e, Times(product, shock));
    CarriedRate(e, Times(product, shock), product, shock);
  }

  lemma CarriedRate(e: Edge, value: real, product: real, shock: real)
    requires value == Times(product, shock)
    ensures Carried(e, value) == Times(Times(product, Rate(e)), shock)
  {
    var gain := e.weight * e.confidence;
    Regroup(product, shock, gain, e.lagDiscount);
  }

  lemma Regroup(product: real, shock: real, gain: real, lag: real)
    ensures (product * shock) * gain * lag == (product * (gain * lag)) * shock
  {}

  ghost function Trusted(e: Edge, c: real): Edge { e.(confidence := Times(c, e.confidence)) }

  /** Scaling the confidence of one edge of such a path scales what arrives. */
  lemma {:induction false} ConfidenceScales(shock: real, path: seq<Edge>, i: nat, c: real)
    requires i < |path| && forall e :: e in path ==> Proportional(e)
    ensures Fold(shock, path).Some?
    ensures Fold(shock, path[i := Trusted(path[i], c)]) == Some(Times(c, Fold(shock, path).value))
  {
    hide Fold, Product, Times;
    var path' := path[i := Trusted(path[i], c)];
    forall e | e in path' ensures Proportional(e) {
      var j :| 0 <= j < |path'| && path'[j] == e;
      assert path[j] in path;
    }
    ArrivesInProportion(shock, path);
    ArrivesInProportion(shock, path');
    ProductScales(path, i, c);
    TimesAssociate(c, Product(path), shock);
  }

  lemma {:induction false} ProductScales(path: seq<Edge>, i: nat, c: real)
    requires i < |path|
    ensures Product(path[i := Trusted(path[i], c)]) == Times(c, Product(path))
  {
    hide Times, Rate, Trusted;
    var path', n := path[i := Trusted(path[i], c)], |path| - 1;
    var front := path[..n];
    if i < n {
      ProductScales(front, i, c);
      assert path'[..n] == front[i := Trusted(front[i], c)];
      TimesAssociate(c, Product(front), Rate(path[n]));
    } else {
      assert path'[..n] == front;
      RateScales(path[n], Product(front), c);
    }
  }

  lemma TimesAssociate(c: real, x: real, y: real)
    ensures Times(Times(c, x), y) == Times(c, Times(x, y))
  {}

  lemma RateScales(e: Edge, x: real, c: real)
    ensures Times(x, Rate(Trusted(e, c))) == Times(c, Times(x, Rate(e)))
  {
    assert e.weight * (c * e.confidence) * e.lagDiscount == c * (e.weight * e.confidence * e.lagDiscount);
  }

  /** Past a binary disruption arrives its weight times its confidence, or nothing. */
  lemma DisruptionArrives(shock: real, path: seq<Edge>)
    requires path != [] && path[|path| - 1].kind.BinaryDisruption? && Fold(shock, path).Some?
    ensures var last, before := path[|path| - 1], Fold(shock, path[..|path| - 1]);
      before.Some? && Fold(shock, path).value == if before.value == 0.0 then 0.0 else last.weight * last.confidence
  {}

  // ---------------------------------------------------------------- what is output

  /** The first shock listed on the origin. */
  ghost predicate FirstListed(shocks: seq<Shock>, origin: Node, value: real) {
    exists i :: 0 <= i < |shocks| && shocks[i] == Shock(origin, value)
      && forall j :: 0 <= j < i ==> shocks[j].target != origin
  }

  lemma {:induction false} FirstShockIsFirst(shocks: seq<Shock>, origin: Node)
    requires origin in Origins(shocks)
    ensures FirstListed(shocks, origin, FirstShock(shocks, origin))
  {
    if shocks[0].target == origin {
      assert shocks[0] == Shock(origin, FirstShock(shocks, origin));
    } else {
      var rest := shocks[1..];
      var s :| s in shocks && s.target == origin;
      assert s in rest;
      FirstShockIsFirst(rest, origin);
      var i :| 0 <= i < |rest| && rest[i] == Shock(origin, FirstShock(rest, origin))
        && forall j :: 0 <= j < i ==> rest[j].target != origin;
      assert forall j :: 1 <= j < i + 1 ==> shocks[j] == rest[j - 1];
      assert shocks[i + 1] == Shock(origin, FirstShock(shocks, origin));
    }
  }

  /** A route of supported edges with a positive confidence, each starting where the last one ends. */
  ghost predicate Route(edges: seq<Edge>, from: Node, path: seq<Edge>, to: Node) {
    && path != [] && path[0].source == from && path[|path| - 1].target == to
    && (forall i :: 0 <= i < |path| ==> path[i] in edges && path[i].supported && 0.0 < path[i].confidence)
    && forall i :: 0 < i < |path| ==> path[i - 1].target == path[i].source
  }

  lemma {:induction false} ChainIsRoute(edges: seq<Edge>, from: Node, path: seq<Edge>, to: Node)
    requires path != []
    ensures Chain(edges, from, path, to) <==> Route(edges, from, path, to)
  {
    var front, last := path[..|path| - 1], path[|path| - 1];
    if front != [] {
      ChainIsRoute(edges, from, front, last.source);
      RouteThen(edges, from, front, last, to);
      assert path == front + [last];
    } else {
      assert Chain(edges, from, front, last.source) <==> from == last.source;
    }
  }

  lemma RouteThen(edges: seq<Edge>, from: Node, front: seq<Edge>, last: Edge, to: Node)
    requires front != []
    ensures Route(edges, from, front + [last], to) <==>
      Route(edges, from, front, last.source)
      && last in edges && last.supported && 0.0 < last.confidence && last.target == to
  {
    var path, n := front + [last], |front|;
    assert path[n] == last && path[n - 1] == front[n - 1];
    if Route(edges, from, path, to) {
      forall i | 0 <= i < n ensures front[i] in edges && front[i].supported && 0.0 < front[i].confidence {
        assert path[i] == front[i];
      }
      forall i | 0 < i < n ensures front[i - 1].target == front[i].source {
        assert path[i - 1].target == path[i].source;
      }
    }
  }

  lemma {:induction false} BallHasRoute(edges: seq<Edge>, from: Node, k: nat, to: Node) returns (path: seq<Edge>)
    requires to in Ball(edges, from, k)
    ensures Chain(edges, from, path, to) && |path| <= k
  {
    path := [];
    if k > 0 {
      if to in Ball(edges, from, k - 1) {
        path := BallHasRoute(edges, from, k - 1, to);
      } else {
        var e :| e in edges && e.Live() && e.source in Ball(edges, from, k - 1) && e.target == to;
        var front := BallHasRoute(edges, from, k - 1, e.source);
        path := front + [e];
        assert path[..|path| - 1] == front;
      }
    }
  }

  /** A node other than the origin is within `k` edges if and only if some route of that length leads there. */
  lemma BallIffRoute(edges: seq<Edge>, from: Node, k: nat, to: Node)
    requires from != to
    ensures to in Ball(edges, from, k) <==> exists path :: |path| <= k && Route(edges, from, path, to)
  {
    hide Ball, Chain, Route;
    if to in Ball(edges, from, k) {
      var path := BallHasRoute(edges, from, k, to);
      EmptyChain(edges, from, path, to);
      ChainIsRoute(edges, from, path, to);
    }
    if path :| |path| <= k && Route(edges, from, path, to) {
      RouteNotEmpty(edges, from, path, to);
      ChainIsRoute(edges, from, path, to);
      ChainInBall(edges, from, path, to);
      BallGrows(edges, from, |path|, k);
    }
  }

  lemma EmptyChain(edges: seq<Edge>, from: Node, path: seq<Edge>, to: Node)
    requires Chain(edges, from, path, to) && from != to
    ensures path != []
  {}

  lemma RouteNotEmpty(edges: seq<Edge>, from: Node, path: seq<Edge>, to: Node)
    requires Route(edges, from, path, to)
    ensures path != []
  {}

  /** An impact: where it comes from, by a shortest route within the depth, what arrives of the first shock
      listed there, and a fifth less and more. */
  ghost predicate Delivered(shocks: seq<Shock>, edges: seq<Edge>, maxDepth: int, m: Impact) {
    && (exists shock :: FirstListed(shocks, m.origin, shock) && Arrives(shock, m.path, m.value)
          && ((forall e :: e in m.path ==> Proportional(e)) ==> m.value == Times(Product(m.path), shock)))
    && Route(edges, m.origin, m.path, m.subject) && |m.path| <= maxDepth
    && (forall path :: Route(edges, m.origin, path, m.subject) ==> |m.path| <= |path|)
    && m.low == m.value * 0.8 && m.high == m.value * 1.2
  }

  ghost predicate Hits(impacts: seq<Impact>, origin: Node, subject: Node) {
    exists m :: m in impacts && m.origin == origin && m.subject == subject
  }

  lemma VisitDelivered(shocks: seq<Shock>, edges: seq<Edge>, maxDepth: nat, visits: seq<Item>, v: Item, value: real)
    requires BreadthFirst(edges, Origins(shocks), maxDepth, visits) && v in visits
    requires Fold(FirstShock(shocks, v.origin), v.path) == Some(value)
    ensures Delivered(shocks, edges, maxDepth, ImpactOf(v, value))
  {
    hide Fold, Ball, Chain, Route, Arrives, FirstListed, Simple, FirstShock, Origins, Times;
    var shock := FirstShock(shocks, v.origin);
    FirstShockIsFirst(shocks, v.origin);
    FoldArrives(shock, v.path);
    ChainIsRoute(edges, v.origin, v.path, v.node);
    if forall e :: e in v.path ==> Proportional(e) { ArrivesInProportion(shock, v.path); }
    forall path | Route(edges, v.origin, path, v.node) ensures |v.path| <= |path| {
      RouteNotEmpty(edges, v.origin, path, v.node);
      if |path| < |v.path| && v.node != v.origin { BallIffRoute(edges, v.origin, |v.path| - 1, v.node); }
    }
  }

  /** The whole propagation by the edges' own fields: the depths it refuses, every impact, and that each
      node some route within the depth leads to is hit once from each origin, the origin itself just when
      an edge joins it to itself. */
  lemma PropagationDelivers(shocks: seq<Shock>, edges: seq<Edge>, maxDepth: int)
    ensures var r := Propagation(shocks, edges, maxDepth);
      && (r.InvalidDepth? <==> maxDepth < 1 || 8 < maxDepth)
      && (r.Impacts? ==>
            && (forall m :: m in r.impacts ==> Delivered(shocks, edges, maxDepth, m))
            && (forall i, j :: 0 <= i < j < |r.impacts| ==>
                  r.impacts[i].origin != r.impacts[j].origin || r.impacts[i].subject != r.impacts[j].subject)
            && forall s, t :: s in shocks ==>
                 (Hits(r.impacts, s.target, t) <==> Reachable(edges, s.target, t, maxDepth)))
  {
    hide Visits, Fold, BreadthFirst, Delivered, Reachable;
    if 1 <= maxDepth <= 8 {
      var visits, r := Visits(shocks, edges, maxDepth), Propagation(shocks, edges, maxDepth);
      PropagationIsExact(shocks, edges, maxDepth);
      if r.Impacts? {
        assert r.impacts == Valued(shocks, visits);
        forall m | m in r.impacts ensures Delivered(shocks, edges, maxDepth, m) {
          var i :| 0 <= i < |visits| && r.impacts[i] == m;
          VisitDelivered(shocks, edges, maxDepth, visits, visits[i], m.value);
        }
        OncePerOrigin(edges, Origins(shocks), maxDepth, visits);
        assert forall i :: 0 <= i < |visits| ==> visits[i].Key() == (r.impacts[i].origin, r.impacts[i].subject);
        forall s, t | s in shocks ensures Hits(r.impacts, s.target, t) <==> Reachable(edges, s.target, t, maxDepth) {
          HitIffVisited(shocks, visits, r.impacts, s.target, t);
          VisitedIffReachable(edges, Origins(shocks), maxDepth, visits, s.target, t);
        }
      }
    }
  }

  ghost predicate Reachable(edges: seq<Edge>, from: Node, to: Node, maxDepth: int) {
    if from == to then exists e :: e in edges && e.supported && 0.0 < e.confidence && e.source == e.target == from
    else exists path :: |path| <= maxDepth && Route(edges, from, path, to)
  }

  lemma OncePerOrigin(edges: seq<Edge>, origins: set<Node>, maxDepth: nat, visits: seq<Item>)
    requires BreadthFirst(edges, origins, maxDepth, visits)
    ensures forall i, j :: 0 <= i < j < |visits| ==> visits[i].Key() != visits[j].Key()
  {}

  lemma HitIffVisited(shocks: seq<Shock>, visits: seq<Item>, impacts: seq<Impact>, o: Node, t: Node)
    requires |impacts| == |visits|
    requires forall i :: 0 <= i < |visits| ==>
      impacts[i].origin == visits[i].origin && impacts[i].subject == visits[i].node
    ensures Hits(impacts, o, t) <==> (o, t) in Keys(visits)
  {
    if Hits(impacts, o, t) {
      var i :| 0 <= i < |impacts| && impacts[i].origin == o && impacts[i].subject == t;
      assert visits[i] in visits && visits[i].Key() == (o, t);
    }
    if (o, t) in Keys(visits) {
      var i :| 0 <= i < |visits| && visits[i].Key() == (o, t);
      assert impacts[i] in impacts;
    }
  }

  lemma VisitedIffReachable(edges: seq<Edge>, origins: set<Node>, maxDepth: nat, visits: seq<Item>, o: Node, t: Node)
    requires BreadthFirst(edges, origins, maxDepth, visits) && o in origins
    ensures (o, t) in Keys(visits) <==> Reachable(edges, o, t, maxDepth)
  {
    hide Ball, Chain, Route, Simple, Keys;
    if o != t { BallIffRoute(edges, o, maxDepth, t); }
  }

  // ---------------------------------------------------------------- in which order

  /** The edges out of a node come in the order listed, and are those that are supported with a
      positive confidence. */
  lemma {:induction false} AdjacentInOrder(xs: seq<Edge>, ys: seq<Edge>, node: Node)
    ensures Adjacent(xs + ys, node) == Adjacent(xs, node) + Adjacent(ys, node)
  {
    hide Adjacent;
    if ys == [] {
      assert xs + ys == xs;
      NoneAdjacent(node);
    } else {
      var front, last := ys[..|ys| - 1], ys[|ys| - 1];
      AdjacentInOrder(xs, front, node);
      AdjacentNext(xs + front, last, node);
      AdjacentNext(front, last, node);
      assert xs + ys == xs + front + [last] && ys == front + [last];
    }
  }

  lemma NoneAdjacent(node: Node)
    ensures Adjacent([], node) == []
  {}

  lemma AdjacentNext(edges: seq<Edge>, e: Edge, node: Node)
    ensures Adjacent(edges + [e], node) == Adjacent(edges, node) + Adjacent([e], node)
    ensures Adjacent([e], node) == if e.supported && 0.0 < e.confidence && e.source == node then [e] else []
  {
    assert (edges + [e])[..|edges|] == edges && [e][..0] == [];
    assert Adjacent([], node) == [];
  }

  /** The `i`-th edge is the first to a target not yet taken and not on the way there. */
  ghost predicate Takes(item: Item, out: seq<Edge>, marked: set<(Node, Node)>, i: nat)
    requires i < |out|
  {
    && (item.origin, out[i].target) !in marked
    && (forall e :: e in item.path ==> e.source != out[i].target)
    && forall j :: 0 <= j < i ==> out[j].target != out[i].target
  }

  /** These are the places of the edges that the item takes, in order. */
  ghost predicate TakesInOrder(item: Item, out: seq<Edge>, marked: set<(Node, Node)>, chosen: seq<nat>) {
    && (forall n :: 0 <= n < |chosen| ==> chosen[n] < |out|)
    && (forall m, n :: 0 <= m < n < |chosen| ==> chosen[m] < chosen[n])
    && forall i: nat :: i < |out| ==> (i in chosen <==> Takes(item, out, marked, i))
  }

  /** An item is continued along the edges it takes, in order. */
  ghost predicate Continues(item: Item, out: seq<Edge>, chosen: seq<nat>, added: seq<Item>) {
    && |added| == |chosen|
    && forall n :: 0 <= n < |chosen| ==>
         chosen[n] < |out|
         && added[n] == Item(item.origin, out[chosen[n]].target, item.path + [out[chosen[n]]])
  }

  lemma {:induction false} FanTakesFirst(item: Item, out: seq<Edge>, marked: set<(Node, Node)>)
    returns (chosen: seq<nat>)
    ensures TakesInOrder(item, out, marked, chosen) && Continues(item, out, chosen, Fan(item, out, marked))
  {
    hide TakesInOrder, Continues, Fan;
    if out == [] {
      chosen := [];
      NothingTaken(item, marked);
    } else {
      var front, e := out[..|out| - 1], out[|out| - 1];
      chosen := FanTakesFirst(item, front, marked);
      chosen := TakesNext(item, front, e, marked, chosen);
      assert front + [e] == out;
    }
  }

  lemma NothingTaken(item: Item, marked: set<(Node, Node)>)
    ensures TakesInOrder(item, [], marked, []) && Continues(item, [], [], Fan(item, [], marked))
  {}

  lemma TakesNext(item: Item, front: seq<Edge>, e: Edge, marked: set<(Node, Node)>, before: seq<nat>)
    returns (chosen: seq<nat>)
    requires TakesInOrder(item, front, marked, before) && Continues(item, front, before, Fan(item, front, marked))
    ensures TakesInOrder(item, front + [e], marked, chosen)
    ensures Continues(item, front + [e], chosen, Fan(item, front + [e], marked))
  {
    hide Fan, Continues, TakesInOrder, Keys;
    var added, n := Fan(item, front, marked), |front|;
    FanNext(item, front, e, marked);
    if (item.origin, e.target) in marked || OnPath(e.target, item.path) {
      chosen := before;
      NotTaken(item, front, e, marked, before, added);
    } else {
      TakenBefore(item, front, marked, before, added, e.target);
      if (item.origin, e.target) in Keys(added) {
        chosen := before;
        NotTaken(item, front, e, marked, before, added);
      } else {
        chosen := before + [n];
        Taken(item, front, e, marked, before, added);
      }
    }
  }

  lemma FanNext(item: Item, front: seq<Edge>, e: Edge, marked: set<(Node, Node)>)
    ensures Fan(item, front + [e], marked) ==
      if (item.origin, e.target) in marked + Keys(Fan(item, front, marked)) || OnPath(e.target, item.path)
      then Fan(item, front, marked)
      else Fan(item, front, marked) + [Item(item.origin, e.target, item.path + [e])]
  {
    assert (front + [e])[..|front|] == front;
  }

  lemma TakesSame(item: Item, front: seq<Edge>, e: Edge, marked: set<(Node, Node)>)
    ensures forall i: nat :: i < |front| ==> (Takes(item, front, marked, i) <==> Takes(item, front + [e], marked, i))
  {
    forall i: nat | i < |front| ensures Takes(item, front, marked, i) <==> Takes(item, front + [e], marked, i) {
      assert forall j :: 0 <= j <= i ==> (front + [e])[j] == front[j];
    }
  }

  lemma NotTaken(item: Item, front: seq<Edge>, e: Edge, marked: set<(Node, Node)>, before: seq<nat>, added: seq<Item>)
    requires TakesInOrder(item, front, marked, before) && Continues(item, front, before, added)
    requires (item.origin, e.target) in marked || OnPath(e.target, item.path)
      || exists j :: 0 <= j < |front| && front[j].target == e.target
    ensures TakesInOrder(item, front + [e], marked, before) && Continues(item, front + [e], before, added)
  {
    TakesSame(item, front, e, marked);
    assert !Takes(item, front + [e], marked, |front|) by {
      if j :| 0 <= j < |front| && front[j].target == e.target {
        assert (front + [e])[j].target == e.target;
      }
    }
    hide Takes;
  }

  lemma Taken(item: Item, front: seq<Edge>, e: Edge, marked: set<(Node, Node)>, before: seq<nat>, added: seq<Item>)
    requires TakesInOrder(item, front, marked, before) && Continues(item, front, before, added)
    requires (item.origin, e.target) !in marked && !OnPath(e.target, item.path)
    requires forall j :: 0 <= j < |front| ==> front[j].target != e.target
    ensures TakesInOrder(item, front + [e], marked, before + [|front|])
    ensures Continues(item, front + [e], before + [|front|], added + [Item(item.origin, e.target, item.path + [e])])
  {
    TakesSame(item, front, e, marked);
    assert Takes(item, front + [e], marked, |front|);
    hide Takes;
    assert forall i: nat :: i in before + [|front|] <==> i in before || i == |front|;
  }

  /** Where every target is marked, on the path or free, a target is added exactly when an edge takes it. */
  lemma TakenBefore(item: Item, out: seq<Edge>, marked: set<(Node, Node)>, chosen: seq<nat>, added: seq<Item>, t: Node)
    requires Continues(item, out, chosen, added) && added == Fan(item, out, marked)
    requires (item.origin, t) !in marked && !OnPath(t, item.path)
    ensures (item.origin, t) in Keys(added) <==> exists j :: 0 <= j < |out| && out[j].target == t
  {
    if (item.origin, t) in Keys(added) {
      var n :| 0 <= n < |added| && added[n].Key() == (item.origin, t);
      assert out[chosen[n]].target == t;
    }
    if j :| 0 <= j < |out| && out[j].target == t { assert out[j] in out; }
  }

  /** The queue is first in, first out: after the first `n` items of roots and impacts are served. */
  ghost function Served(edges: seq<Edge>, maxDepth: nat, items: seq<Item>, n: nat): seq<Item>
    requires n <= |items|
  {
    if n == 0 then []
    else
      var before, item := Served(edges, maxDepth, items, n - 1), items[n - 1];
      if |item.path| >= maxDepth then before
      else before + Fan(item, Adjacent(edges, item.node), Keys(before))
  }

  lemma {:induction false} ServedSame(edges: seq<Edge>, maxDepth: nat, items: seq<Item>, more: seq<Item>, n: nat)
    requires n <= |items|
    ensures Served(edges, maxDepth, items + more, n) == Served(edges, maxDepth, items, n)
  {
    hide Fan, Adjacent, Keys;
    if n > 0 { ServedSame(edges, maxDepth, items, more, n - 1); }
  }

  lemma {:induction false} WalkServes(edges: seq<Edge>, maxDepth: nat, origins: set<Node>, roots: seq<Item>, n: nat,
                                      visits: seq<Item>)
    requires n <= |roots + visits| && FromOrigins((roots + visits)[n..], origins)
    requires Served(edges, maxDepth, roots + visits, n) == visits
    ensures var all := visits + Walk(edges, maxDepth, origins, (roots + visits)[n..], Keys(visits));
      Served(edges, maxDepth, roots + all, |roots + all|) == all
    decreases Markable(edges, origins) - Keys(visits), |roots + visits| - n
  {
    hide Fan, Adjacent, Walk, Markable, Served, Keys, FromOrigins;
    var queue := (roots + visits)[n..];
    if queue == [] {
      WalkDone(edges, maxDepth, origins, Keys(visits));
      assert visits + [] == visits;
    } else {
      var item := queue[0];
      WalkStep(edges, maxDepth, origins, queue, Keys(visits));
      assert queue[1..] == (roots + visits)[n + 1..];
      ServeNext(edges, maxDepth, roots + visits, n);
      QueueFromOrigins(queue, origins);
      if |item.path| >= maxDepth {
        WalkServes(edges, maxDepth, origins, roots, n + 1, visits);
      } else {
        var added := Fan(item, Adjacent(edges, item.node), Keys(visits));
        AddedMarkable(edges, origins, item, added, Keys(visits));
        KeysConcat(visits, added);
        Appended(edges, maxDepth, origins, roots, n + 1, visits, added, queue[1..]);
        WalkServes(edges, maxDepth, origins, roots, n + 1, visits + added);
        Regrouped(visits, added, Walk(edges, maxDepth, origins, queue[1..] + added, Keys(visits + added)));
      }
    }
  }

  lemma QueueFromOrigins(queue: seq<Item>, origins: set<Node>)
    requires queue != [] && FromOrigins(queue, origins)
    ensures queue[0].origin in origins && FromOrigins(queue[1..], origins)
  {
    assert queue[0] in queue;
  }

  lemma Appended(edges: seq<Edge>, maxDepth: nat, origins: set<Node>, roots: seq<Item>, n: nat, visits: seq<Item>,
                 added: seq<Item>, rest: seq<Item>)
    requires n <= |roots + visits| && rest == (roots + visits)[n..]
    requires FromOrigins(rest, origins) && FromOrigins(added, origins)
    ensures rest + added == (roots + (visits + added))[n..] && FromOrigins(rest + added, origins)
    ensures Served(edges, maxDepth, roots + (visits + added), n) == Served(edges, maxDepth, roots + visits, n)
    ensures added == [] ==> visits + added == visits
  {
    assert roots + visits + added == roots + (visits + added);
    ServedSame(edges, maxDepth, roots + visits, added, n);
  }

  lemma Regrouped(xs: seq<Item>, ys: seq<Item>, zs: seq<Item>)
    ensures xs + ys + zs == xs + (ys + zs)
  {}

  lemma ServeNext(edges: seq<Edge>, maxDepth: nat, items: seq<Item>, n: nat)
    requires n < |items|
    ensures var before := Served(edges, maxDepth, items, n);
      Served(edges, maxDepth, items, n + 1) ==
        if |items[n].path| >= maxDepth then before
        else before + Fan(items[n], Adjacent(edges, items[n].node), Keys(before))
  {}

  /** The impacts come in the order in which the roots and then the impacts themselves are served. */
  lemma VisitsAreServed(shocks: seq<Shock>, edges: seq<Edge>, maxDepth: nat)
    ensures var visits := Visits(shocks, edges, maxDepth);
      var roots := seq(|shocks|, i requires 0 <= i < |shocks| => Item(shocks[i].target, shocks[i].target, []));
      visits == Served(edges, maxDepth, roots + visits, |roots + visits|)
  {
    hide Walk, Served;
    var roots := Roots(shocks);
    assert (roots + [])[0..] == roots && Keys([]) == {};
    NothingServed(edges, maxDepth, roots + []);
    RootsFromOrigins(shocks);
    WalkServes(edges, maxDepth, Origins(shocks), roots, 0, []);
    assert [] + Visits(shocks, edges, maxDepth) == Visits(shocks, edges, maxDepth);
  }

  lemma NothingServed(edges: seq<Edge>, maxDepth: nat, items: seq<Item>)
    ensures Served(edges, maxDepth, items, 0) == []
  {}
}
