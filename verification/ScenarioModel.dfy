/** Scenario propagation: how a shock spreads through the supported relationships, and what
    value it has on arrival.  Floats are reals. */
module ScenarioModel {
  import opened Options

  type Node = string

  datatype Kind =
    | Linear | BoundedLinear | Threshold | Lagged | WeightedExposure | CapacityWeighted | LocationWeighted
    | BinaryDisruption | Unsupported(name: string)

  /** Missing fields stand at the defaults the propagation gives them. */
  datatype Edge = Edge(
    source: Node, target: Node, supported: bool, confidence: real, weight: real, kind: Kind,
    lagDiscount: real, bound: real, threshold: real)
  {
    predicate Live() { supported && confidence > 0.0 }
  }

  datatype Shock = Shock(target: Node, value: real)

  function Abs(x: real): real { if x < 0.0 then -x else x }
  function Clamp(x: real, bound: real): real { if x > bound then bound else if x < -bound then -bound else x }

  /** The transmitted value; None is the unsupported-function error. */
  function TransmissionValue(kind: Kind, shock: real, weight: real, lagDiscount: real, bound: real, threshold: real)
    : Option<real>
  {
    Shaped(kind, shock, Raw(shock, weight, lagDiscount), weight, bound, threshold)
  }

  function Raw(shock: real, weight: real, lagDiscount: real): real { shock * weight * lagDiscount }

  function Shaped(kind: Kind, shock: real, raw: real, weight: real, bound: real, threshold: real): Option<real> {
    match kind
    case Linear => Some(raw)
    case BoundedLinear => Some(Clamp(raw, Abs(bound)))
    case Threshold => Some(if Abs(shock) >= Abs(threshold) then raw else 0.0)
    case Lagged | WeightedExposure | CapacityWeighted | LocationWeighted => Some(raw)
    case BinaryDisruption => Some(if shock != 0.0 then weight else 0.0)
    case Unsupported(_) => None
  }

  function Transmit(e: Edge, value: real): Option<real> {
    TransmissionValue(e.kind, value, Gain(e), e.lagDiscount, e.bound, e.threshold)
  }

  function Gain(e: Edge): real { e.weight * e.confidence }

  /** The value a shock has after passing along a path; None when some function is unsupported. */
  function Fold(shock: real, path: seq<Edge>): Option<real> {
    if path == [] then Some(shock)
    else
      match Fold(shock, path[..|path| - 1])
      case None => None
      case Some(value) => Transmit(path[|path| - 1], value)
  }

  /** The shock that counts for an origin is the first one listed on it. */
  function FirstShock(shocks: seq<Shock>, origin: Node): real {
    if shocks == [] then 0.0
    else if shocks[0].target == origin then shocks[0].value
    else FirstShock(shocks[1..], origin)
  }

  // ---------------------------------------------------------------- the search, without values

  /** A node reached from an origin along a path; its depth is the path's length. */
  datatype Item = Item(origin: Node, node: Node, path: seq<Edge>) {
    function Key(): (Node, Node) { (origin, node) }
  }

  function Roots(shocks: seq<Shock>): seq<Item> {
    seq(|shocks|, i requires 0 <= i < |shocks| => Item(shocks[i].target, shocks[i].target, []))
  }

  /** The live edges out of a node, in the order listed. */
  function Adjacent(edges: seq<Edge>, node: Node): (out: seq<Edge>)
    ensures forall e :: e in out <==> e in edges && e.Live() && e.source == node
  {
    if edges == [] then []
    else
      var last := edges[|edges| - 1];
      assert edges == edges[..|edges| - 1] + [last];
      Adjacent(edges[..|edges| - 1], node) + if last.Live() && last.source == node then [last] else []
  }

  predicate OnPath(node: Node, path: seq<Edge>) { exists e :: e in path && e.source == node }

  /** The items one item adds when its edges are tried in order. */
  function Fan(item: Item, out: seq<Edge>, marked: set<(Node, Node)>): (added: seq<Item>)
    ensures forall a :: a in added ==> a.origin == item.origin && a.Key() !in marked
    ensures forall i, j :: 0 <= i < j < |added| ==> added[i].Key() != added[j].Key()
    ensures forall a :: a in added ==>
      exists e :: e in out && a == Item(item.origin, e.target, item.path + [e]) && !OnPath(e.target, item.path)
    ensures forall e :: e in out ==>
      (item.origin, e.target) in marked + Keys(added) || OnPath(e.target, item.path)
  {
    if out == [] then []
    else
      var e, front := out[|out| - 1], Fan(item, out[..|out| - 1], marked);
      assert out == out[..|out| - 1] + [e];
      if (item.origin, e.target) in marked + Keys(front) || OnPath(e.target, item.path) then front
      else front + [Item(item.origin, e.target, item.path + [e])]
  }

  function Keys(items: seq<Item>): set<(Node, Node)> { set i | i in items :: i.Key() }

  function Markable(edges: seq<Edge>, origins: set<Node>): set<(Node, Node)> {
    set o, e | o in origins && e in edges :: (o, e.target)
  }

  ghost predicate FromOrigins(queue: seq<Item>, origins: set<Node>) {
    forall i :: i in queue ==> i.origin in origins
  }

  /** Everything the queue still adds, in order. */
  function Walk(edges: seq<Edge>, maxDepth: nat, ghost origins: set<Node>, queue: seq<Item>, marked: set<(Node, Node)>)
    : (visits: seq<Item>)
    requires FromOrigins(queue, origins)
    decreases Markable(edges, origins) - marked, |queue|
  {
    if queue == [] then []
    else if |queue[0].path| >= maxDepth then Walk(edges, maxDepth, origins, queue[1..], marked)
    else
      var added := Fan(queue[0], Adjacent(edges, queue[0].node), marked);
      AddedMarkable(edges, origins, queue[0], added, marked);
      added + Walk(edges, maxDepth, origins, queue[1..] + added, marked + Keys(added))
  }

  lemma AddedMarkable(edges: seq<Edge>, origins: set<Node>, item: Item, added: seq<Item>, marked: set<(Node, Node)>)
    requires item.origin in origins && added == Fan(item, Adjacent(edges, item.node), marked)
    ensures FromOrigins(added, origins)
    ensures added == [] || Markable(edges, origins) - (marked + Keys(added)) < Markable(edges, origins) - marked
    ensures added == [] ==> Keys(added) == {} && marked + Keys(added) == marked
  {
    if added != [] {
      var a := added[0];
      assert a in added && a.Key() in Keys(added);
      var e :| e in Adjacent(edges, item.node) && a == Item(item.origin, e.target, item.path + [e])
        && !OnPath(e.target, item.path);
      assert e in edges;
      assert a.Key() in Markable(edges, origins) - marked;
    }
  }

  function Origins(shocks: seq<Shock>): set<Node> { set s | s in shocks :: s.target }

  /** Every impact's origin, subject and path, in the order they are output. */
  function Visits(shocks: seq<Shock>, edges: seq<Edge>, maxDepth: nat): seq<Item> {
    Walk(edges, maxDepth, Origins(shocks), Roots(shocks), {})
  }

  // ---------------------------------------------------------------- outputs

  /** One output record: the value on arrival, the path to it and the uncertainty range. */
  datatype Impact = Impact(origin: Node, subject: Node, value: real, path: seq<Edge>, low: real, high: real)

  function ImpactOf(item: Item, value: real): Impact {
    Impact(item.origin, item.node, value, item.path, value * 0.8, value * 1.2)
  }

  datatype Result = InvalidDepth | UnsupportedFunction | Impacts(impacts: seq<Impact>)

  predicate Traversable(shocks: seq<Shock>, visits: seq<Item>) {
    forall v :: v in visits ==> Fold(FirstShock(shocks, v.origin), v.path).Some?
  }

  function Valued(shocks: seq<Shock>, visits: seq<Item>): seq<Impact>
    requires Traversable(shocks, visits)
  {
    seq(|visits|, i requires 0 <= i < |visits| =>
      ImpactOf(visits[i], Fold(FirstShock(shocks, visits[i].origin), visits[i].path).value))
  }

  function Propagation(shocks: seq<Shock>, edges: seq<Edge>, maxDepth: int): Result {
    if !(1 <= maxDepth <= 8) then InvalidDepth
    else
      var visits := Visits(shocks, edges, maxDepth);
      if Traversable(shocks, visits) then Impacts(Valued(shocks, visits)) else UnsupportedFunction
  }
}
