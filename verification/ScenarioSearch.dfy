/** The propagation is an exact breadth-first search from every origin at once. */
module ScenarioSearch {
  import opened Options
  import opened ScenarioModel

  // ---------------------------------------------------------------- the distances meant

  /** Nodes at most `k` live edges away from `origin`. */
  ghost function Ball(edges: seq<Edge>, origin: Node, k: nat): set<Node> {
    if k == 0 then {origin}
    else
      var near := Ball(edges, origin, k - 1);
      near + set e | e in edges && e.Live() && e.source in near :: e.target
  }

  /** A chain of live edges from one node to another. */
  ghost predicate Chain(edges: seq<Edge>, from: Node, path: seq<Edge>, to: Node) {
    if path == [] then from == to
    else
      var last := path[|path| - 1];
      last in edges && last.Live() && last.target == to && Chain(edges, from, path[..|path| - 1], last.source)
  }

  lemma {:induction false} ChainInBall(edges: seq<Edge>, from: Node, path: seq<Edge>, to: Node)
    requires Chain(edges, from, path, to)
    ensures to in Ball(edges, from, |path|)
  {
    if path != [] { ChainInBall(edges, from, path[..|path| - 1], path[|path| - 1].source); }
  }

  lemma {:induction false} BallGrows(edges: seq<Edge>, origin: Node, j: nat, k: nat)
    requires j <= k
    ensures Ball(edges, origin, j) <= Ball(edges, origin, k)
    decreases k
  {
    if j < k { BallGrows(edges, origin, j, k - 1); }
  }

  // ---------------------------------------------------------------- the search invariant

  /** The state of the search: `visits` have been output, `expanded` have had their edges tried. */
  datatype State = State(queue: seq<Item>, visits: seq<Item>, expanded: set<(Node, Node)>)

  ghost predicate Known(s: State, origins: set<Node>, i: Item) {
    i in s.visits || (i.path == [] && i.node == i.origin && i.origin in origins)
  }

  ghost predicate Sorted(queue: seq<Item>) {
    forall i, j :: 0 <= i < j < |queue| ==> |queue[i].path| <= |queue[j].path| <= |queue[0].path| + 1
  }

  /** An expanded node has handed its edges on: every target is the origin or has been visited,
      along a path no longer than one edge more. */
  ghost predicate HandedOn(edges: seq<Edge>, s: State, origin: Node, node: Node, depth: nat) {
    forall e :: e in edges && e.Live() && e.source == node ==>
      e.target == origin || exists v :: v in s.visits && v.Key() == (origin, e.target) && |v.path| <= depth + 1
  }

  ghost predicate SelfLoopSeen(edges: seq<Edge>, s: State, origin: Node) {
    (exists e :: e in edges && e.Live() && e.source == origin && e.target == origin) ==>
      exists v :: v in s.visits && v.Key() == (origin, origin)
  }

  /** Shape of one visit: a chain of live edges from its origin, of bounded length, whose nodes
      are the origin or visited themselves; it revisits nothing unless it is a self-loop. */
  ghost predicate GoodVisit(edges: seq<Edge>, s: State, origins: set<Node>, maxDepth: nat, v: Item) {
    && v.origin in origins
    && 1 <= |v.path| <= maxDepth
    && Chain(edges, v.origin, v.path, v.node)
    && (forall e :: e in v.path ==> e.source == v.origin || (v.origin, e.source) in Keys(s.visits))
    && (v.node == v.origin ==> |v.path| == 1)
    && Simple(v)
  }

  /** No node repeats along the path, but for a self-loop on the origin. */
  ghost predicate Simple(v: Item) {
    && (forall i, j :: 0 <= i < j < |v.path| ==> v.path[i].source != v.path[j].source)
    && (v.node != v.origin ==> !OnPath(v.node, v.path))
  }

  /** The queue is in order of depth and holds only roots and visits; visits are good. */
  ghost predicate Shape(edges: seq<Edge>, s: State, origins: set<Node>, maxDepth: nat) {
    && Sorted(s.queue)
    && (forall i :: i in s.queue ==> Known(s, origins, i))
    && (forall i, j :: 0 <= i < j < |s.visits| ==> s.visits[i].Key() != s.visits[j].Key())
    && (forall v :: v in s.visits ==> GoodVisit(edges, s, origins, maxDepth, v))
    && (s.queue != [] ==> forall v :: v in s.visits ==> |v.path| <= |s.queue[0].path| + 1)
    && (forall v :: v in s.visits && |v.path| < maxDepth ==> v in s.queue || v.Key() in s.expanded)
    && (forall o :: o in origins ==> Item(o, o, []) in s.queue || (o, o) in s.expanded)
  }

  /** Expanded nodes were visited, or are origins, and have handed their edges on. */
  ghost predicate Handed(edges: seq<Edge>, s: State) {
    && (forall o, n :: (o, n) in s.expanded && n != o ==> (o, n) in Keys(s.visits))
    && (forall o :: (o, o) in s.expanded ==> HandedOn(edges, s, o, o, 0) && SelfLoopSeen(edges, s, o))
    && (forall v :: v in s.visits && v.Key() in s.expanded && v.node != v.origin ==>
          HandedOn(edges, s, v.origin, v.node, |v.path|))
  }

  ghost predicate Inv(edges: seq<Edge>, s: State, origins: set<Node>, maxDepth: nat) {
    Shape(edges, s, origins, maxDepth) && Handed(edges, s)
  }

  lemma StartInv(edges: seq<Edge>, shocks: seq<Shock>, maxDepth: nat)
    ensures Inv(edges, State(Roots(shocks), [], {}), Origins(shocks), maxDepth)
  {
    forall o | o in Origins(shocks) ensures Item(o, o, []) in Roots(shocks) {
      var s :| s in shocks && s.target == o;
      var i :| 0 <= i < |shocks| && shocks[i] == s;
      assert Roots(shocks)[i] == Item(o, o, []);
    }
  }

  lemma HandedOnGrows(edges: seq<Edge>, s: State, s': State, origin: Node, node: Node, depth: nat)
    requires HandedOn(edges, s, origin, node, depth) && forall v :: v in s.visits ==> v in s'.visits
    ensures HandedOn(edges, s', origin, node, depth)
  {
    forall e | e in edges && e.Live() && e.source == node
      ensures e.target == origin || exists v :: v in s'.visits && v.Key() == (origin, e.target) && |v.path| <= depth + 1
    {
      if e.target != origin {
        var v :| v in s.visits && v.Key() == (origin, e.target) && |v.path| <= depth + 1;
        assert v in s'.visits;
      }
    }
  }

  lemma {:induction false} ChainStart(edges: seq<Edge>, from: Node, path: seq<Edge>, to: Node)
    requires Chain(edges, from, path, to) && path != []
    ensures path[0].source == from
  {
    if |path| > 1 { ChainStart(edges, from, path[..|path| - 1], path[|path| - 1].source); }
  }

  // ---------------------------------------------------------------- one item off the queue

  /** An item whose node was expanded before, or that is too deep, adds nothing. */
  lemma DropKeepsInv(edges: seq<Edge>, s: State, origins: set<Node>, maxDepth: nat)
    requires Inv(edges, s, origins, maxDepth) && 1 <= maxDepth && s.queue != []
    requires |s.queue[0].path| >= maxDepth || s.queue[0].Key() in s.expanded
    ensures Inv(edges, s.(queue := s.queue[1..]), origins, maxDepth)
  {
    var item, s' := s.queue[0], s.(queue := s.queue[1..]);
    assert forall i :: i in s.queue <==> i == item || i in s'.queue;
    forall v | v in s'.visits ensures GoodVisit(edges, s', origins, maxDepth, v) {
      assert GoodVisit(edges, s, origins, maxDepth, v);
    }
    forall o, node, depth | HandedOn(edges, s, o, node, depth) ensures HandedOn(edges, s', o, node, depth) {
      HandedOnGrows(edges, s, s', o, node, depth);
    }
    forall o | (o, o) in s.expanded ensures SelfLoopSeen(edges, s', o) { assert SelfLoopSeen(edges, s, o); }
    if s'.queue != [] { assert |item.path| <= |s'.queue[0].path|; }
  }

  predicate Blocked(item: Item, e: Edge, marked: set<(Node, Node)>) {
    (item.origin, e.target) in marked || OnPath(e.target, item.path)
  }

  lemma {:induction false} FanBlocked(item: Item, out: seq<Edge>, marked: set<(Node, Node)>)
    requires forall e :: e in out ==> Blocked(item, e, marked)
    ensures Fan(item, out, marked) == []
  {
    if out != [] {
      assert out[|out| - 1] in out;
      FanBlocked(item, out[..|out| - 1], marked);
    }
  }

  lemma ExpandedAddsNothing(edges: seq<Edge>, s: State, origins: set<Node>, maxDepth: nat)
    requires Inv(edges, s, origins, maxDepth) && s.queue != [] && s.queue[0].Key() in s.expanded
    ensures Fan(s.queue[0], Adjacent(edges, s.queue[0].node), Keys(s.visits)) == []
  {
    var item := s.queue[0];
    assert item in s.queue && Known(s, origins, item);
    if item.path != [] {
      assert GoodVisit(edges, s, origins, maxDepth, item);
      ChainStart(edges, item.origin, item.path, item.node);
      assert item.path[0] in item.path;
    }
    var depth := if item.node == item.origin then 0 else |item.path|;
    assert HandedOn(edges, s, item.origin, item.node, depth);
    assert item.node == item.origin ==> SelfLoopSeen(edges, s, item.origin);
    forall e | e in Adjacent(edges, item.node) ensures Blocked(item, e, Keys(s.visits)) {
      if e.target == item.origin {
        assert item.path != [] ==> OnPath(e.target, item.path);
      }
    }
    FanBlocked(item, Adjacent(edges, item.node), Keys(s.visits));
  }

  lemma RootComesFirst(queue: seq<Item>, root: Item)
    requires Sorted(queue) && root in queue && root.path == []
    ensures queue[0].path == []
  {
    var i :| 0 <= i < |queue| && queue[i] == root;
  }

  /** The first item of the queue, not expanded before, is a root or a visit off the origin. */
  lemma FreshItem(edges: seq<Edge>, s: State, origins: set<Node>, maxDepth: nat)
    requires Inv(edges, s, origins, maxDepth) && s.queue != [] && s.queue[0].Key() !in s.expanded
    ensures var item := s.queue[0];
      && item.origin in origins
      && Chain(edges, item.origin, item.path, item.node)
      && (item.path == [] ==> item.node == item.origin)
      && (item.path != [] ==> item in s.visits && item.node != item.origin)
      && (item.path != [] ==> GoodVisit(edges, s, origins, maxDepth, item) && item.path[0].source == item.origin)
  {
    var item := s.queue[0];
    assert item in s.queue && Known(s, origins, item);
    if item.path != [] {
      assert GoodVisit(edges, s, origins, maxDepth, item);
      ChainStart(edges, item.origin, item.path, item.node);
    }
    if item.node == item.origin { RootComesFirst(s.queue, Item(item.origin, item.origin, [])); }
  }

  lemma AddedIsGood(edges: seq<Edge>, s: State, origins: set<Node>, maxDepth: nat, a: Item)
    requires Inv(edges, s, origins, maxDepth) && s.queue != [] && s.queue[0].Key() !in s.expanded
    requires |s.queue[0].path| < maxDepth
    requires a in Fan(s.queue[0], Adjacent(edges, s.queue[0].node), Keys(s.visits))
    ensures GoodVisit(edges, s, origins, maxDepth, a) && |a.path| == |s.queue[0].path| + 1
    ensures a.origin == s.queue[0].origin
  {
    hide Inv;
    var item := s.queue[0];
    FreshItem(edges, s, origins, maxDepth);
    var e :| e in Adjacent(edges, item.node) && a == Item(item.origin, e.target, item.path + [e])
      && !OnPath(e.target, item.path);
    ExtendGood(edges, s, origins, maxDepth, item, e, a);
  }

  lemma ExtendGood(edges: seq<Edge>, s: State, origins: set<Node>, maxDepth: nat, item: Item, e: Edge, a: Item)
    requires item.origin in origins && Chain(edges, item.origin, item.path, item.node) && |item.path| < maxDepth
    requires item.path == [] ==> item.node == item.origin
    requires item.path != [] ==> item in s.visits && item.node != item.origin
    requires item.path != [] ==> GoodVisit(edges, s, origins, maxDepth, item) && item.path[0].source == item.origin
    requires e in edges && e.Live() && e.source == item.node && !OnPath(e.target, item.path)
    requires a == Item(item.origin, e.target, item.path + [e]) && a.Key() !in Keys(s.visits)
    ensures GoodVisit(edges, s, origins, maxDepth, a)
  {
    hide Chain, Simple, OnPath;
    ChainSnoc(edges, item.origin, item.path, item.node, e);
    if item.path != [] {
      KeyOfVisit(s.visits, item);
      SimpleSnoc(item, e);
    } else {
      SimpleOne(item, e);
    }
    assert forall x :: x in a.path <==> x in item.path || x == e;
    assert a.node == a.origin ==> item.path == [] by {
      if item.path != [] { FirstOnPath(item.path); }
    }
  }

  lemma FirstOnPath(path: seq<Edge>)
    requires path != []
    ensures OnPath(path[0].source, path)
  {
    assert path[0] in path;
  }

  lemma KeyOfVisit(visits: seq<Item>, item: Item)
    requires item in visits
    ensures item.Key() in Keys(visits)
  {}

  lemma ChainSnoc(edges: seq<Edge>, from: Node, path: seq<Edge>, to: Node, e: Edge)
    requires Chain(edges, from, path, to) && e in edges && e.Live() && e.source == to
    ensures Chain(edges, from, path + [e], e.target)
  {
    assert (path + [e])[..|path|] == path;
  }

  lemma SimpleOne(item: Item, e: Edge)
    requires item.path == [] && e.source == item.origin
    ensures Simple(Item(item.origin, e.target, item.path + [e]))
  {
    assert item.path + [e] == [e];
  }

  lemma SimpleSnoc(item: Item, e: Edge)
    requires Simple(item) && item.node != item.origin && e.source == item.node
    requires !OnPath(e.target, item.path) && e.target != item.node
    ensures Simple(Item(item.origin, e.target, item.path + [e]))
  {
    var path := item.path + [e];
    assert forall i :: 0 <= i < |item.path| ==> item.path[i] in item.path;
    assert forall x :: x in path <==> x in item.path || x == e;
    forall i, j | 0 <= i < j < |path| ensures path[i].source != path[j].source {
      if j == |item.path| { assert path[i] == item.path[i]; }
    }
  }

  lemma ExpandSorted(queue: seq<Item>, added: seq<Item>)
    requires queue != [] && Sorted(queue) && forall a :: a in added ==> |a.path| == |queue[0].path| + 1
    ensures Sorted(queue[1..] + added)
  {
    var queue' := queue[1..] + added;
    forall i, j | 0 <= i < j < |queue'| ensures |queue'[i].path| <= |queue'[j].path| <= |queue'[0].path| + 1 {
      assert j >= |queue| - 1 ==> queue'[j] in added;
      assert i >= |queue| - 1 ==> queue'[i] in added;
      assert |queue| > 1 ==> queue'[0] == queue[1];
      assert |queue| == 1 ==> queue'[0] in added;
    }
  }

  lemma ExpandDistinct(visits: seq<Item>, added: seq<Item>)
    requires forall i, j :: 0 <= i < j < |visits| ==> visits[i].Key() != visits[j].Key()
    requires forall i, j :: 0 <= i < j < |added| ==> added[i].Key() != added[j].Key()
    requires forall a :: a in added ==> a.Key() !in Keys(visits)
    ensures forall i, j :: 0 <= i < j < |visits + added| ==> (visits + added)[i].Key() != (visits + added)[j].Key()
  {
    var all := visits + added;
    forall i, j | 0 <= i < j < |all| ensures all[i].Key() != all[j].Key() {
      if i < |visits| <= j {
        assert all[j] in added && all[i] in visits && all[i].Key() in Keys(visits);
      }
    }
  }

  lemma VisitOf(visits: seq<Item>, key: (Node, Node)) returns (v: Item)
    requires key in Keys(visits)
    ensures v in visits && v.Key() == key
  {
    v :| v in visits && v.Key() == key;
  }

  /** The expanded item hands its edges on. */
  lemma ExpandHandsOn(edges: seq<Edge>, s: State, s': State, origins: set<Node>, maxDepth: nat, added: seq<Item>)
    requires Inv(edges, s, origins, maxDepth) && s.queue != [] && s.queue[0].Key() !in s.expanded
    requires |s.queue[0].path| < maxDepth && s'.visits == s.visits + added
    requires added == Fan(s.queue[0], Adjacent(edges, s.queue[0].node), Keys(s.visits))
    ensures HandedOn(edges, s', s.queue[0].origin, s.queue[0].node, |s.queue[0].path|)
    ensures s.queue[0].path == [] ==> SelfLoopSeen(edges, s', s.queue[0].origin)
  {
    var item := s.queue[0];
    FreshItem(edges, s, origins, maxDepth);
    forall e | e in edges && e.Live() && e.source == item.node
      ensures (e.target == item.origin && item.path != [])
           || exists v :: v in s'.visits && v.Key() == (item.origin, e.target) && |v.path| <= |item.path| + 1
    {
      assert e in Adjacent(edges, item.node);
      var key := (item.origin, e.target);
      if key in Keys(added) {
        var v := VisitOf(added, key);
        AddedIsGood(edges, s, origins, maxDepth, v);
        assert v in s'.visits;
      } else if key in Keys(s.visits) {
        var v := VisitOf(s.visits, key);
        assert v in s'.visits;
      } else {
        var x :| x in item.path && x.source == e.target;
        assert GoodVisit(edges, s, origins, maxDepth, item);
      }
    }
  }

  lemma AllAddedGood(edges: seq<Edge>, s: State, origins: set<Node>, maxDepth: nat, added: seq<Item>)
    requires Inv(edges, s, origins, maxDepth) && s.queue != [] && s.queue[0].Key() !in s.expanded
    requires |s.queue[0].path| < maxDepth
    requires added == Fan(s.queue[0], Adjacent(edges, s.queue[0].node), Keys(s.visits))
    ensures forall a :: a in added ==>
      GoodVisit(edges, s, origins, maxDepth, a) && |a.path| == |s.queue[0].path| + 1 && a.origin == s.queue[0].origin
  {
    forall a | a in added
      ensures GoodVisit(edges, s, origins, maxDepth, a) && |a.path| == |s.queue[0].path| + 1
        && a.origin == s.queue[0].origin
    {
      AddedIsGood(edges, s, origins, maxDepth, a);
    }
  }

  lemma GoodVisitGrows(edges: seq<Edge>, s: State, s': State, origins: set<Node>, maxDepth: nat, v: Item)
    requires GoodVisit(edges, s, origins, maxDepth, v) && Keys(s.visits) <= Keys(s'.visits)
    ensures GoodVisit(edges, s', origins, maxDepth, v)
  {}

  lemma ExpandKeepsVisits(edges: seq<Edge>, s: State, s': State, origins: set<Node>, maxDepth: nat, added: seq<Item>)
    requires forall v :: v in s.visits ==> GoodVisit(edges, s, origins, maxDepth, v)
    requires forall v :: v in added ==> GoodVisit(edges, s, origins, maxDepth, v)
    requires s'.visits == s.visits + added
    ensures forall v :: v in s'.visits ==> GoodVisit(edges, s', origins, maxDepth, v)
  {
    hide GoodVisit;
    assert Keys(s.visits) <= Keys(s'.visits);
    forall v | v in s'.visits ensures GoodVisit(edges, s', origins, maxDepth, v) {
      GoodVisitGrows(edges, s, s', origins, maxDepth, v);
    }
  }

  lemma ExpandKeepsHandedOn(edges: seq<Edge>, s: State, s': State, added: seq<Item>)
    requires s'.visits == s.visits + added
    ensures forall o, node, depth :: HandedOn(edges, s, o, node, depth) ==> HandedOn(edges, s', o, node, depth)
    ensures forall o :: SelfLoopSeen(edges, s, o) ==> SelfLoopSeen(edges, s', o)
  {
    assert forall v :: v in s.visits ==> v in s'.visits;
    forall o, node, depth | HandedOn(edges, s, o, node, depth) ensures HandedOn(edges, s', o, node, depth) {
      HandedOnGrows(edges, s, s', o, node, depth);
    }
  }

  ghost function Expanded(s: State, added: seq<Item>): State
    requires s.queue != []
  {
    State(s.queue[1..] + added, s.visits + added, s.expanded + {s.queue[0].Key()})
  }

  lemma ExpandKeepsShape(edges: seq<Edge>, s: State, origins: set<Node>, maxDepth: nat, added: seq<Item>)
    requires Inv(edges, s, origins, maxDepth) && s.queue != [] && s.queue[0].Key() !in s.expanded
    requires |s.queue[0].path| < maxDepth
    requires added == Fan(s.queue[0], Adjacent(edges, s.queue[0].node), Keys(s.visits))
    ensures Shape(edges, Expanded(s, added), origins, maxDepth)
  {
    hide GoodVisit, Handed, Fan, Keys, Known, Sorted;
    var s' := Expanded(s, added);
    AllAddedGood(edges, s, origins, maxDepth, added);
    ExpandSorted(s.queue, added);
    ExpandDistinct(s.visits, added);
    ExpandKeepsVisits(edges, s, s', origins, maxDepth, added);
    ExpandCovers(s, s', origins, maxDepth, added);
  }

  lemma ExpandKeepsHanded(edges: seq<Edge>, s: State, origins: set<Node>, maxDepth: nat, added: seq<Item>)
    requires Inv(edges, s, origins, maxDepth) && s.queue != [] && s.queue[0].Key() !in s.expanded
    requires |s.queue[0].path| < maxDepth
    requires added == Fan(s.queue[0], Adjacent(edges, s.queue[0].node), Keys(s.visits))
    ensures Handed(edges, Expanded(s, added))
  {
    hide GoodVisit, HandedOn, SelfLoopSeen, Fan, Keys, Known, Sorted, Chain;
    var s' := Expanded(s, added);
    FreshItem(edges, s, origins, maxDepth);
    ExpandDistinct(s.visits, added);
    ExpandKeepsHandedOn(edges, s, s', added);
    ExpandHandsOn(edges, s, s', origins, maxDepth, added);
    ExpandKeys(s, s', added);
    forall v | v in s'.visits && v.Key() in s'.expanded && v.node != v.origin
      ensures HandedOn(edges, s', v.origin, v.node, |v.path|)
    {
      ExpandedVisit(s, s', added, v);
    }
  }

  lemma ExpandKeys(s: State, s': State, added: seq<Item>)
    requires s.queue != [] && s'.visits == s.visits + added && s'.expanded == s.expanded + {s.queue[0].Key()}
    requires s.queue[0].path == [] || s.queue[0] in s.visits
    requires s.queue[0].path == [] ==> s.queue[0].node == s.queue[0].origin
    requires forall o, n :: (o, n) in s.expanded && n != o ==> (o, n) in Keys(s.visits)
    ensures forall o, n :: (o, n) in s'.expanded && n != o ==> (o, n) in Keys(s'.visits)
  {
    assert forall v :: v in s.visits ==> v in s'.visits;
  }

  /** A visit whose key is expanded was expanded before, or is the one expanded now. */
  lemma ExpandedVisit(s: State, s': State, added: seq<Item>, v: Item)
    requires s.queue != [] && s'.visits == s.visits + added && s'.expanded == s.expanded + {s.queue[0].Key()}
    requires s.queue[0].path == [] ==> s.queue[0].node == s.queue[0].origin
    requires s.queue[0].path != [] ==> s.queue[0] in s.visits
    requires forall i, j :: 0 <= i < j < |s'.visits| ==> s'.visits[i].Key() != s'.visits[j].Key()
    requires forall a :: a in added ==> a.Key() !in Keys(s.visits)
    requires forall o, n :: (o, n) in s.expanded && n != o ==> (o, n) in Keys(s.visits)
    requires v in s'.visits && v.Key() in s'.expanded && v.node != v.origin
    ensures v == s.queue[0] || (v in s.visits && v.Key() in s.expanded)
  {
    if v.Key() in s.expanded {
      assert v in s.visits || v in added;
    } else {
      assert s.queue[0] in s'.visits;
      var i :| 0 <= i < |s'.visits| && s'.visits[i] == v;
      var j :| 0 <= j < |s'.visits| && s'.visits[j] == s.queue[0];
    }
  }

  /** What the queue, the visits and the expanded nodes owe each other after an expansion. */
  lemma ExpandCovers(s: State, s': State, origins: set<Node>, maxDepth: nat, added: seq<Item>)
    requires s.queue != [] && Sorted(s.queue)
    requires s' == State(s.queue[1..] + added, s.visits + added, s.expanded + {s.queue[0].Key()})
    requires forall a :: a in added ==> |a.path| == |s.queue[0].path| + 1
    requires forall i :: i in s.queue ==> Known(s, origins, i)
    requires forall v :: v in s.visits ==> |v.path| <= |s.queue[0].path| + 1
    requires forall v :: v in s.visits && |v.path| < maxDepth ==> v in s.queue || v.Key() in s.expanded
    requires forall o :: o in origins ==> Item(o, o, []) in s.queue || (o, o) in s.expanded
    ensures forall i :: i in s'.queue ==> Known(s', origins, i)
    ensures s'.queue != [] ==> forall v :: v in s'.visits ==> |v.path| <= |s'.queue[0].path| + 1
    ensures forall v :: v in s'.visits && |v.path| < maxDepth ==> v in s'.queue || v.Key() in s'.expanded
    ensures forall o :: o in origins ==> Item(o, o, []) in s'.queue || (o, o) in s'.expanded
  {
    assert forall i :: i in s.queue <==> i == s.queue[0] || i in s.queue[1..];
    assert forall i :: i in s'.queue <==> i in s.queue[1..] || i in added;
    assert forall v :: v in s'.visits <==> v in s.visits || v in added;
    if s'.queue != [] {
      assert s'.queue[0] in s.queue[1..] ==> |s.queue[0].path| <= |s'.queue[0].path| by {
        if |s.queue| > 1 { assert s'.queue[0] == s.queue[1]; }
      }
      assert |s.queue| == 1 ==> s'.queue[0] in added;
    }
  }

  /** Expanding a fresh item. */
  lemma ExpandKeepsInv(edges: seq<Edge>, s: State, origins: set<Node>, maxDepth: nat, added: seq<Item>)
    requires Inv(edges, s, origins, maxDepth) && s.queue != [] && s.queue[0].Key() !in s.expanded
    requires |s.queue[0].path| < maxDepth
    requires added == Fan(s.queue[0], Adjacent(edges, s.queue[0].node), Keys(s.visits))
    ensures Inv(edges, Expanded(s, added), origins, maxDepth)
  {
    hide Shape, Handed, Fan;
    ExpandKeepsShape(edges, s, origins, maxDepth, added);
    ExpandKeepsHanded(edges, s, origins, maxDepth, added);
  }

  // ---------------------------------------------------------------- the whole search

  /** Running the queue dry keeps the invariant and outputs exactly what Walk says. */
  lemma {:induction false} WalkKeepsInv(edges: seq<Edge>, maxDepth: nat, origins: set<Node>, s: State)
    returns (end: State)
    requires 1 <= maxDepth && Inv(edges, s, origins, maxDepth) && FromOrigins(s.queue, origins)
    ensures end.queue == [] && Inv(edges, end, origins, maxDepth)
    ensures end.visits == s.visits + Walk(edges, maxDepth, origins, s.queue, Keys(s.visits))
    decreases Markable(edges, origins) - Keys(s.visits), |s.queue|
  {
    hide Inv, Fan, Adjacent, Markable;
    if s.queue == [] {
      end := s;
    } else if |s.queue[0].path| >= maxDepth {
      DropKeepsInv(edges, s, origins, maxDepth);
      end := WalkKeepsInv(edges, maxDepth, origins, s.(queue := s.queue[1..]));
    } else {
      var added := Fan(s.queue[0], Adjacent(edges, s.queue[0].node), Keys(s.visits));
      AddedMarkable(edges, origins, s.queue[0], added, Keys(s.visits));
      KeysConcat(s.visits, added);
      if s.queue[0].Key() in s.expanded {
        ExpandedAddsNothing(edges, s, origins, maxDepth);
        DropKeepsInv(edges, s, origins, maxDepth);
        assert s.queue[1..] + added == s.queue[1..];
        end := WalkKeepsInv(edges, maxDepth, origins, s.(queue := s.queue[1..]));
      } else {
        ExpandKeepsInv(edges, s, origins, maxDepth, added);
        end := WalkKeepsInv(edges, maxDepth, origins, Expanded(s, added));
      }
    }
  }

  lemma KeysConcat(xs: seq<Item>, ys: seq<Item>)
    ensures Keys(xs + ys) == Keys(xs) + Keys(ys)
  {
    assert forall v :: v in xs + ys <==> v in xs || v in ys;
  }

  /** With the queue empty, everything that could be expanded has been. */
  ghost predicate Settled(edges: seq<Edge>, s: State, origins: set<Node>, maxDepth: nat) {
    && (forall o :: o in origins ==> HandedOn(edges, s, o, o, 0))
    && (forall v :: v in s.visits && |v.path| < maxDepth && v.node != v.origin ==>
          HandedOn(edges, s, v.origin, v.node, |v.path|))
  }

  lemma InvSettled(edges: seq<Edge>, s: State, origins: set<Node>, maxDepth: nat)
    requires Inv(edges, s, origins, maxDepth) && s.queue == []
    ensures Settled(edges, s, origins, maxDepth)
  {
    hide GoodVisit, HandedOn;
  }

  ghost predicate VisitedWithin(s: State, o: Node, t: Node, k: nat) {
    exists v :: v in s.visits && v.Key() == (o, t) && |v.path| <= k
  }

  /** At the end, every node within `k` edges of an origin was visited along at most `k` edges. */
  lemma {:induction false} WithinIsVisited(edges: seq<Edge>, s: State, origins: set<Node>, maxDepth: nat,
                                           o: Node, k: nat, t: Node)
    requires Settled(edges, s, origins, maxDepth) && o in origins && k <= maxDepth
    requires t in Ball(edges, o, k) && t != o
    ensures VisitedWithin(s, o, t, k)
  {
    if k > 0 {
      if t in Ball(edges, o, k - 1) {
        WithinIsVisited(edges, s, origins, maxDepth, o, k - 1, t);
      } else {
        var e :| e in edges && e.Live() && e.source in Ball(edges, o, k - 1) && e.target == t;
        if e.source == o {
          assert HandedOn(edges, s, o, o, 0);
        } else {
          WithinIsVisited(edges, s, origins, maxDepth, o, k - 1, e.source);
          var v :| v in s.visits && v.Key() == (o, e.source) && |v.path| <= k - 1;
          assert HandedOn(edges, s, o, e.source, |v.path|);
        }
      }
    }
  }

  ghost predicate SelfLoop(edges: seq<Edge>, o: Node) {
    exists e :: e in edges && e.Live() && e.source == o && e.target == o
  }

  /** What an exact breadth-first search from every origin outputs: each (origin, node) once,
      along a simple chain of live edges of shortest length; and for each origin, precisely the
      other nodes at distance 1 to `maxDepth`, with the origin itself just when it loops. */
  ghost predicate BreadthFirst(edges: seq<Edge>, origins: set<Node>, maxDepth: nat, visits: seq<Item>) {
    && (forall i, j :: 0 <= i < j < |visits| ==> visits[i].Key() != visits[j].Key())
    && (forall v :: v in visits ==>
          && v.origin in origins && 1 <= |v.path| <= maxDepth
          && Chain(edges, v.origin, v.path, v.node) && Simple(v)
          && (v.node != v.origin ==> v.node !in Ball(edges, v.origin, |v.path| - 1))
          && (v.node == v.origin ==> |v.path| == 1))
    && (forall o, t :: o in origins ==>
          ((o, t) in Keys(visits) <==> if t == o then SelfLoop(edges, o) else t in Ball(edges, o, maxDepth)))
  }

  lemma KeyIsUnique(visits: seq<Item>, v: Item, w: Item)
    requires forall i, j :: 0 <= i < j < |visits| ==> visits[i].Key() != visits[j].Key()
    requires v in visits && w in visits && v.Key() == w.Key()
    ensures v == w
  {
    var i :| 0 <= i < |visits| && visits[i] == v;
    var j :| 0 <= j < |visits| && visits[j] == w;
    assert !(i < j) && !(j < i);
  }

  lemma FinalShortest(edges: seq<Edge>, s: State, origins: set<Node>, maxDepth: nat, v: Item)
    requires Inv(edges, s, origins, maxDepth) && s.queue == [] && v in s.visits && v.node != v.origin
    ensures v.path != [] && v.node !in Ball(edges, v.origin, |v.path| - 1)
  {
    hide Ball, Chain, HandedOn;
    assert GoodVisit(edges, s, origins, maxDepth, v);
    InvSettled(edges, s, origins, maxDepth);
    if v.node in Ball(edges, v.origin, |v.path| - 1) {
      WithinIsVisited(edges, s, origins, maxDepth, v.origin, |v.path| - 1, v.node);
      var w :| w in s.visits && w.Key() == v.Key() && |w.path| <= |v.path| - 1;
      KeyIsUnique(s.visits, v, w);
    }
  }

  lemma FinalCovers(edges: seq<Edge>, s: State, origins: set<Node>, maxDepth: nat, o: Node, t: Node)
    requires 1 <= maxDepth && Inv(edges, s, origins, maxDepth) && s.queue == [] && o in origins
    ensures (o, t) in Keys(s.visits) <==> if t == o then SelfLoop(edges, o) else t in Ball(edges, o, maxDepth)
  {
    hide Ball, HandedOn;
    InvSettled(edges, s, origins, maxDepth);
    if (o, t) in Keys(s.visits) {
      var v := VisitOf(s.visits, (o, t));
      assert GoodVisit(edges, s, origins, maxDepth, v);
      ChainInBall(edges, o, v.path, t);
      BallGrows(edges, o, |v.path|, maxDepth);
      if t == o { ChainStart(edges, o, v.path, t); }
    } else if t == o {
      assert SelfLoopSeen(edges, s, o);
    } else if t in Ball(edges, o, maxDepth) {
      WithinIsVisited(edges, s, origins, maxDepth, o, maxDepth, t);
    }
  }

  /** The propagation's outputs are an exact breadth-first search of the supported edges. */
  lemma VisitsAreBreadthFirst(shocks: seq<Shock>, edges: seq<Edge>, maxDepth: nat)
    requires 1 <= maxDepth
    ensures BreadthFirst(edges, Origins(shocks), maxDepth, Visits(shocks, edges, maxDepth))
  {
    hide Walk, Roots, Ball;
    var origins, start := Origins(shocks), State(Roots(shocks), [], {});
    StartInv(edges, shocks, maxDepth);
    RootsFromOrigins(shocks);
    var end := WalkKeepsInv(edges, maxDepth, origins, start);
    assert Keys(start.visits) == {};
    assert end.visits == Visits(shocks, edges, maxDepth);
    forall v | v in end.visits && v.node != v.origin ensures v.node !in Ball(edges, v.origin, |v.path| - 1) {
      FinalShortest(edges, end, origins, maxDepth, v);
    }
    forall v | v in end.visits ensures GoodVisit(edges, end, origins, maxDepth, v) {}
    forall o, t | o in origins
      ensures (o, t) in Keys(end.visits) <==> if t == o then SelfLoop(edges, o) else t in Ball(edges, o, maxDepth)
    {
      FinalCovers(edges, end, origins, maxDepth, o, t);
    }
  }

  lemma RootsFromOrigins(shocks: seq<Shock>)
    ensures FromOrigins(Roots(shocks), Origins(shocks))
  {
    forall r | r in Roots(shocks) ensures r.origin in Origins(shocks) {
      var i :| 0 <= i < |shocks| && Roots(shocks)[i] == r;
      assert shocks[i] in shocks;
    }
  }

  // ---------------------------------------------------------------- outputs

  predicate Supported(e: Edge) { !e.kind.Unsupported? }

  lemma {:induction false} FoldSupported(shock: real, path: seq<Edge>)
    ensures Fold(shock, path).Some? <==> forall e :: e in path ==> Supported(e)
  {
    if path != [] {
      var front, last := path[..|path| - 1], path[|path| - 1];
      FoldSupported(shock, front);
      assert last in path && forall e :: e in front ==> e in path;
      assert forall e :: e in path ==> e in front || e == last;
    }
  }

  /** The whole propagation: it fails just when some path it walks has an unsupported function,
      and otherwise outputs the breadth-first visits in order, each with the first shock listed
      on its origin folded along its path. */
  lemma PropagationIsExact(shocks: seq<Shock>, edges: seq<Edge>, maxDepth: int)
    requires 1 <= maxDepth <= 8
    ensures var visits, r := Visits(shocks, edges, maxDepth), Propagation(shocks, edges, maxDepth);
      && BreadthFirst(edges, Origins(shocks), maxDepth, visits)
      && (r.UnsupportedFunction? <==> exists v, e :: v in visits && e in v.path && !Supported(e))
      && (!r.UnsupportedFunction? ==>
            && r.Impacts? && |r.impacts| == |visits|
            && forall i :: 0 <= i < |visits| ==>
                 && r.impacts[i].origin == visits[i].origin && r.impacts[i].subject == visits[i].node
                 && r.impacts[i].path == visits[i].path
                 && Fold(FirstShock(shocks, visits[i].origin), visits[i].path) == Some(r.impacts[i].value))
  {
    hide Visits, BreadthFirst, Fold, FirstShock;
    var visits := Visits(shocks, edges, maxDepth);
    VisitsAreBreadthFirst(shocks, edges, maxDepth);
    forall v | v in visits
      ensures Fold(FirstShock(shocks, v.origin), v.path).Some? <==> forall e :: e in v.path ==> Supported(e)
    {
      FoldSupported(FirstShock(shocks, v.origin), v.path);
    }
    if Traversable(shocks, visits) {
      forall i | 0 <= i < |visits| ensures Fold(FirstShock(shocks, visits[i].origin), visits[i].path).Some? {
        assert visits[i] in visits;
      }
    }
  }
}
