/** The queue-driven traversal, proved to return exactly the simple visible paths. */
module GraphTraversal {
  import opened GraphModel

  datatype Outcome =
    | InvalidLimits
    | StartNotVisible
    | NodeLimitExceeded
    | Found(nodes: set<EntityId>, relationships: set<RelationshipId>, paths: seq<Path>)

  predicate LimitsValid(q: Query) { 1 <= q.maxDepth <= 5 && 1 <= q.maxNodes <= 500 }

  ghost predicate NoRepeats<T>(xs: seq<T>) {
    forall i, j :: 0 <= i < j < |xs| ==> xs[i] != xs[j]
  }

  // ---------------------------------------------------------------- levels are simple paths

  lemma {:induction false} LevelSound(g: Graph, q: Query, k: nat)
    ensures forall p :: p in Level(g, q, k) ==> SimplePath(g, q, p)
  {
    if k > 0 {
      LevelSound(g, q, k - 1);
      forall p, e | p in Level(g, q, k - 1) && e in Extensions(g, q, p) ensures SimplePath(g, q, e) {
        var link :| link in g.relationships && Extends(g, q, p, link) && e == Extension(g, p, link);
        assert SimplePath(g, q, p);
        forall i | 0 <= i < |e.links| ensures Hop(g, q, e.nodes[i], e.links[i], e.nodes[i + 1]) {
          if i < |p.links| { assert Hop(g, q, p.nodes[i], p.links[i], p.nodes[i + 1]); }
        }
      }
    }
  }

  lemma {:induction false} LevelComplete(g: Graph, q: Query, p: Path)
    requires SimplePath(g, q, p)
    ensures p in Level(g, q, p.Depth())
    decreases p.Depth()
  {
    hide SimplePath, Extends;
    SimpleIsValid(g, q, p);
    if p.links == [] {
      ShortIsRoot(g, q, p);
    } else {
      ParentIsSimple(g, q, p);
      LevelComplete(g, q, p.Parent());
      LastHopExtends(g, q, p);
      assert p in Extensions(g, q, p.Parent());
    }
  }

  lemma ShortIsRoot(g: Graph, q: Query, p: Path)
    requires SimplePath(g, q, p) && p.links == []
    ensures p == Root(q)
  {}

  lemma SimpleIsValid(g: Graph, q: Query, p: Path)
    requires SimplePath(g, q, p)
    ensures p.Valid()
  {}

  lemma ParentIsSimple(g: Graph, q: Query, p: Path)
    requires SimplePath(g, q, p) && p.links != []
    ensures SimplePath(g, q, p.Parent())
  {
    hide Hop;
    var front := p.Parent();
    forall i | 0 <= i < |front.links| ensures Hop(g, q, front.nodes[i], front.links[i], front.nodes[i + 1]) {
      assert Hop(g, q, p.nodes[i], p.links[i], p.nodes[i + 1]);
    }
  }

  lemma LastHopExtends(g: Graph, q: Query, p: Path)
    requires SimplePath(g, q, p) && p.links != []
    ensures var link := p.links[|p.links| - 1];
      link in g.relationships && Extends(g, q, p.Parent(), link) && p == Extension(g, p.Parent(), link)
  {
    var front, n := p.Parent(), |p.links| - 1;
    assert Hop(g, q, p.nodes[n], p.links[n], p.nodes[n + 1]);
    assert p.nodes == front.nodes + [p.nodes[n + 1]] && p.links == front.links + [p.links[n]];
  }

  lemma {:induction false} PathsAreLevels(g: Graph, q: Query, k: nat)
    ensures forall p :: p in Paths(g, q, k) <==> p.Valid() && 1 <= p.Depth() <= k && p in Level(g, q, p.Depth())
  {
    hide Level;
    if k > 0 { PathsAreLevels(g, q, k - 1); }
  }

  /** The paths of length 1 to `k` are exactly the simple visible paths of those lengths. */
  lemma PathsAreSimplePaths(g: Graph, q: Query, k: nat)
    ensures forall p :: p in Paths(g, q, k) <==> SimplePath(g, q, p) && 1 <= p.Depth() <= k
  {
    PathsAreLevels(g, q, k);
    forall p ensures p in Paths(g, q, k) <==> SimplePath(g, q, p) && 1 <= p.Depth() <= k {
      if p in Paths(g, q, k) { LevelSound(g, q, p.Depth()); }
      if SimplePath(g, q, p) { LevelComplete(g, q, p); }
    }
  }

  // ---------------------------------------------------------------- hops

  /** Entities at most `k` visible hops away, by any walk. */
  ghost function WithinHops(g: Graph, q: Query, k: nat): set<EntityId> {
    if k == 0 then {q.start}
    else
      var near := WithinHops(g, q, k - 1);
      near + set x, link | x in near && link in g.relationships
               && Hop(g, q, x, link, OtherEnd(g.relationships[link], x))
               :: OtherEnd(g.relationships[link], x)
  }

  ghost predicate Leads(g: Graph, q: Query, p: Path, x: EntityId, k: nat) {
    SimplePath(g, q, p) && p.Depth() <= k && p.Last() == x
  }

  lemma Truncate(g: Graph, q: Query, p: Path, i: nat)
    requires SimplePath(g, q, p) && i < |p.nodes|
    ensures Leads(g, q, Path(p.nodes[..i + 1], p.links[..i]), p.nodes[i], i)
  {
    var t := Path(p.nodes[..i + 1], p.links[..i]);
    forall j | 0 <= j < |t.links| ensures Hop(g, q, t.nodes[j], t.links[j], t.nodes[j + 1]) {
      assert Hop(g, q, p.nodes[j], p.links[j], p.nodes[j + 1]);
    }
  }

  lemma ThenSimple(g: Graph, q: Query, p: Path, link: RelationshipId, x: EntityId)
    requires SimplePath(g, q, p) && Hop(g, q, p.Last(), link, x) && x !in p.nodes
    ensures Leads(g, q, p.Then(link, x), x, p.Depth() + 1)
  {
    var t := p.Then(link, x);
    forall j | 0 <= j < |t.links| ensures Hop(g, q, t.nodes[j], t.links[j], t.nodes[j + 1]) {
      if j < |p.links| { assert Hop(g, q, p.nodes[j], p.links[j], p.nodes[j + 1]); }
    }
  }

  /** One more hop from the end of a simple path, cutting the path where it meets itself. */
  lemma HopOn(g: Graph, q: Query, p: Path, link: RelationshipId, x: EntityId) returns (t: Path)
    requires SimplePath(g, q, p) && Hop(g, q, p.Last(), link, x)
    ensures Leads(g, q, t, x, p.Depth() + 1)
  {
    hide Hop;
    if x in p.nodes {
      var i :| 0 <= i < |p.nodes| && p.nodes[i] == x;
      Truncate(g, q, p, i);
      t := Path(p.nodes[..i + 1], p.links[..i]);
    } else {
      ThenSimple(g, q, p, link, x);
      t := p.Then(link, x);
    }
  }

  /** An entity within `k` hops lies at the end of a simple path of length at most `k`. */
  lemma {:induction false} WalkToPath(g: Graph, q: Query, k: nat, x: EntityId) returns (p: Path)
    requires x in WithinHops(g, q, k)
    ensures Leads(g, q, p, x, k)
  {
    hide Hop, SimplePath, WithinHops;
    if k == 0 {
      p := Root(q);
      RootIsSimple(g, q);
      WithinNoHops(g, q);
    } else if x in WithinHops(g, q, k - 1) {
      p := WalkToPath(g, q, k - 1, x);
    } else {
      var y, link := LastHop(g, q, k, x);
      var toY := WalkToPath(g, q, k - 1, y);
      SimpleIsValid(g, q, toY);
      p := HopOn(g, q, toY, link, x);
    }
  }

  lemma WithinNoHops(g: Graph, q: Query)
    ensures WithinHops(g, q, 0) == {q.start}
  {}

  lemma LastHop(g: Graph, q: Query, k: nat, x: EntityId) returns (y: EntityId, link: RelationshipId)
    requires k > 0 && x in WithinHops(g, q, k) && x !in WithinHops(g, q, k - 1)
    ensures y in WithinHops(g, q, k - 1) && Hop(g, q, y, link, x)
  {
    hide Hop;
    y, link :| y in WithinHops(g, q, k - 1) && link in g.relationships
      && Hop(g, q, y, link, OtherEnd(g.relationships[link], y)) && x == OtherEnd(g.relationships[link], y);
  }

  lemma RootIsSimple(g: Graph, q: Query)
    ensures SimplePath(g, q, Root(q))
  {}

  lemma {:induction false} PathToWalk(g: Graph, q: Query, p: Path, k: nat)
    requires SimplePath(g, q, p) && p.Depth() <= k
    ensures p.Last() in WithinHops(g, q, k)
    decreases k
  {
    if k > 0 {
      if p.Depth() < k {
        PathToWalk(g, q, p, k - 1);
      } else {
        var n := |p.links| - 1;
        Truncate(g, q, p, n);
        PathToWalk(g, q, Path(p.nodes[..n + 1], p.links[..n]), k - 1);
        assert Hop(g, q, p.nodes[n], p.links[n], p.nodes[n + 1]);
      }
    }
  }

  /** The nodes returned are exactly the entities at most `k` visible hops from the start. */
  lemma ReachedIsWithinHops(g: Graph, q: Query, k: nat)
    ensures Reached(g, q, k) == WithinHops(g, q, k)
  {
    PathsAreSimplePaths(g, q, k);
    forall x ensures x in Reached(g, q, k) <==> x in WithinHops(g, q, k) {
      if x in WithinHops(g, q, k) {
        var p := WalkToPath(g, q, k, x);
        if p.links != [] { assert p in Paths(g, q, k); }
      }
      if x in Reached(g, q, k) {
        if x == q.start {
          assert SimplePath(g, q, Root(q));
          PathToWalk(g, q, Root(q), k);
        } else {
          var p :| p in Paths(g, q, k) && p.Last() == x;
          PathToWalk(g, q, p, k);
        }
      }
    }
  }

  // ---------------------------------------------------------------- the loop

  ghost function Universe(g: Graph, q: Query): set<Path>
    requires LimitsValid(q)
  {
    {Root(q)} + Paths(g, q, q.maxDepth)
  }

  lemma ExtensionInUniverse(g: Graph, q: Query, p: Path, link: RelationshipId)
    requires LimitsValid(q) && p in Universe(g, q) && p.Depth() < q.maxDepth
    requires link in g.relationships && p.Valid() && Extends(g, q, p, link)
    ensures Extension(g, p, link) in Paths(g, q, q.maxDepth)
  {
    PathsAreLevels(g, q, q.maxDepth);
    assert p in Level(g, q, p.Depth());
    assert Extension(g, p, link) in Extensions(g, q, p);
  }

  ghost function Members(paths: seq<Path>): set<Path> { set p | p in paths }

  ghost function EndsOf(paths: seq<Path>): set<EntityId> {
    set p | p in paths && p.Valid() :: p.Last()
  }

  ghost function LastLinks(ps: set<Path>): set<RelationshipId> {
    set p | p in ps && p.links != [] :: p.links[|p.links| - 1]
  }

  /** Every extension of `p` along a link outside `rest` has been recorded. */
  ghost predicate Explored(g: Graph, q: Query, p: Path, rest: set<RelationshipId>, paths: seq<Path>)
    requires p.Valid()
  {
    forall link :: link in g.relationships && link !in rest && Extends(g, q, p, link) ==> Extension(g, p, link) in paths
  }

  /** The state of the traversal: `done` have been taken off the queue, and all of them but
      possibly `current`, which still has the links of `rest` to try, are fully explored. */
  ghost predicate Progress(g: Graph, q: Query, queue: seq<Path>, done: set<Path>, current: Path,
                           rest: set<RelationshipId>, paths: seq<Path>)
  {
    && LimitsValid(q)
    && NoRepeats(queue) && NoRepeats(paths)
    && (forall p :: p in queue ==> p !in done)
    && (forall p :: p in paths ==> p in Paths(g, q, q.maxDepth))
    && (forall p :: p in queue || p in done <==> p == Root(q) || p in paths)
    && (forall p :: p in paths ==> p.Valid() && p.links != [] && p.Parent() in done)
    && (forall p :: p in done && p.Valid() && p.Depth() < q.maxDepth && p != current ==> Explored(g, q, p, {}, paths))
    && (current in done && current.Valid() && current.Depth() < q.maxDepth ==>
          && Explored(g, q, current, rest, paths)
          && forall p :: p in paths && p.Parent() == current ==> p.links[|p.links| - 1] !in rest)
  }

  lemma {:induction false} DoneIsAll(g: Graph, q: Query, done: set<Path>, current: Path, paths: seq<Path>, k: nat)
    requires Progress(g, q, [], done, current, {}, paths) && k <= q.maxDepth
    ensures Level(g, q, k) <= done
  {
    if k > 0 {
      DoneIsAll(g, q, done, current, paths, k - 1);
      forall p, e | p in Level(g, q, k - 1) && e in Extensions(g, q, p) ensures e in done {
        assert Explored(g, q, p, {}, paths);
      }
    }
  }

  /** When the queue is empty, every path has been recorded. */
  lemma FinishedIsAll(g: Graph, q: Query, done: set<Path>, current: Path, paths: seq<Path>)
    requires Progress(g, q, [], done, current, {}, paths)
    ensures Members(paths) == Paths(g, q, q.maxDepth)
  {
    PathsAreLevels(g, q, q.maxDepth);
    forall p | p in Paths(g, q, q.maxDepth) ensures p in paths {
      DoneIsAll(g, q, done, current, paths, p.Depth());
    }
  }

  lemma {:induction false} LastLinksAreAll(g: Graph, q: Query, k: nat)
    ensures LinksOf(Paths(g, q, k)) == LastLinks(Paths(g, q, k))
  {
    PathsAreSimplePaths(g, q, k);
    var ps := Paths(g, q, k);
    forall link | link in LinksOf(ps) ensures link in LastLinks(ps) {
      var p :| p in ps && link in p.links;
      var i :| 0 <= i < |p.links| && p.links[i] == link;
      Truncate(g, q, p, i + 1);
      var t := Path(p.nodes[..i + 2], p.links[..i + 1]);
      assert t in ps && t.links[|t.links| - 1] == link;
    }
    forall link | link in LastLinks(ps) ensures link in LinksOf(ps) {
      var p :| p in ps && p.links != [] && p.links[|p.links| - 1] == link;
      assert link in p.links;
    }
  }

  /** Recording one more extension of the path being explored. */
  lemma RecordKeepsProgress(g: Graph, q: Query, queue: seq<Path>, done: set<Path>, current: Path,
                            rest: set<RelationshipId>, paths: seq<Path>, link: RelationshipId)
    requires Progress(g, q, queue, done, current, rest, paths)
    requires current in done && current in Universe(g, q) && current.Valid() && current.Depth() < q.maxDepth
    requires link in rest && link in g.relationships && Extends(g, q, current, link)
    ensures var e := Extension(g, current, link);
      Progress(g, q, queue + [e], done, current, rest - {link}, paths + [e])
  {
    hide Paths, Explored, SimplePath, Hop, EntityVisible, RelationshipVisible;
    var e := Extension(g, current, link);
    ExtensionInUniverse(g, q, current, link);
    ExploredMore(g, q, done, current, rest, paths, link);
    assert e.Parent() == current && e.links[|e.links| - 1] == link;
    assert e !in paths;
    RootHasNoParent(q, e);
    assert forall p :: p in paths + [e] <==> p in paths || p == e;
    assert forall p :: p in queue + [e] <==> p in queue || p == e;
  }

  lemma ExploredMore(g: Graph, q: Query, done: set<Path>, current: Path, rest: set<RelationshipId>, paths: seq<Path>,
                     link: RelationshipId)
    requires current.Valid() && link in g.relationships
    ensures var more := paths + [Extension(g, current, link)];
      && (forall p :: p in done && p.Valid() && Explored(g, q, p, {}, paths) ==> Explored(g, q, p, {}, more))
      && (Explored(g, q, current, rest, paths) ==> Explored(g, q, current, rest - {link}, more))
  {}

  lemma RootHasNoParent(q: Query, e: Path)
    requires e.links != []
    ensures e != Root(q)
  {}

  /** A link that leads nowhere new needs no record. */
  lemma SkipKeepsProgress(g: Graph, q: Query, queue: seq<Path>, done: set<Path>, current: Path,
                          rest: set<RelationshipId>, paths: seq<Path>, link: RelationshipId)
    requires Progress(g, q, queue, done, current, rest, paths) && current.Valid()
    requires !Extends(g, q, current, link)
    ensures Progress(g, q, queue, done, current, rest - {link}, paths)
  {}

  lemma EndsSnoc(paths: seq<Path>, e: Path)
    requires e.Valid() && e.links != []
    ensures EndsOf(paths + [e]) == EndsOf(paths) + {e.Last()}
    ensures LastLinks(Members(paths + [e])) == LastLinks(Members(paths)) + {e.links[|e.links| - 1]}
  {
    assert forall p :: p in paths + [e] <==> p in paths || p == e;
  }

  /** Everything visited is reachable, so more visits than allowed mean too many nodes. */
  lemma TooMany(g: Graph, q: Query, paths: seq<Path>, visited: set<EntityId>, next: EntityId)
    requires LimitsValid(q)
    requires forall p :: p in paths ==> p in Paths(g, q, q.maxDepth)
    requires visited == {q.start} + EndsOf(paths) && next !in visited && |visited| >= q.maxNodes
    requires next in Reached(g, q, q.maxDepth)
    ensures |Reached(g, q, q.maxDepth)| > q.maxNodes
  {
    var all := Reached(g, q, q.maxDepth);
    assert visited <= all;
    assert all == visited + {next} + (all - visited - {next});
  }

  method Expand(g: Graph, q: Query, current: Path, queue: seq<Path>, paths: seq<Path>, entities: set<EntityId>,
                links: set<RelationshipId>, ghost done: set<Path>)
    returns (ok: bool, queue': seq<Path>, paths': seq<Path>, entities': set<EntityId>, links': set<RelationshipId>)
    requires LimitsValid(q) && current in done && current in Universe(g, q)
    requires current.Valid() && current.Depth() < q.maxDepth
    requires Progress(g, q, queue, done, current, g.relationships.Keys, paths)
    requires entities == {q.start} + EndsOf(paths) && links == LastLinks(Members(paths)) && |entities| <= q.maxNodes
    ensures !ok ==> |Reached(g, q, q.maxDepth)| > q.maxNodes
    ensures ok ==> Progress(g, q, queue', done, current, {}, paths')
    ensures ok ==> entities' == {q.start} + EndsOf(paths') && links' == LastLinks(Members(paths'))
    ensures ok ==> |entities'| <= q.maxNodes
  {
    hide Progress, Universe, EndsOf, LastLinks, EntityVisible, RelationshipVisible;
    ok, queue', paths', entities', links' := true, queue, paths, entities, links;
    var node := current.Last();
    var edges := set link | link in g.relationships && RelationshipVisible(g, q, link)
        && Touches(g.relationships[link], node);
    ghost var rest := g.relationships.Keys;
    RestToEdges(g, q, queue, done, current, paths, edges);
    rest := edges;
    while edges != {}
      invariant edges <= g.relationships.Keys && rest == edges
      invariant forall link :: link in edges ==> RelationshipVisible(g, q, link) && Touches(g.relationships[link], node)
      invariant Progress(g, q, queue', done, current, rest, paths')
      invariant entities' == {q.start} + EndsOf(paths') && links' == LastLinks(Members(paths'))
      invariant |entities'| <= q.maxNodes
      decreases |edges|
    {
      var link :| link in edges;
      edges := edges - {link};
      var next := OtherEnd(g.relationships[link], node);
      if next in current.nodes || !EntityVisible(g, q, next) {
        SkipKeepsProgress(g, q, queue', done, current, rest, paths', link);
      } else {
        RecordKeepsProgress(g, q, queue', done, current, rest, paths', link);
        var e := current.Then(link, next);
        EndsSnoc(paths', e);
        if next !in entities' && |entities'| >= q.maxNodes {
          ProgressReaches(g, q, queue' + [e], done, current, rest - {link}, paths' + [e]);
          assert e in paths' + [e];
          TooMany(g, q, paths', entities', next);
          ok := false;
          return;
        }
        entities' := entities' + {next};
        links' := links' + {link};
        paths' := paths' + [e];
        queue' := queue' + [e];
      }
      rest := rest - {link};
    }
  }

  lemma RestToEdges(g: Graph, q: Query, queue: seq<Path>, done: set<Path>, current: Path, paths: seq<Path>,
                    edges: set<RelationshipId>)
    requires Progress(g, q, queue, done, current, g.relationships.Keys, paths) && current.Valid()
    requires edges <= g.relationships.Keys
    requires forall link :: link in g.relationships && Extends(g, q, current, link) ==> link in edges
    ensures Progress(g, q, queue, done, current, edges, paths)
  {}

  lemma ProgressReaches(g: Graph, q: Query, queue: seq<Path>, done: set<Path>, current: Path,
                        rest: set<RelationshipId>, paths: seq<Path>)
    requires Progress(g, q, queue, done, current, rest, paths)
    ensures forall p :: p in paths ==>
      p in Paths(g, q, q.maxDepth) && p.Valid() && p.Last() in Reached(g, q, q.maxDepth)
  {}

  lemma StartProgress(g: Graph, q: Query)
    requires LimitsValid(q)
    ensures Progress(g, q, [Root(q)], {}, Root(q), {}, [])
    ensures EndsOf([]) == {} && LastLinks(Members([])) == {}
  {}

  /** Taking the next path off the queue to explore it. */
  lemma PopKeepsProgress(g: Graph, q: Query, queue: seq<Path>, done: set<Path>, last: Path, paths: seq<Path>)
    requires Progress(g, q, queue, done, last, {}, paths) && queue != []
    ensures queue[0] in Universe(g, q) && queue[0].Valid() && queue[0] !in done
    ensures Progress(g, q, queue[1..], done + {queue[0]}, queue[0], g.relationships.Keys, paths)
  {
    var current := queue[0];
    assert current in queue;
    assert forall p :: p in queue <==> p == current || p in queue[1..];
    assert forall link :: link in g.relationships ==> link in g.relationships.Keys;
    assert forall p :: p in paths ==> p.Parent() in done && p.Parent() != current;
  }

  lemma DeepNeedsNothing(g: Graph, q: Query, queue: seq<Path>, done: set<Path>, current: Path,
                         rest: set<RelationshipId>, paths: seq<Path>)
    requires Progress(g, q, queue, done, current, rest, paths) && current.Valid() && current.Depth() >= q.maxDepth
    ensures Progress(g, q, queue, done, current, {}, paths)
  {}

  /** What the traversal returns, or why it does not. */
  ghost predicate Answers(g: Graph, q: Query, r: Outcome) {
    if !LimitsValid(q) then r.InvalidLimits?
    else if !EntityVisible(g, q, q.start) then r.StartNotVisible?
    else if |Reached(g, q, q.maxDepth)| > q.maxNodes then r.NodeLimitExceeded?
    else
      && r.Found? && NoRepeats(r.paths) && Members(r.paths) == Paths(g, q, q.maxDepth)
      && r.nodes == Reached(g, q, q.maxDepth) && r.relationships == LinksOf(Paths(g, q, q.maxDepth))
  }

  /** The traversal either refuses its limits, refuses an invisible start, fails exactly when
      more than `maxNodes` entities are reachable, or returns every simple visible path of
      length 1 to `maxDepth` exactly once, with the nodes and relationships on them. */
  method Traverse(g: Graph, q: Query) returns (r: Outcome)
    ensures Answers(g, q, r)
    ensures r.InvalidLimits? <==> !LimitsValid(q)
    ensures r.StartNotVisible? <==> LimitsValid(q) && !EntityVisible(g, q, q.start)
    ensures r.NodeLimitExceeded? <==>
      LimitsValid(q) && EntityVisible(g, q, q.start) && |Reached(g, q, q.maxDepth)| > q.maxNodes
    ensures r.Found? ==>
      && NoRepeats(r.paths)
      && Members(r.paths) == Paths(g, q, q.maxDepth)
      && r.nodes == Reached(g, q, q.maxDepth)
      && r.relationships == LinksOf(Paths(g, q, q.maxDepth))
  {
    hide Progress, Universe, EndsOf, LastLinks, EntityVisible, RelationshipVisible, Reached, Paths, Level, LinksOf;
    if !LimitsValid(q) {
      return InvalidLimits;
    }
    if !EntityVisible(g, q, q.start) {
      return StartNotVisible;
    }
    var queue := [Root(q)];
    var paths: seq<Path> := [];
    var entities, links := {q.start}, {};
    ghost var done, current := {}, Root(q);
    StartProgress(g, q);
    while queue != []
      invariant Progress(g, q, queue, done, current, {}, paths)
      invariant entities == {q.start} + EndsOf(paths) && links == LastLinks(Members(paths))
      invariant |entities| <= q.maxNodes
      invariant done <= Universe(g, q)
      decreases Universe(g, q) - done
    {
      PopKeepsProgress(g, q, queue, done, current, paths);
      var path := queue[0];
      queue := queue[1..];
      current, done := path, done + {path};
      if path.Depth() >= q.maxDepth {
        DeepNeedsNothing(g, q, queue, done, current, g.relationships.Keys, paths);
      } else {
        var ok;
        ok, queue, paths, entities, links := Expand(g, q, path, queue, paths, entities, links, done);
        if !ok {
          return NodeLimitExceeded;
        }
      }
    }
    FinishedIsAll(g, q, done, current, paths);
    FinishedResult(g, q, paths, entities, links);
    assert NoRepeats(paths) by { ProgressNoRepeats(g, q, queue, done, current, paths); }
    r := Found(entities, links, paths);
  }

  lemma ProgressNoRepeats(g: Graph, q: Query, queue: seq<Path>, done: set<Path>, current: Path, paths: seq<Path>)
    requires Progress(g, q, queue, done, current, {}, paths)
    ensures NoRepeats(paths)
  {}

  lemma FinishedResult(g: Graph, q: Query, paths: seq<Path>, entities: set<EntityId>, links: set<RelationshipId>)
    requires LimitsValid(q) && Members(paths) == Paths(g, q, q.maxDepth)
    requires entities == {q.start} + EndsOf(paths) && links == LastLinks(Members(paths))
    ensures entities == Reached(g, q, q.maxDepth) && links == LinksOf(Paths(g, q, q.maxDepth))
  {
    LastLinksAreAll(g, q, q.maxDepth);
    assert forall p :: p in paths <==> p in Members(paths);
    assert EndsOf(paths) == Ends(Paths(g, q, q.maxDepth));
  }
}
