/** When later knowledge cannot change a historical traversal, and exactly when the production
    recursive query returns the same paths. */
module GraphEquivalence {
  import opened Counting
  import opened Options
  import opened GraphModel
  import opened GraphTraversal

  // ---------------------------------------------------------------- point-in-time stability

  /** `later` has every row of `g` unchanged, and its other rows are eligible only after `asOf`. */
  ghost predicate OnlyLaterRows(g: Graph, later: Graph, asOf: Time) {
    && (forall e :: e in g.entities ==> e in later.entities && later.entities[e] == g.entities[e])
    && (forall e :: e in later.entities && e !in g.entities ==> later.entities[e].eligible > asOf)
    && (forall r :: r in g.relationships ==> r in later.relationships && later.relationships[r] == g.relationships[r])
    && (forall r :: r in later.relationships && r !in g.relationships ==> later.relationships[r].eligible > asOf)
  }

  lemma SameVisible(g: Graph, later: Graph, q: Query)
    requires OnlyLaterRows(g, later, q.asOf)
    ensures forall e :: EntityVisible(g, q, e) <==> EntityVisible(later, q, e)
    ensures forall r :: RelationshipVisible(g, q, r) <==> RelationshipVisible(later, q, r)
  {}

  lemma SameExtensions(g: Graph, later: Graph, q: Query, p: Path)
    requires OnlyLaterRows(g, later, q.asOf) && p.Valid()
    ensures Extensions(g, q, p) == Extensions(later, q, p)
  {
    hide EntityVisible, RelationshipVisible;
    SameVisible(g, later, q);
    forall r ensures RelationshipVisible(g, q, r) ==> r in g.relationships { VisibleExists(g, q, r); }
    forall r ensures RelationshipVisible(later, q, r) ==> r in later.relationships { VisibleExists(later, q, r); }
    forall e | e in Extensions(g, q, p) ensures e in Extensions(later, q, p) {
      var r :| r in g.relationships && Extends(g, q, p, r) && e == Extension(g, p, r);
      assert Extends(later, q, p, r) && e == Extension(later, p, r);
    }
    forall e | e in Extensions(later, q, p) ensures e in Extensions(g, q, p) {
      var r :| r in later.relationships && Extends(later, q, p, r) && e == Extension(later, p, r);
      assert Extends(g, q, p, r) && e == Extension(g, p, r);
    }
  }

  lemma VisibleExists(g: Graph, q: Query, r: RelationshipId)
    ensures RelationshipVisible(g, q, r) ==> r in g.relationships
  {}

  /** Adding rows that become eligible after `asOf` changes nothing a traversal as of `asOf`
      returns: not its paths at any depth, not its nodes, not whether it hits a limit. */
  lemma {:induction false} PointInTimeStable(g: Graph, later: Graph, q: Query, k: nat)
    requires OnlyLaterRows(g, later, q.asOf)
    ensures EntityVisible(g, q, q.start) <==> EntityVisible(later, q, q.start)
    ensures Level(g, q, k) == Level(later, q, k)
    ensures Paths(g, q, k) == Paths(later, q, k) && Reached(g, q, k) == Reached(later, q, k)
  {
    SameVisible(g, later, q);
    hide EntityVisible, Extensions;
    if k > 0 {
      PointInTimeStable(g, later, q, k - 1);
      forall p | p in Level(g, q, k - 1) ensures Extensions(g, q, p) == Extensions(later, q, p) {
        SameExtensions(g, later, q, p);
      }
    }
  }

  // ---------------------------------------------------------------- the recursive query

  /** The recursive term's join: it tests the relationship, but not the entity it leads to, and
      it knows no predicate filter. */
  predicate RowExtends(g: Graph, q: Query, p: Path, link: RelationshipId)
    requires p.Valid()
  {
    && RelationshipLive(g, q, link)
    && Touches(g.relationships[link], p.Last())
    && OtherEnd(g.relationships[link], p.Last()) !in p.nodes
  }

  function RowExtensions(g: Graph, q: Query, p: Path): (es: set<Path>)
    requires p.Valid()
    ensures forall e :: e in es ==> e.Valid() && e.Depth() == p.Depth() + 1 && e.Parent() == p
  {
    set link | link in g.relationships && RowExtends(g, q, p, link) :: Extension(g, p, link)
  }

  /** The rows of the `k`-th iteration of the recursive query. */
  function RowsAt(g: Graph, q: Query, k: nat): (ps: set<Path>)
    ensures forall p :: p in ps ==> p.Valid() && p.Depth() == k
  {
    if k == 0 then {Root(q)}
    else set p, e | p in RowsAt(g, q, k - 1) && e in RowExtensions(g, q, p) :: e
  }

  /** All rows of depth 0 to `k`, before the row limit. */
  function Rows(g: Graph, q: Query, k: nat): (ps: set<Path>)
    ensures forall p :: p in ps ==> p.Valid() && p.Depth() <= k
  {
    if k == 0 then RowsAt(g, q, 0) else Rows(g, q, k - 1) + RowsAt(g, q, k)
  }

  lemma {:induction false} PathsAreRows(g: Graph, q: Query, k: nat)
    ensures Level(g, q, k) <= RowsAt(g, q, k)
  {
    if k > 0 {
      PathsAreRows(g, q, k - 1);
      forall p, e | p in Level(g, q, k - 1) && e in Extensions(g, q, p) ensures e in RowsAt(g, q, k) {
        var link :| link in g.relationships && Extends(g, q, p, link) && e == Extension(g, p, link);
        assert RowExtends(g, q, p, link);
        assert e in RowExtensions(g, q, p);
      }
    }
  }

  lemma {:induction false} RowsContain(g: Graph, q: Query, k: nat, m: nat)
    requires k <= m
    ensures RowsAt(g, q, k) <= Rows(g, q, m)
    decreases m
  {
    if k < m { RowsContain(g, q, k, m - 1); }
  }

  lemma {:induction false} RowsAreLevels(g: Graph, q: Query, k: nat)
    ensures forall p :: p in Rows(g, q, k) <==> p.Valid() && p.Depth() <= k && p in RowsAt(g, q, p.Depth())
  {
    hide RowsAt;
    if k > 0 { RowsAreLevels(g, q, k - 1); }
  }

  /** At the query's time the relationship row joins two entities, either way round. */
  ghost predicate Connects(g: Graph, q: Query, from: EntityId, link: RelationshipId, to: EntityId) {
    && link in g.relationships
    && var r := g.relationships[link];
       && ((r.subject == from && r.object_ == to) || (r.subject == to && r.object_ == from))
       && r.workspace == q.workspace && r.status in {Verified, Disputed}
       && r.eligible <= q.asOf && r.validFrom <= q.asOf && (r.validTo == None || q.asOf < r.validTo.value)
  }

  ghost predicate IsRow(g: Graph, q: Query, p: Path) {
    && |p.nodes| == |p.links| + 1 && p.nodes[0] == q.start
    && (forall i, j :: 0 <= i < j < |p.nodes| ==> p.nodes[i] != p.nodes[j])
    && forall i :: 0 <= i < |p.links| ==> Connects(g, q, p.nodes[i], p.links[i], p.nodes[i + 1])
  }

  /** The rows in terms of the table's own columns: all sequences of at most `k` joins from the start
      that repeat no entity, whatever entities they pass. */
  lemma RowsByFields(g: Graph, q: Query, k: nat, p: Path)
    ensures p in Rows(g, q, k) <==> |p.links| <= k && IsRow(g, q, p)
  {
    hide IsRow, RowsAt;
    RowsAreLevels(g, q, k);
    if p.Valid() { RowAtByFields(g, q, p); }
    if IsRow(g, q, p) { RowIsValid(g, q, p); }
  }

  lemma RowIsValid(g: Graph, q: Query, p: Path)
    requires IsRow(g, q, p)
    ensures p.Valid()
  {}

  lemma {:induction false} RowAtByFields(g: Graph, q: Query, p: Path)
    requires p.Valid()
    ensures p in RowsAt(g, q, p.Depth()) <==> IsRow(g, q, p)
    decreases |p.links|
  {
    hide IsRow;
    if p.links == [] {
      RootIsRow(g, q, p);
    } else {
      var front, n := p.Parent(), |p.links| - 1;
      RowAtByFields(g, q, front);
      RowThen(g, q, p);
      if p in RowsAt(g, q, p.Depth()) {
        var r :| r in RowsAt(g, q, p.Depth() - 1) && p in RowExtensions(g, q, r);
        assert r == front;
      }
      if p in RowExtensions(g, q, front) && front in RowsAt(g, q, front.Depth()) {
        assert p in RowsAt(g, q, p.Depth());
      }
    }
  }

  lemma RootIsRow(g: Graph, q: Query, p: Path)
    requires p.Valid() && p.links == []
    ensures p in RowsAt(g, q, 0) <==> IsRow(g, q, p)
  {
    if IsRow(g, q, p) { assert p.nodes == [q.start]; }
  }

  /** A row is its parent and one join more. */
  lemma RowThen(g: Graph, q: Query, p: Path)
    requires p.Valid() && p.links != []
    ensures IsRow(g, q, p) <==> IsRow(g, q, p.Parent()) && p in RowExtensions(g, q, p.Parent())
  {
    hide Connects;
    var front, n := p.Parent(), |p.links| - 1;
    var x, link, y := p.nodes[n], p.links[n], p.nodes[n + 1];
    assert p.nodes == front.nodes + [y] && p.links == front.links + [link] && front.Last() == x;
    assert p == front.Then(link, y);
    forall i | 0 <= i <= n ensures p.nodes[i] == front.nodes[i] && front.nodes[i] in front.nodes {}
    LastConnects(g, q, front, link, y);
    if IsRow(g, q, p) {
      assert Connects(g, q, p.nodes[n], p.links[n], p.nodes[n + 1]);
      forall i | 0 <= i < n ensures Connects(g, q, front.nodes[i], front.links[i], front.nodes[i + 1]) {
        assert Connects(g, q, p.nodes[i], p.links[i], p.nodes[i + 1]);
      }
    }
    if IsRow(g, q, front) && p in RowExtensions(g, q, front) {
      forall i | 0 <= i < |p.links| ensures Connects(g, q, p.nodes[i], p.links[i], p.nodes[i + 1]) {
        if i < n { assert Connects(g, q, front.nodes[i], front.links[i], front.nodes[i + 1]); }
      }
    }
  }

  lemma LastConnects(g: Graph, q: Query, p: Path, link: RelationshipId, y: EntityId)
    requires p.Valid()
    ensures p.Then(link, y) in RowExtensions(g, q, p) <==> y !in p.nodes && Connects(g, q, p.Last(), link, y)
  {
    var t := p.Then(link, y);
    assert t.links[|p.links|] == link && t.nodes[|p.nodes|] == y && p.Last() in p.nodes;
    if t in RowExtensions(g, q, p) {
      var other :| other in g.relationships && RowExtends(g, q, p, other) && t == Extension(g, p, other);
      assert Extension(g, p, other).links[|p.links|] == other;
      assert Extension(g, p, other).nodes[|p.nodes|] == OtherEnd(g.relationships[other], p.Last());
      assert link == other && y == OtherEnd(g.relationships[link], p.Last());
    }
    if y !in p.nodes && Connects(g, q, p.Last(), link, y) {
      assert OtherEnd(g.relationships[link], p.Last()) == y;
      assert RowExtends(g, q, p, link) && t == Extension(g, p, link);
    }
  }

  /** Every entity on a simple visible path is visible, the start included. */
  lemma PathNodesVisible(g: Graph, q: Query, p: Path)
    requires SimplePath(g, q, p) && EntityVisible(g, q, q.start)
    ensures forall i :: 0 <= i < |p.nodes| ==> EntityVisible(g, q, p.nodes[i])
  {
    forall i | 0 <= i < |p.nodes| ensures EntityVisible(g, q, p.nodes[i]) {
      if i > 0 { assert Hop(g, q, p.nodes[i - 1], p.links[i - 1], p.nodes[i - 1 + 1]); }
    }
  }

  /** Every live relationship that leaves an entity nearer than `k` visible hops is one the
      traversal follows: it passes the predicate filter and leads to a visible entity. */
  ghost predicate NoBlindHop(g: Graph, q: Query, k: nat) {
    k == 0 || forall x, link ::
      x in WithinHops(g, q, k - 1) && RelationshipLive(g, q, link) && Joins(g, link, x) ==>
        Hop(g, q, x, link, OtherEnd(g.relationships[link], x))
  }

  /** The relationship joins the entity to another one. */
  predicate Joins(g: Graph, link: RelationshipId, x: EntityId)
    requires link in g.relationships
  {
    Touches(g.relationships[link], x) && OtherEnd(g.relationships[link], x) != x
  }

  lemma WithinHopsGrow(g: Graph, q: Query, j: nat, k: nat)
    requires j <= k
    ensures WithinHops(g, q, j) <= WithinHops(g, q, k)
    decreases k
  {
    if j < k { WithinHopsGrow(g, q, j, k - 1); }
  }

  lemma SimpleParts(g: Graph, q: Query, p: Path)
    requires SimplePath(g, q, p)
    ensures p.Valid() && p.nodes[0] == q.start
    ensures forall i :: 0 <= i < |p.links| ==> Hop(g, q, p.nodes[i], p.links[i], p.nodes[i + 1])
  {}

  /** Where there is no blind hop, the recursive query builds only the traversal's paths. */
  lemma {:induction false} RowsAreSimple(g: Graph, q: Query, k: nat, m: nat)
    requires NoBlindHop(g, q, m) && k <= m
    ensures RowsAt(g, q, k) <= Level(g, q, k)
  {
    hide NoBlindHop, EntityVisible, Extensions, RowExtensions;
    if k > 0 {
      RowsAreSimple(g, q, k - 1, m);
      forall p, e | p in RowsAt(g, q, k - 1) && e in RowExtensions(g, q, p) ensures e in Level(g, q, k) {
        RowExtensionIsFollowed(g, q, k - 1, m, p, e);
      }
    }
  }

  lemma RowExtensionIsFollowed(g: Graph, q: Query, k: nat, m: nat, p: Path, e: Path)
    requires NoBlindHop(g, q, m) && k < m
    requires p in Level(g, q, k) && e in RowExtensions(g, q, p)
    ensures e in Extensions(g, q, p)
  {
    hide SimplePath, WithinHops, EntityVisible, Level;
    var link :| link in g.relationships && RowExtends(g, q, p, link) && e == Extension(g, p, link);
    LevelSound(g, q, k);
    PathToWalk(g, q, p, k);
    WithinHopsGrow(g, q, k, m - 1);
    assert p.Last() in WithinHops(g, q, m - 1) && p.Last() in p.nodes;
    assert Joins(g, link, p.Last());
    assert Hop(g, q, p.Last(), link, OtherEnd(g.relationships[link], p.Last()));
    assert Extends(g, q, p, link);
  }

  /** A hop the traversal does not take, from the end of a path it does, makes a row that is not
      one of its paths. */
  lemma BlindRow(g: Graph, q: Query, k: nat, p: Path, link: RelationshipId)
    requires SimplePath(g, q, p) && p.Depth() < k
    requires RelationshipLive(g, q, link) && Touches(g.relationships[link], p.Last())
    requires OtherEnd(g.relationships[link], p.Last()) !in p.nodes
    requires !Hop(g, q, p.Last(), link, OtherEnd(g.relationships[link], p.Last()))
    ensures Rows(g, q, k) - {Root(q)} != Paths(g, q, k)
  {
    hide EntityVisible, SimplePath, Level;
    SimpleIsValid(g, q, p);
    LevelComplete(g, q, p);
    PathsAreRows(g, q, p.Depth());
    var e := Extension(g, p, link);
    assert e in RowExtensions(g, q, p);
    assert e in RowsAt(g, q, p.Depth() + 1);
    RowsContain(g, q, p.Depth() + 1, k);
    NotSimple(g, q, p, link);
    PathsAreSimplePaths(g, q, k);
    assert e.links != [] && e != Root(q);
  }

  lemma NotSimple(g: Graph, q: Query, p: Path, link: RelationshipId)
    requires p.Valid() && link in g.relationships
    requires !Hop(g, q, p.Last(), link, OtherEnd(g.relationships[link], p.Last()))
    ensures !SimplePath(g, q, Extension(g, p, link))
  {
    var e, n := Extension(g, p, link), |p.links|;
    assert e.nodes[n] == p.Last() && e.links[n] == link && e.nodes[n + 1] == OtherEnd(g.relationships[link], p.Last());
  }

  /** A blind hop within reach shows in the answers; where it leads back onto the path to it, it
      shows from the other end. */
  lemma BlindHopShows(g: Graph, q: Query, k: nat, x: EntityId, link: RelationshipId)
    requires EntityVisible(g, q, q.start) && 1 <= k && x in WithinHops(g, q, k - 1)
    requires RelationshipLive(g, q, link) && Joins(g, link, x)
    requires !Hop(g, q, x, link, OtherEnd(g.relationships[link], x))
    ensures Rows(g, q, k) - {Root(q)} != Paths(g, q, k)
  {
    hide SimplePath, WithinHops, EntityVisible, Rows, Paths;
    var far := OtherEnd(g.relationships[link], x);
    var p := WalkToPath(g, q, k - 1, x);
    SimpleParts(g, q, p);
    if far in p.nodes {
      var i :| 0 <= i < |p.nodes| && p.nodes[i] == far;
      var t := Path(p.nodes[..i + 1], p.links[..i]);
      Truncate(g, q, p, i);
      PathNodesVisible(g, q, p);
      assert p.nodes[|p.links|] == x && x !in t.nodes by { SimpleDistinct(g, q, p); }
      assert t.Last() == far && OtherEnd(g.relationships[link], far) == x;
      BlindRow(g, q, k, t, link);
    } else {
      BlindRow(g, q, k, p, link);
    }
  }

  lemma SimpleDistinct(g: Graph, q: Query, p: Path)
    requires SimplePath(g, q, p)
    ensures forall i, j :: 0 <= i < j < |p.nodes| ==> p.nodes[i] != p.nodes[j]
  {}

  /** Before any limit, the rows beyond the root are the traversal's paths exactly when, within
      reach of a visible start, the traversal follows every live relationship. */
  lemma RowsArePathsIff(g: Graph, q: Query, k: nat)
    requires EntityVisible(g, q, q.start)
    ensures Rows(g, q, k) - {Root(q)} == Paths(g, q, k) <==> NoBlindHop(g, q, k)
  {
    hide EntityVisible, Hop, WithinHops;
    if NoBlindHop(g, q, k) {
      NoBlindAgree(g, q, k);
    } else {
      var x, link :| x in WithinHops(g, q, k - 1) && RelationshipLive(g, q, link) && link in g.relationships
        && Joins(g, link, x) && !Hop(g, q, x, link, OtherEnd(g.relationships[link], x));
      BlindHopShows(g, q, k, x, link);
    }
  }

  lemma NoBlindAgree(g: Graph, q: Query, k: nat)
    requires NoBlindHop(g, q, k)
    ensures Rows(g, q, k) - {Root(q)} == Paths(g, q, k)
  {
    hide NoBlindHop, EntityVisible;
    PathsAreLevels(g, q, k);
    RowsAreLevels(g, q, k);
    forall p ensures p in Rows(g, q, k) - {Root(q)} <==> p in Paths(g, q, k) {
      if p.Valid() && p.Depth() <= k {
        PathsAreRows(g, q, p.Depth());
        RowsAreSimple(g, q, p.Depth(), k);
        OnlyRootIsShort(g, q, p);
      }
    }
  }

  lemma OnlyRootIsShort(g: Graph, q: Query, p: Path)
    requires p.Valid()
    ensures p in RowsAt(g, q, p.Depth()) ==> (p.Depth() == 0 <==> p == Root(q))
    ensures p == Root(q) ==> p.Depth() == 0
  {}

  /** Root and paths are among the rows. */
  lemma RowsCover(g: Graph, q: Query, k: nat)
    ensures Paths(g, q, k) + {Root(q)} <= Rows(g, q, k)
    ensures Root(q) !in Paths(g, q, k)
  {
    PathsAreLevels(g, q, k);
    RowsAreLevels(g, q, k);
    forall p | p in Paths(g, q, k) ensures p in Rows(g, q, k) { PathsAreRows(g, q, p.Depth()); }
    assert Root(q) in RowsAt(g, q, 0);
    OnlyRootIsShort(g, q, Root(q));
  }

  // ---------------------------------------------------------------- the answers, limits included

  /** How deep the recursion goes: not at all for a depth below one. */
  function Depth(q: Query): nat { if q.maxDepth > 0 then q.maxDepth else 0 }

  /** `ORDER BY entity_path` on paths of one length, the identifiers compared as numbers. */
  predicate Lexical(xs: seq<EntityId>, ys: seq<EntityId>) {
    xs != [] && ys != [] && (xs[0] < ys[0] || (xs[0] == ys[0] && Lexical(xs[1..], ys[1..])))
  }

  /** `ORDER BY depth, entity_path`; rows over the same entities come in any order. */
  predicate Earlier(p: Path, r: Path) {
    |p.links| < |r.links| || (|p.links| == |r.links| && Lexical(p.nodes, r.nodes))
  }

  /** What the recursive query returns: the first `maxNodes` rows in that order, or all. */
  ghost predicate Returned(g: Graph, q: Query, kept: set<Path>) {
    var all := Rows(g, q, Depth(q));
    && kept <= all && |kept| == (if |all| <= q.maxNodes then |all| else q.maxNodes)
    && forall p, r :: p in kept && r in all && r !in kept ==> !Earlier(r, p)
  }

  /** The traversal returned, and its paths are the rows beyond the root. */
  ghost predicate SameAnswer(q: Query, r: Outcome, kept: set<Path>) {
    r.Found? && Members(r.paths) == kept - {Root(q)}
  }

  /** Every row that is neither the root nor a path comes after every path. */
  ghost predicate BlindRowsLast(g: Graph, q: Query) {
    forall p, r :: p in Paths(g, q, Depth(q)) && r in Rows(g, q, Depth(q)) - Paths(g, q, Depth(q)) - {Root(q)} ==>
      Earlier(p, r)
  }

  lemma {:induction false} LexicalTotal(xs: seq<EntityId>, ys: seq<EntityId>)
    requires |xs| == |ys| && xs != ys
    ensures Lexical(xs, ys) <==> !Lexical(ys, xs)
  {
    if xs[0] == ys[0] {
      assert xs == [xs[0]] + xs[1..] && ys == [ys[0]] + ys[1..];
      LexicalTotal(xs[1..], ys[1..]);
    }
  }

  /** Of two paths of one length the earlier has the smaller identifier where they first differ. */
  lemma {:induction false} LexicalIff(xs: seq<EntityId>, ys: seq<EntityId>)
    requires |xs| == |ys|
    ensures Lexical(xs, ys) <==> exists i :: 0 <= i < |xs| && xs[i] < ys[i] && xs[..i] == ys[..i]
  {
    if xs != [] {
      LexicalIff(xs[1..], ys[1..]);
      if xs[0] < ys[0] { assert xs[..0] == ys[..0]; }
      if i :| 0 <= i < |xs| && xs[i] < ys[i] && xs[..i] == ys[..i] && i > 0 {
        assert xs[0] == xs[..i][0] == ys[..i][0];
        assert xs[1..][i - 1] < ys[1..][i - 1] && xs[1..][..i - 1] == xs[..i][1..] == ys[1..][..i - 1];
      }
      if xs[0] == ys[0] && Lexical(xs[1..], ys[1..]) {
        var i :| 0 <= i < |xs[1..]| && xs[1..][i] < ys[1..][i] && xs[1..][..i] == ys[1..][..i];
        assert xs[i + 1] < ys[i + 1] && xs[..i + 1] == ys[..i + 1];
      }
    }
  }

  lemma {:induction false} NeverBeforeItself(xs: seq<EntityId>)
    ensures !Lexical(xs, xs)
  {
    if xs != [] { NeverBeforeItself(xs[1..]); }
  }

  lemma EarlierTotal(p: Path, r: Path)
    requires p.Valid() && r.Valid() && p.nodes != r.nodes
    ensures Earlier(p, r) <==> !Earlier(r, p)
  {
    if |p.links| == |r.links| { LexicalTotal(p.nodes, r.nodes); }
  }

  /** Keeping the whole of a part of the rows means having room for it. */
  lemma KeptAll(all: set<Path>, kept: set<Path>, part: set<Path>, limit: nat)
    requires part <= all && kept <= all && |kept| == if |all| <= limit then |all| else limit
    ensures kept == part ==> |part| <= limit && (|part| < limit ==> part == all)
    ensures part == all && |part| <= limit ==> kept == part
  {
    SubsetCount(part, all);
    if |kept| == |all| { SameSize(kept, all); }
  }

  lemma SameSize(small: set<Path>, large: set<Path>)
    requires small <= large && |small| == |large|
    ensures small == large
  {
    assert large == small + (large - small);
  }

  lemma PathsAndRoot(g: Graph, q: Query, k: nat)
    ensures |Paths(g, q, k) + {Root(q)}| == |Paths(g, q, k)| + 1
  {
    RowsCover(g, q, k);
  }

  /** The limit always leaves room for the root, the first row of all. */
  lemma RootKept(g: Graph, q: Query, kept: set<Path>)
    requires LimitsValid(q) && Returned(g, q, kept)
    ensures Root(q) in kept
  {
    hide Rows, Paths;
    RowsCover(g, q, Depth(q));
    if Root(q) !in kept {
      SubsetCount(kept, Rows(g, q, Depth(q)) - {Root(q)});
      var p :| p in kept;
      RootIsEarliest(g, q, p);
    }
  }

  lemma RootIsEarliest(g: Graph, q: Query, p: Path)
    requires p in Rows(g, q, Depth(q)) && p != Root(q)
    ensures Earlier(Root(q), p)
  {
    RowsAreLevels(g, q, Depth(q));
    OnlyRootIsShort(g, q, p);
  }

  /** The kept rows are the root and the paths exactly when they are all the rows and there is room
      for them, or when they just fill the limit and every other row comes later. */
  lemma KeptArePathsIff(g: Graph, q: Query, kept: set<Path>)
    requires LimitsValid(q) && EntityVisible(g, q, q.start) && Returned(g, q, kept)
    requires q.predicates == {} || |Paths(g, q, Depth(q))| + 1 != q.maxNodes
    ensures kept - {Root(q)} == Paths(g, q, Depth(q)) <==>
      && |Paths(g, q, Depth(q))| < q.maxNodes
      && (NoBlindHop(g, q, Depth(q)) || (|Paths(g, q, Depth(q))| + 1 == q.maxNodes && BlindRowsLast(g, q)))
  {
    hide Rows, Paths, NoBlindHop, EntityVisible, BlindRowsLast, Earlier;
    var k := Depth(q);
    var all, part := Rows(g, q, k), Paths(g, q, k) + {Root(q)};
    RowsCover(g, q, k);
    RootKept(g, q, kept);
    PathsAndRoot(g, q, k);
    RowsArePathsIff(g, q, k);
    KeptAll(all, kept, part, q.maxNodes);
    assert kept - {Root(q)} == Paths(g, q, k) <==> kept == part;
    assert all - {Root(q)} == Paths(g, q, k) <==> all == part;
    if |part| == q.maxNodes && all != part { FullIff(g, q, kept); }
  }

  /** When root and paths just fill the limit, they are what is kept exactly when the others come
      last. */
  lemma FullIff(g: Graph, q: Query, kept: set<Path>)
    requires LimitsValid(q) && EntityVisible(g, q, q.start) && Returned(g, q, kept) && q.predicates == {}
    requires |Paths(g, q, Depth(q)) + {Root(q)}| == q.maxNodes
    ensures kept == Paths(g, q, Depth(q)) + {Root(q)} <==> BlindRowsLast(g, q)
  {
    hide Rows, Paths, EntityVisible, Earlier;
    var k := Depth(q);
    var all, part := Rows(g, q, k), Paths(g, q, k) + {Root(q)};
    RowsCover(g, q, k);
    SubsetCount(part, all);
    if kept == part {
      forall p, r | p in Paths(g, q, k) && r in all - Paths(g, q, k) - {Root(q)} ensures Earlier(p, r) {
        BlindRowElsewhere(g, q, p, r);
        EarlierTotal(p, r);
      }
    } else {
      assert |kept| == |part|;
      if part <= kept { SameSize(part, kept); }
      if kept <= part { SameSize(kept, part); }
      var p :| p in part && p !in kept;
      var r :| r in kept && r !in part;
      RootKept(g, q, kept);
      assert p in Paths(g, q, k) && !Earlier(p, r);
    }
  }

  /** Without a filter, a row over the same entities as a path is a path. */
  lemma BlindRowElsewhere(g: Graph, q: Query, p: Path, r: Path)
    requires EntityVisible(g, q, q.start) && q.predicates == {}
    requires p in Paths(g, q, Depth(q)) && r in Rows(g, q, Depth(q)) && r !in Paths(g, q, Depth(q)) && r != Root(q)
    ensures p.Valid() && r.Valid() && p.nodes != r.nodes
  {
    hide Rows, EntityVisible;
    PathsAreSimplePaths(g, q, Depth(q));
    PathNodesVisible(g, q, p);
    RowsAreLevels(g, q, Depth(q));
    OnlyRootIsShort(g, q, r);
    if p.nodes == r.nodes { RowOverVisible(g, q, r); }
  }

  /** A row over visible entities is a simple visible path. */
  lemma {:induction false} RowOverVisible(g: Graph, q: Query, r: Path)
    requires r.Valid() && r in RowsAt(g, q, r.Depth()) && q.predicates == {}
    requires forall i :: 0 <= i < |r.nodes| ==> EntityVisible(g, q, r.nodes[i])
    ensures SimplePath(g, q, r)
    decreases r.Depth()
  {
    hide EntityVisible, SimplePath;
    if r.Depth() == 0 {
      RootIsSimple(g, q);
    } else {
      var p :| p in RowsAt(g, q, r.Depth() - 1) && r in RowExtensions(g, q, p);
      var link :| link in g.relationships && RowExtends(g, q, p, link) && r == Extension(g, p, link);
      forall i | 0 <= i < |p.nodes| ensures EntityVisible(g, q, p.nodes[i]) { assert p.nodes[i] == r.nodes[i]; }
      RowOverVisible(g, q, p);
      assert r.nodes[|p.nodes|] == OtherEnd(g.relationships[link], p.Last());
      ThenSimple(g, q, p, link, r.nodes[|p.nodes|]);
    }
  }

  lemma {:induction false} ReachedCount(g: Graph, q: Query, k: nat)
    ensures |Reached(g, q, k)| <= |Paths(g, q, k)| + 1
  {
    hide Paths;
    EndsCount(Paths(g, q, k));
    assert Reached(g, q, k) == {q.start} + Ends(Paths(g, q, k));
  }

  lemma {:induction false} EndsCount(ps: set<Path>)
    requires forall p :: p in ps ==> p.Valid()
    ensures |Ends(ps)| <= |ps|
  {
    if ps != {} {
      var p :| p in ps;
      EndsCount(ps - {p});
      assert Ends(ps) == Ends(ps - {p}) + {p.Last()};
    }
  }

  /** Documented as behaviourally equivalent, the two queries give the same answer, their limits
      included, if and only if the limits are valid, the start is visible, root and paths together
      are within `maxNodes` rows, and the traversal follows every live relationship within reach,
      or else the limit happens to cut off just the rows it does not follow.  With a filter, which
      the recursive query does not know, the last case is left to how ties are broken. */
  lemma QueriesAgreeIff(g: Graph, q: Query, r: Outcome, kept: set<Path>)
    requires Answers(g, q, r) && Returned(g, q, kept)
    requires q.predicates == {} || |Paths(g, q, Depth(q))| + 1 != q.maxNodes
    ensures SameAnswer(q, r, kept) <==>
      && LimitsValid(q) && EntityVisible(g, q, q.start)
      && |Paths(g, q, Depth(q))| < q.maxNodes
      && (NoBlindHop(g, q, Depth(q)) || (|Paths(g, q, Depth(q))| + 1 == q.maxNodes && BlindRowsLast(g, q)))
  {
    hide Rows, Paths, NoBlindHop, EntityVisible, BlindRowsLast, Reached, Returned, LinksOf;
    if LimitsValid(q) && EntityVisible(g, q, q.start) {
      ReachedCount(g, q, Depth(q));
      KeptArePathsIff(g, q, kept);
    }
  }

  /** Every end of every live relationship of the workspace is a visible entity. */
  ghost predicate EndsVisible(g: Graph, q: Query) {
    forall link :: RelationshipLive(g, q, link) ==>
      EntityVisible(g, q, g.relationships[link].subject) && EntityVisible(g, q, g.relationships[link].object_)
  }

  /** In particular, without a filter and where live relationships join visible entities, the
      queries give the same answer exactly when root and paths are within the row limit. */
  lemma QueriesAgreeOnVisibleEnds(g: Graph, q: Query, r: Outcome, kept: set<Path>)
    requires Answers(g, q, r) && Returned(g, q, kept)
    requires q.predicates == {} && LimitsValid(q) && EntityVisible(g, q, q.start) && EndsVisible(g, q)
    ensures SameAnswer(q, r, kept) <==> |Paths(g, q, Depth(q))| < q.maxNodes
  {
    hide EntityVisible, RelationshipLive, SameAnswer, Answers, Returned, LimitsValid, BlindRowsLast, Paths;
    VisibleEndsSeen(g, q, Depth(q));
    QueriesAgreeIff(g, q, r, kept);
  }

  lemma VisibleEndsSeen(g: Graph, q: Query, k: nat)
    requires q.predicates == {} && EndsVisible(g, q)
    ensures NoBlindHop(g, q, k)
  {
    hide EntityVisible, WithinHops;
  }

  /** Within the row limit and with nothing unseen, the production query answers like the
      traversal, whatever the filter. */
  lemma ProductionAgrees(g: Graph, q: Query, r: Outcome, kept: set<Path>)
    requires Answers(g, q, r) && Returned(g, q, kept) && LimitsValid(q) && EntityVisible(g, q, q.start)
    requires NoBlindHop(g, q, Depth(q)) && |Paths(g, q, Depth(q))| < q.maxNodes
    ensures SameAnswer(q, r, kept)
  {
    hide Rows, Paths, NoBlindHop, EntityVisible, Reached, LinksOf;
    var k := Depth(q);
    ReachedCount(g, q, k);
    RowsCover(g, q, k);
    PathsAndRoot(g, q, k);
    RowsArePathsIff(g, q, k);
    assert Rows(g, q, k) == Paths(g, q, k) + {Root(q)};
    KeptAll(Rows(g, q, k), kept, Rows(g, q, k), q.maxNodes);
  }

  /** Past the node limit the traversal raises, and the recursive query silently returns its first
      `maxNodes` rows; and it truncates as silently whenever the paths fill the limit, though the
      traversal may still answer in full. */
  lemma TruncatesSilently(g: Graph, q: Query, r: Outcome, kept: set<Path>)
    requires Answers(g, q, r) && Returned(g, q, kept) && LimitsValid(q) && EntityVisible(g, q, q.start)
    requires |Paths(g, q, Depth(q))| >= q.maxNodes
    ensures |kept| == q.maxNodes < |Rows(g, q, Depth(q))| && !SameAnswer(q, r, kept)
    ensures r.NodeLimitExceeded? <==> |Reached(g, q, Depth(q))| > q.maxNodes
    ensures |Reached(g, q, Depth(q))| > q.maxNodes ==> |Paths(g, q, Depth(q))| >= q.maxNodes
  {
    hide Rows, Paths, NoBlindHop, EntityVisible, Reached, LinksOf, BlindRowsLast;
    RowsCover(g, q, Depth(q));
    PathsAndRoot(g, q, Depth(q));
    SubsetCount(Paths(g, q, Depth(q)) + {Root(q)}, Rows(g, q, Depth(q)));
    QueriesAgreeIff(g, q, r, kept);
  }

  // ---------------------------------------------------------------- instances

  /** They differ, for instance, past an expired entity. */
  lemma ExpiredEntityDiffers() returns (g: Graph, q: Query)
    ensures LimitsValid(q) && EntityVisible(g, q, q.start) && q.predicates == {}
    ensures forall r, kept :: Answers(g, q, r) && Returned(g, q, kept) ==> !SameAnswer(q, r, kept)
  {
    var live := Entity(0, 0, 0, None, Verified);
    var gone := Entity(0, 0, 0, None, Expired);
    var link := Relationship(0, 1, "OWNS", 2, 0, 0, None, Verified);
    g := Graph(map[1 := live, 2 := gone], map[7 := link]);
    q := Query(0, 1, 10, 1, 100, {});
    assert 1 in WithinHops(g, q, 0) && RelationshipLive(g, q, 7) && Joins(g, 7, 1);
    assert !Hop(g, q, 1, 7, OtherEnd(g.relationships[7], 1));
    assert !NoBlindHop(g, q, 1);
    assert Paths(g, q, 1) == {} by {
      assert Level(g, q, 0) == {Root(q)} && Extensions(g, q, Root(q)) == {};
    }
    forall r, kept | Answers(g, q, r) && Returned(g, q, kept) ensures !SameAnswer(q, r, kept) {
      hide *;
      QueriesAgreeIff(g, q, r, kept);
    }
  }

  /** And where all is visible, for two parallel relationships and a limit of two nodes: the
      traversal returns both paths, the recursive query one of them. */
  lemma ParallelLinksDiffer() returns (g: Graph, q: Query)
    ensures LimitsValid(q) && EntityVisible(g, q, q.start) && q.predicates == {} && EndsVisible(g, q)
    ensures forall r, kept :: Answers(g, q, r) && Returned(g, q, kept) ==> r.Found? && !SameAnswer(q, r, kept)
  {
    hide EntityVisible, EndsVisible, Paths, Reached, Returned, Answers, SameAnswer, Anyone, Between;
    g, q := Graph(map[1 := Anyone(), 2 := Anyone()], map[7 := Between("OWNS"), 8 := Between("SUPPLIES")]),
            Query(0, 1, 10, 1, 2, {});
    TwoPaths(g, q);
    BothVisible(g, q);
    forall r, kept | Answers(g, q, r) && Returned(g, q, kept) ensures r.Found? && !SameAnswer(q, r, kept) {
      FullLimitDiffers(g, q, r, kept);
    }
  }

  lemma BothVisible(g: Graph, q: Query)
    requires q == Query(0, 1, 10, 1, 2, {})
    requires g == Graph(map[1 := Anyone(), 2 := Anyone()], map[7 := Between("OWNS"), 8 := Between("SUPPLIES")])
    ensures EntityVisible(g, q, q.start) && EndsVisible(g, q)
  {}

  function Anyone(): Entity { Entity(0, 0, 0, None, Verified) }

  function Between(predicateName: string): Relationship { Relationship(0, 1, predicateName, 2, 0, 0, None, Verified) }

  lemma FullLimitDiffers(g: Graph, q: Query, r: Outcome, kept: set<Path>)
    requires Answers(g, q, r) && Returned(g, q, kept)
    requires q.predicates == {} && LimitsValid(q) && EntityVisible(g, q, q.start) && EndsVisible(g, q)
    requires |Paths(g, q, q.maxDepth)| == q.maxNodes && |Reached(g, q, q.maxDepth)| <= q.maxNodes
    ensures r.Found? && !SameAnswer(q, r, kept)
  {
    hide Returned, EndsVisible, EntityVisible, Paths, Reached, SameAnswer, LinksOf;
    QueriesAgreeOnVisibleEnds(g, q, r, kept);
  }

  lemma TwoPaths(g: Graph, q: Query)
    requires q == Query(0, 1, 10, 1, 2, {})
    requires g == Graph(map[1 := Anyone(), 2 := Anyone()], map[7 := Between("OWNS"), 8 := Between("SUPPLIES")])
    ensures |Paths(g, q, 1)| == 2 && |Reached(g, q, 1)| == 2
  {
    hide Extensions, Anyone, Between;
    var p, r := Path([1, 2], [7]), Path([1, 2], [8]);
    TwoExtensions(g, q);
    assert Level(g, q, 0) == {Root(q)};
    assert forall e :: e in Level(g, q, 1) <==> e in Extensions(g, q, Root(q));
    assert Paths(g, q, 0) == {} && Paths(g, q, 1) == {p, r};
    hide Paths, Level;
    assert p.links[0] == 7 && r.links[0] == 8;
    assert forall e :: e in {p, r} ==> e.Last() == 2;
    assert p in {p, r} && Ends({p, r}) == {2};
    assert Reached(g, q, 1) == {1} + {2};
  }

  lemma TwoExtensions(g: Graph, q: Query)
    requires q == Query(0, 1, 10, 1, 2, {})
    requires g == Graph(map[1 := Anyone(), 2 := Anyone()], map[7 := Between("OWNS"), 8 := Between("SUPPLIES")])
    ensures Extensions(g, q, Root(q)) == {Path([1, 2], [7]), Path([1, 2], [8])}
  {
    assert EntityVisible(g, q, 2) && RelationshipVisible(g, q, 7) && RelationshipVisible(g, q, 8);
    hide EntityVisible, RelationshipVisible;
    assert Extension(g, Root(q), 7) == Path([1, 2], [7]) && Extension(g, Root(q), 8) == Path([1, 2], [8]);
    assert Extends(g, q, Root(q), 7) && Extends(g, q, Root(q), 8);
  }
}
