/** When a row counts: what a traversal returns in terms of the rows' own fields, and how the answer
    changes when a relationship or an entity starts, ends, becomes known or is judged. */
module GraphValidity {
  import opened Options
  import opened GraphModel
  import opened GraphTraversal

  // ---------------------------------------------------------------- paths by the rows' fields

  /** At the query's time the entity row is one the query may see. */
  ghost predicate Sees(g: Graph, q: Query, id: EntityId) {
    && id in g.entities
    && var e := g.entities[id];
       && e.workspace == q.workspace && e.status in {Verified, Disputed}
       && e.eligible <= q.asOf && e.validFrom <= q.asOf && (e.validTo == None || q.asOf < e.validTo.value)
  }

  /** At that time the relationship row joins two entities, either way round, and the second is seen. */
  ghost predicate Joins(g: Graph, q: Query, from: EntityId, link: RelationshipId, to: EntityId) {
    && link in g.relationships && Sees(g, q, to)
    && var r := g.relationships[link];
       && ((r.subject == from && r.object_ == to) || (r.subject == to && r.object_ == from))
       && r.workspace == q.workspace && r.status in {Verified, Disputed}
       && r.eligible <= q.asOf && r.validFrom <= q.asOf && (r.validTo == None || q.asOf < r.validTo.value)
       && (r.predicateName in q.predicates || q.predicates == {})
  }

  lemma HopJoins(g: Graph, q: Query, from: EntityId, link: RelationshipId, to: EntityId)
    requires from != to
    ensures Hop(g, q, from, link, to) <==> Joins(g, q, from, link, to)
  {}

  /** The paths are the sequences of at most `k` joins from the start that repeat no entity. */
  lemma PathsByFields(g: Graph, q: Query, k: nat, p: Path)
    ensures p in Paths(g, q, k) <==>
      && 1 <= |p.links| <= k && |p.nodes| == |p.links| + 1 && p.nodes[0] == q.start
      && (forall i, j :: 0 <= i < j < |p.nodes| ==> p.nodes[i] != p.nodes[j])
      && forall i :: 0 <= i < |p.links| ==> Joins(g, q, p.nodes[i], p.links[i], p.nodes[i + 1])
  {
    hide Hop, Joins;
    PathsAreSimplePaths(g, q, k);
    if p.Valid() && forall i, j :: 0 <= i < j < |p.nodes| ==> p.nodes[i] != p.nodes[j] {
      forall i | 0 <= i < |p.links|
        ensures Hop(g, q, p.nodes[i], p.links[i], p.nodes[i + 1]) <==>
          Joins(g, q, p.nodes[i], p.links[i], p.nodes[i + 1])
      {
        HopJoins(g, q, p.nodes[i], p.links[i], p.nodes[i + 1]);
      }
    }
  }

  /** The entities reached by at most `k` joins, by any walk. */
  ghost predicate ReachedBy(g: Graph, q: Query, x: EntityId, k: nat)
    decreases k
  {
    x == q.start || (k > 0 && exists y, link :: ReachedBy(g, q, y, k - 1) && Joins(g, q, y, link, x))
  }

  lemma ReachedByFields(g: Graph, q: Query, k: nat)
    ensures forall x :: x in Reached(g, q, k) <==> ReachedBy(g, q, x, k)
  {
    ReachedIsWithinHops(g, q, k);
    WithinByFields(g, q, k);
  }

  lemma {:induction false} WithinByFields(g: Graph, q: Query, k: nat)
    ensures forall x :: x in WithinHops(g, q, k) <==> ReachedBy(g, q, x, k)
    decreases k
  {
    hide Hop, Joins, ReachedBy, WithinHops;
    if k > 0 { WithinByFields(g, q, k - 1); }
    forall x ensures x in WithinHops(g, q, k) <==> ReachedBy(g, q, x, k) {
      if k == 0 || x == q.start {
        StartWithin(g, q, k);
        StartReached(g, q, x, k);
      } else {
        if x in WithinHops(g, q, k) {
          if x in WithinHops(g, q, k - 1) {
            ReachedLater(g, q, x, k - 1);
          } else {
            var y, link := LastHop(g, q, k, x);
            HopJoins(g, q, y, link, x);
            ReachedNext(g, q, y, link, x, k - 1);
          }
        }
        if ReachedBy(g, q, x, k) && x !in WithinHops(g, q, k - 1) {
          var y, link := LastJoin(g, q, x, k);
          HopJoins(g, q, y, link, x);
          WithinNext(g, q, y, link, x, k - 1);
        }
        WithinLater(g, q, k - 1);
      }
    }
  }

  lemma StartReached(g: Graph, q: Query, x: EntityId, k: nat)
    ensures x == q.start ==> ReachedBy(g, q, x, k)
    ensures k == 0 ==> (ReachedBy(g, q, x, k) <==> x == q.start) && WithinHops(g, q, k) == {q.start}
  {}

  lemma ReachedNext(g: Graph, q: Query, y: EntityId, link: RelationshipId, x: EntityId, k: nat)
    requires ReachedBy(g, q, y, k) && Joins(g, q, y, link, x)
    ensures ReachedBy(g, q, x, k + 1)
  {
    hide Joins;
  }

  lemma LastJoin(g: Graph, q: Query, x: EntityId, k: nat) returns (y: EntityId, link: RelationshipId)
    requires ReachedBy(g, q, x, k) && x != q.start
    ensures k > 0 && ReachedBy(g, q, y, k - 1) && Joins(g, q, y, link, x)
  {
    hide Joins;
    y, link :| ReachedBy(g, q, y, k - 1) && Joins(g, q, y, link, x);
  }

  lemma WithinNext(g: Graph, q: Query, y: EntityId, link: RelationshipId, x: EntityId, k: nat)
    requires y in WithinHops(g, q, k) && Hop(g, q, y, link, x)
    ensures x in WithinHops(g, q, k + 1)
  {
    HopEnds(g, q, y, link, x);
    hide Hop;
  }

  lemma WithinLater(g: Graph, q: Query, k: nat)
    ensures WithinHops(g, q, k) <= WithinHops(g, q, k + 1)
  {
    hide Hop;
  }

  lemma HopEnds(g: Graph, q: Query, y: EntityId, link: RelationshipId, x: EntityId)
    requires Hop(g, q, y, link, x)
    ensures link in g.relationships && x == OtherEnd(g.relationships[link], y)
  {}

  lemma {:induction false} StartWithin(g: Graph, q: Query, k: nat)
    ensures q.start in WithinHops(g, q, k)
  {
    hide Hop;
    if k > 0 { StartWithin(g, q, k - 1); }
  }

  lemma {:induction false} ReachedLater(g: Graph, q: Query, x: EntityId, k: nat)
    requires ReachedBy(g, q, x, k)
    ensures ReachedBy(g, q, x, k + 1)
    decreases k
  {
    hide Joins;
    hide ReachedBy;
    if x == q.start {
      StartReached(g, q, x, k + 1);
    } else {
      var y, link := LastJoin(g, q, x, k);
      ReachedLater(g, q, y, k - 1);
      ReachedNext(g, q, y, link, x, k);
    }
  }

  /** The relationships on the paths are the rows that join an entity reached a hop before the last to
      another one. */
  lemma LinksByFields(g: Graph, q: Query, k: nat, link: RelationshipId)
    requires k > 0
    ensures link in LinksOf(Paths(g, q, k)) <==>
      exists x, y :: x != y && ReachedBy(g, q, x, k - 1) && Joins(g, q, x, link, y)
  {
    hide Joins, ReachedBy, Paths, LinksOf;
    if link in LinksOf(Paths(g, q, k)) {
      var x, y := JoinOnPath(g, q, k, link);
    }
    if x, y :| x != y && ReachedBy(g, q, x, k - 1) && Joins(g, q, x, link, y) {
      ReachedByFields(g, q, k - 1);
      ReachedIsWithinHops(g, q, k - 1);
      var p := WalkToPath(g, q, k - 1, x);
      HopJoins(g, q, x, link, y);
      var t := PathAcross(g, q, p, link, y);
      PathHasLink(g, q, k, t, link);
    }
  }

  lemma JoinOnPath(g: Graph, q: Query, k: nat, link: RelationshipId) returns (x: EntityId, y: EntityId)
    requires k > 0 && link in LinksOf(Paths(g, q, k))
    ensures x != y && ReachedBy(g, q, x, k - 1) && Joins(g, q, x, link, y)
  {
    hide Joins, ReachedBy, Paths, Hop;
    PathsAreSimplePaths(g, q, k);
    var p :| p in Paths(g, q, k) && link in p.links;
    var i :| 0 <= i < |p.links| && p.links[i] == link;
    x, y := p.nodes[i], p.nodes[i + 1];
    Truncate(g, q, p, i);
    PathToWalk(g, q, Path(p.nodes[..i + 1], p.links[..i]), k - 1);
    WithinByFields(g, q, k - 1);
    HopJoins(g, q, x, link, y);
  }

  /** A visible hop from the end of a simple path to another entity is on some simple path no more than
      one hop longer: beyond its end or, where the hop leads back, in the other direction. */
  lemma PathAcross(g: Graph, q: Query, p: Path, link: RelationshipId, y: EntityId) returns (t: Path)
    requires SimplePath(g, q, p) && p.Last() != y && Hop(g, q, p.Last(), link, y)
    ensures SimplePath(g, q, t) && 1 <= t.Depth() <= p.Depth() + 1 && link in t.links
  {
    hide Hop;
    var x, n := p.Last(), |p.links|;
    if y in p.nodes {
      var i :| 0 <= i < |p.nodes| && p.nodes[i] == y;
      Truncate(g, q, p, i);
      var back := Path(p.nodes[..i + 1], p.links[..i]);
      assert Hop(g, q, p.nodes[n - 1], p.links[n - 1], p.nodes[n - 1 + 1]);
      HopBack(g, q, p.nodes[n - 1], p.links[n - 1], x, link, y);
      ThenSimple(g, q, back, link, x);
      t := back.Then(link, x);
    } else {
      ThenSimple(g, q, p, link, y);
      t := p.Then(link, y);
    }
    assert t.links[|t.links| - 1] == link;
  }

  lemma HopBack(g: Graph, q: Query, w: EntityId, before: RelationshipId, x: EntityId, link: RelationshipId, y: EntityId)
    requires Hop(g, q, w, before, x) && Hop(g, q, x, link, y) && x != y
    ensures Hop(g, q, y, link, x)
  {}

  lemma PathHasLink(g: Graph, q: Query, k: nat, p: Path, link: RelationshipId)
    requires SimplePath(g, q, p) && 1 <= p.Depth() <= k && link in p.links
    ensures link in LinksOf(Paths(g, q, k))
  {
    PathsAreSimplePaths(g, q, k);
  }

  /** What the traversal answers in terms of the rows' fields: the limits it refuses, the start it does
      not see, and otherwise, unless that is more than it may return, the entities reached, the rows that
      join them and every path. */
  lemma AnswersByFields(g: Graph, q: Query, r: Outcome)
    requires Answers(g, q, r)
    ensures r.InvalidLimits? <==> q.maxDepth < 1 || 5 < q.maxDepth || q.maxNodes < 1 || 500 < q.maxNodes
    ensures !r.InvalidLimits? ==> (r.StartNotVisible? <==> !Sees(g, q, q.start))
    ensures r.Found? ==>
      && |r.nodes| <= q.maxNodes
      && (forall x :: x in r.nodes <==> ReachedBy(g, q, x, q.maxDepth))
      && (forall link :: link in r.relationships <==>
            exists x, y :: x != y && ReachedBy(g, q, x, q.maxDepth - 1) && Joins(g, q, x, link, y))
      && forall p :: p in r.paths <==> p in Paths(g, q, q.maxDepth)
  {
    hide Joins, ReachedBy, Paths, LinksOf, Reached;
    if r.Found? {
      ReachedByFields(g, q, q.maxDepth);
      forall link ensures link in r.relationships <==>
            exists x, y :: x != y && ReachedBy(g, q, x, q.maxDepth - 1) && Joins(g, q, x, link, y)
      {
        LinksByFields(g, q, q.maxDepth, link);
      }
      assert forall p :: p in r.paths <==> p in Members(r.paths);
    }
  }

  // ---------------------------------------------------------------- when rows change

  /** The path uses none of the relationships, and past its start none of the entities. */
  ghost predicate Avoids(p: Path, gone: set<RelationshipId>, lost: set<EntityId>) {
    && (forall link :: link in p.links ==> link !in gone)
    && forall i :: 1 <= i < |p.nodes| ==> p.nodes[i] !in lost
  }

  /** The second answer has exactly the paths of the first that avoid the rows, with the entities and
      relationships on them; the first being within its limits, so is the second. */
  ghost predicate Loses(q: Query, r: Outcome, r': Outcome, gone: set<RelationshipId>, lost: set<EntityId>) {
    if q.start in lost then r' == if r.InvalidLimits? then InvalidLimits else StartNotVisible
    else if !r.Found? then r.NodeLimitExceeded? || r' == r
    else
      && r'.Found?
      && (forall p :: p in r'.paths <==> p in r.paths && Avoids(p, gone, lost))
      && (forall x :: x in r'.nodes <==> x == q.start || exists p :: p in r'.paths && p.nodes != [] && Final(p) == x)
      && forall link :: link in r'.relationships <==> exists p :: p in r'.paths && link in p.links
  }

  ghost function Final(p: Path): EntityId
    requires p.nodes != []
  {
    p.nodes[|p.nodes| - 1]
  }

  /** The second graph shows what the first does, but for some rows. */
  ghost predicate ShowsLess(g: Graph, g': Graph, q: Query, gone: set<RelationshipId>, lost: set<EntityId>) {
    && (forall id :: EntityVisible(g', q, id) <==> EntityVisible(g, q, id) && id !in lost)
    && (forall link :: RelationshipVisible(g', q, link) <==> RelationshipVisible(g, q, link) && link !in gone)
    && forall link :: RelationshipVisible(g', q, link) ==>
         && g'.relationships[link].subject == g.relationships[link].subject
         && g'.relationships[link].object_ == g.relationships[link].object_
  }

  lemma LessHops(g: Graph, g': Graph, q: Query, gone: set<RelationshipId>, lost: set<EntityId>, k: nat)
    requires ShowsLess(g, g', q, gone, lost)
    ensures forall p :: p in Paths(g', q, k) <==> p in Paths(g, q, k) && Avoids(p, gone, lost)
  {
    hide Paths, EntityVisible, RelationshipVisible;
    PathsAreSimplePaths(g, q, k);
    PathsAreSimplePaths(g', q, k);
    forall p ensures SimplePath(g', q, p) <==> SimplePath(g, q, p) && Avoids(p, gone, lost) {
      LessSimple(g, g', q, gone, lost, p);
    }
  }

  lemma LessSimple(g: Graph, g': Graph, q: Query, gone: set<RelationshipId>, lost: set<EntityId>, p: Path)
    requires ShowsLess(g, g', q, gone, lost)
    ensures SimplePath(g', q, p) <==> SimplePath(g, q, p) && Avoids(p, gone, lost)
  {
    hide Hop, ShowsLess;
    if SimplePath(g', q, p) {
      forall i | 0 <= i < |p.links| ensures Hop(g, q, p.nodes[i], p.links[i], p.nodes[i + 1]) && p.links[i] !in gone {
        LessHop(g, g', q, gone, lost, p.nodes[i], p.links[i], p.nodes[i + 1]);
      }
      forall i | 1 <= i < |p.nodes| ensures p.nodes[i] !in lost {
        assert Hop(g', q, p.nodes[i - 1], p.links[i - 1], p.nodes[i - 1 + 1]);
        LessHop(g, g', q, gone, lost, p.nodes[i - 1], p.links[i - 1], p.nodes[i]);
      }
    }
    if SimplePath(g, q, p) && Avoids(p, gone, lost) {
      forall i | 0 <= i < |p.links| ensures Hop(g', q, p.nodes[i], p.links[i], p.nodes[i + 1]) {
        assert Hop(g, q, p.nodes[i], p.links[i], p.nodes[i + 1]) && p.links[i] in p.links;
        LessHop(g, g', q, gone, lost, p.nodes[i], p.links[i], p.nodes[i + 1]);
      }
    }
  }

  lemma LessHop(g: Graph, g': Graph, q: Query, gone: set<RelationshipId>, lost: set<EntityId>, x: EntityId,
                link: RelationshipId, y: EntityId)
    requires ShowsLess(g, g', q, gone, lost)
    ensures Hop(g', q, x, link, y) <==> Hop(g, q, x, link, y) && link !in gone && y !in lost
  {
    hide EntityVisible;
  }

  /** To any depth, the second graph has exactly the paths of the first that avoid the rows, and reaches
      the entities at their ends. */
  ghost predicate LosesPaths(g: Graph, g': Graph, q: Query, gone: set<RelationshipId>, lost: set<EntityId>) {
    && (forall k, p :: p in Paths(g', q, k) <==> p in Paths(g, q, k) && Avoids(p, gone, lost))
    && forall k, x :: x in Reached(g', q, k) <==>
         x == q.start || exists p :: p in Paths(g, q, k) && Avoids(p, gone, lost) && p.nodes != [] && Final(p) == x
  }

  lemma LessPaths(g: Graph, g': Graph, q: Query, gone: set<RelationshipId>, lost: set<EntityId>)
    requires ShowsLess(g, g', q, gone, lost)
    ensures LosesPaths(g, g', q, gone, lost)
  {
    hide Paths, Avoids, ShowsLess, Reached, Final;
    forall k: nat ensures forall p :: p in Paths(g', q, k) <==> p in Paths(g, q, k) && Avoids(p, gone, lost) {
      LessHops(g, g', q, gone, lost, k);
    }
    forall k: nat, x ensures x in Reached(g', q, k) <==>
      x == q.start || exists p :: p in Paths(g, q, k) && Avoids(p, gone, lost) && p.nodes != [] && Final(p) == x
    {
      ReachedEnds(g', q, k, x);
    }
  }

  lemma ReachedEnds(g: Graph, q: Query, k: nat, x: EntityId)
    ensures x in Reached(g, q, k) <==>
      x == q.start || exists p :: p in Paths(g, q, k) && p.nodes != [] && Final(p) == x
  {
    hide Paths;
    assert forall p :: p in Paths(g, q, k) ==> p.Valid() && p.nodes != [] && p.Last() == Final(p);
  }

  lemma LessAnswered(g: Graph, g': Graph, q: Query, gone: set<RelationshipId>, lost: set<EntityId>, r: Outcome,
                     r': Outcome)
    requires ShowsLess(g, g', q, gone, lost) && Answers(g, q, r) && Answers(g', q, r')
    ensures Loses(q, r, r', gone, lost)
  {
    hide Paths, EntityVisible, RelationshipVisible, Avoids, Reached, LinksOf, Members;
    if LimitsValid(q) {
      LessHops(g, g', q, gone, lost, q.maxDepth);
      FewerReached(g, g', q, q.maxDepth);
      if r.Found? && q.start !in lost {
        FoundPaths(g, q, r);
        FoundPaths(g', q, r');
      }
    }
  }

  lemma FoundPaths(g: Graph, q: Query, r: Outcome)
    requires r.Found? && Answers(g, q, r)
    ensures LimitsValid(q) && forall p :: p in r.paths <==> p in Paths(g, q, q.maxDepth)
    ensures forall x :: x in r.nodes <==> x == q.start || exists p :: p in r.paths && p.nodes != [] && Final(p) == x
    ensures forall link :: link in r.relationships <==> exists p :: p in r.paths && link in p.links
  {
    hide Paths;
    assert forall p :: p in r.paths <==> p in Members(r.paths);
    assert forall p :: p in r.paths ==> p.Valid() && p.nodes != [] && p.Last() == Final(p);
  }

  lemma FewerReached(g: Graph, g': Graph, q: Query, k: nat)
    requires forall p :: p in Paths(g', q, k) ==> p in Paths(g, q, k)
    ensures Reached(g', q, k) <= Reached(g, q, k) && |Reached(g', q, k)| <= |Reached(g, q, k)|
  {
    hide Paths;
    var less, more := Reached(g', q, k), Reached(g, q, k);
    assert more == less + (more - less);
  }

  // ---------------------------------------------------------------- one row at a time

  function WithRelationship(g: Graph, id: RelationshipId, row: Relationship): Graph {
    g.(relationships := g.relationships[id := row])
  }

  function WithEntity(g: Graph, id: EntityId, row: Entity): Graph {
    g.(entities := g.entities[id := row])
  }

  /** A relationship without an end, or an entity without one, is given the end `v`: it is gone from then on. */
  lemma RelationshipEnds(g: Graph, q: Query, id: RelationshipId, v: Time, r: Outcome, r': Outcome)
    requires id in g.relationships && g.relationships[id].validTo.None?
    requires Answers(g, q, r) && Answers(WithRelationship(g, id, g.relationships[id].(validTo := Some(v))), q, r')
    ensures LosesPaths(g, WithRelationship(g, id, g.relationships[id].(validTo := Some(v))), q,
                       if v <= q.asOf then {id} else {}, {})
    ensures Loses(q, r, r', if v <= q.asOf then {id} else {}, {})
  {
    hide Answers, Loses, LosesPaths;
    var g' := WithRelationship(g, id, g.relationships[id].(validTo := Some(v)));
    LessPaths(g, g', q, if v <= q.asOf then {id} else {}, {});
    LessAnswered(g, g', q, if v <= q.asOf then {id} else {}, {}, r, r');
  }

  lemma EntityEnds(g: Graph, q: Query, id: EntityId, v: Time, r: Outcome, r': Outcome)
    requires id in g.entities && g.entities[id].validTo.None?
    requires Answers(g, q, r) && Answers(WithEntity(g, id, g.entities[id].(validTo := Some(v))), q, r')
    ensures LosesPaths(g, WithEntity(g, id, g.entities[id].(validTo := Some(v))), q,
                       {}, if v <= q.asOf then {id} else {})
    ensures Loses(q, r, r', {}, if v <= q.asOf then {id} else {})
  {
    hide Answers, Loses, LosesPaths;
    var g' := WithEntity(g, id, g.entities[id].(validTo := Some(v)));
    LessPaths(g, g', q, {}, if v <= q.asOf then {id} else {});
    LessAnswered(g, g', q, {}, if v <= q.asOf then {id} else {}, r, r');
  }

  /** One that had begun is made to begin at `v`: it is gone before. */
  lemma RelationshipStarts(g: Graph, q: Query, id: RelationshipId, v: Time, r: Outcome, r': Outcome)
    requires id in g.relationships && g.relationships[id].validFrom <= q.asOf
    requires Answers(g, q, r) && Answers(WithRelationship(g, id, g.relationships[id].(validFrom := v)), q, r')
    ensures LosesPaths(g, WithRelationship(g, id, g.relationships[id].(validFrom := v)), q,
                       if q.asOf < v then {id} else {}, {})
    ensures Loses(q, r, r', if q.asOf < v then {id} else {}, {})
  {
    hide Answers, Loses, LosesPaths;
    var g' := WithRelationship(g, id, g.relationships[id].(validFrom := v));
    LessPaths(g, g', q, if q.asOf < v then {id} else {}, {});
    LessAnswered(g, g', q, if q.asOf < v then {id} else {}, {}, r, r');
  }

  lemma EntityStarts(g: Graph, q: Query, id: EntityId, v: Time, r: Outcome, r': Outcome)
    requires id in g.entities && g.entities[id].validFrom <= q.asOf
    requires Answers(g, q, r) && Answers(WithEntity(g, id, g.entities[id].(validFrom := v)), q, r')
    ensures LosesPaths(g, WithEntity(g, id, g.entities[id].(validFrom := v)), q,
                       {}, if q.asOf < v then {id} else {})
    ensures Loses(q, r, r', {}, if q.asOf < v then {id} else {})
  {
    hide Answers, Loses, LosesPaths;
    var g' := WithEntity(g, id, g.entities[id].(validFrom := v));
    LessPaths(g, g', q, {}, if q.asOf < v then {id} else {});
    LessAnswered(g, g', q, {}, if q.asOf < v then {id} else {}, r, r');
  }

  /** One that was known is made eligible only at `v`: it is gone before. */
  lemma RelationshipLearnt(g: Graph, q: Query, id: RelationshipId, v: Time, r: Outcome, r': Outcome)
    requires id in g.relationships && g.relationships[id].eligible <= q.asOf
    requires Answers(g, q, r) && Answers(WithRelationship(g, id, g.relationships[id].(eligible := v)), q, r')
    ensures LosesPaths(g, WithRelationship(g, id, g.relationships[id].(eligible := v)), q,
                       if q.asOf < v then {id} else {}, {})
    ensures Loses(q, r, r', if q.asOf < v then {id} else {}, {})
  {
    hide Answers, Loses, LosesPaths;
    var g' := WithRelationship(g, id, g.relationships[id].(eligible := v));
    LessPaths(g, g', q, if q.asOf < v then {id} else {}, {});
    LessAnswered(g, g', q, if q.asOf < v then {id} else {}, {}, r, r');
  }

  lemma EntityLearnt(g: Graph, q: Query, id: EntityId, v: Time, r: Outcome, r': Outcome)
    requires id in g.entities && g.entities[id].eligible <= q.asOf
    requires Answers(g, q, r) && Answers(WithEntity(g, id, g.entities[id].(eligible := v)), q, r')
    ensures LosesPaths(g, WithEntity(g, id, g.entities[id].(eligible := v)), q,
                       {}, if q.asOf < v then {id} else {})
    ensures Loses(q, r, r', {}, if q.asOf < v then {id} else {})
  {
    hide Answers, Loses, LosesPaths;
    var g' := WithEntity(g, id, g.entities[id].(eligible := v));
    LessPaths(g, g', q, {}, if q.asOf < v then {id} else {});
    LessAnswered(g, g', q, {}, if q.asOf < v then {id} else {}, r, r');
  }

  /** One that was verified or disputed is given the status `s`: it is gone unless that is one of the two. */
  lemma RelationshipJudged(g: Graph, q: Query, id: RelationshipId, s: Status, r: Outcome, r': Outcome)
    requires id in g.relationships && g.relationships[id].status in {Verified, Disputed}
    requires Answers(g, q, r) && Answers(WithRelationship(g, id, g.relationships[id].(status := s)), q, r')
    ensures LosesPaths(g, WithRelationship(g, id, g.relationships[id].(status := s)), q,
                       if s in {Verified, Disputed} then {} else {id}, {})
    ensures Loses(q, r, r', if s in {Verified, Disputed} then {} else {id}, {})
  {
    hide Answers, Loses, LosesPaths;
    var g' := WithRelationship(g, id, g.relationships[id].(status := s));
    LessPaths(g, g', q, if s in {Verified, Disputed} then {} else {id}, {});
    LessAnswered(g, g', q, if s in {Verified, Disputed} then {} else {id}, {}, r, r');
  }

  lemma EntityJudged(g: Graph, q: Query, id: EntityId, s: Status, r: Outcome, r': Outcome)
    requires id in g.entities && g.entities[id].status in {Verified, Disputed}
    requires Answers(g, q, r) && Answers(WithEntity(g, id, g.entities[id].(status := s)), q, r')
    ensures LosesPaths(g, WithEntity(g, id, g.entities[id].(status := s)), q,
                       {}, if s in {Verified, Disputed} then {} else {id})
    ensures Loses(q, r, r', {}, if s in {Verified, Disputed} then {} else {id})
  {
    hide Answers, Loses, LosesPaths;
    var g' := WithEntity(g, id, g.entities[id].(status := s));
    LessPaths(g, g', q, {}, if s in {Verified, Disputed} then {} else {id});
    LessAnswered(g, g', q, {}, if s in {Verified, Disputed} then {} else {id}, r, r');
  }
}
