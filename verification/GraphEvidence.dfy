/** The write side of the graph: evidence records, relationships that rest on them, and what a
    historical reader of those relationships can rely on. */
module GraphEvidence {
  import opened Options
  import opened GraphModel
  import GraphTraversal

  type EvidenceId = nat

  datatype Evidence = Evidence(
    workspace: nat, source: string, checksum: string, publication: Time, eligible: Time)

  datatype Link = Link(relationship: RelationshipId, evidence: EvidenceId, direction: string)

  /** One item of a new relationship's evidence list. */
  datatype Support = Support(evidence: EvidenceId, direction: string)

  const SUPPORTING := "supporting"
  const CONTRADICTING := "contradicting"

  datatype Tables = Tables(graph: Graph, evidence: map<EvidenceId, Evidence>, links: set<Link>)

  // ---------------------------------------------------------------- evidence

  predicate Sha256(checksum: string) {
    |checksum| == 64 && forall c :: c in checksum ==> '0' <= c <= '9' || 'a' <= c <= 'f'
  }

  predicate SameSource(x: Evidence, y: Evidence) {
    x.workspace == y.workspace && x.checksum == y.checksum && x.source == y.source
  }

  /** Recording evidence is idempotent by workspace, checksum and source; None is an error. */
  function Record(t: Tables, e: Evidence, id: EvidenceId): Option<Tables> {
    if !Sha256(e.checksum) || e.eligible < e.publication then None
    else if exists i :: i in t.evidence && SameSource(t.evidence[i], e) then Some(t)
    else Some(t.(evidence := t.evidence[id := e]))
  }

  // ---------------------------------------------------------------- relationships

  /** The latest eligibility among the supporting items, or `floor` when there are none. */
  function EvidenceFloor(t: Tables, support: seq<Support>, floor: Time): Time
    requires forall s :: s in support ==> s.evidence in t.evidence
  {
    match LatestSupport(t, support)
    case None => floor
    case Some(latest) => latest
  }

  function LatestSupport(t: Tables, support: seq<Support>): (latest: Option<Time>)
    requires forall s :: s in support ==> s.evidence in t.evidence
    ensures forall s :: s in support && s.direction == SUPPORTING ==>
      latest.Some? && t.evidence[s.evidence].eligible <= latest.value
  {
    if support == [] then None
    else
      var rest := LatestSupport(t, support[1..]);
      assert forall s :: s in support <==> s == support[0] || s in support[1..];
      var time := t.evidence[support[0].evidence].eligible;
      if support[0].direction == SUPPORTING && (rest.None? || rest.value < time) then Some(time) else rest
  }

  predicate Supported(support: seq<Support>) { exists s :: s in support && s.direction == SUPPORTING }

  predicate Acceptable(t: Tables, r: Relationship, support: seq<Support>, vocabulary: set<string>)
    requires forall s :: s in support ==> s.evidence in t.evidence
  {
    && r.subject in t.graph.entities && r.object_ in t.graph.entities
    && t.graph.entities[r.subject].workspace == t.graph.entities[r.object_].workspace == r.workspace
    && r.subject != r.object_
    && r.predicateName in vocabulary
    && (r.status.Verified? ==> Supported(support))
    && r.eligible >= EvidenceFloor(t, support, r.eligible)
  }

  predicate SameFact(x: Relationship, y: Relationship) {
    && x.workspace == y.workspace && x.subject == y.subject && x.predicateName == y.predicateName
    && x.object_ == y.object_ && x.validFrom == y.validFrom
  }

  predicate KnownDirection(direction: string) { direction == SUPPORTING || direction == CONTRADICTING }

  /** The links written before the first item with an unknown direction stops the loop. */
  function LinksFor(id: RelationshipId, support: seq<Support>): set<Link> {
    if support == [] || !KnownDirection(support[0].direction) then {}
    else {Link(id, support[0].evidence, support[0].direction)} + LinksFor(id, support[1..])
  }

  predicate AllKnown(support: seq<Support>) { forall s :: s in support ==> KnownDirection(s.direction) }

  /** Some evidence is listed twice in one direction, which the links' unique constraint forbids. */
  predicate Repeats(support: seq<Support>) { exists i, j :: 0 <= i < j < |support| && support[i] == support[j] }

  datatype Written = Written(tables: Tables, ok: bool)

  function WithFact(t: Tables, r: Relationship, support: seq<Support>, id: RelationshipId): Tables {
    t.(graph := t.graph.(relationships := t.graph.relationships[id := r]), links := t.links + LinksFor(id, support))
  }

  /** What `create_relationship` leaves in the session, whether it returns or raises.  A repeated
      link makes the flush fail, which undoes the unit of work; an unknown direction does not. */
  function Write(t: Tables, r: Relationship, support: seq<Support>, vocabulary: set<string>, id: RelationshipId)
    : Written
    requires forall s :: s in support ==> s.evidence in t.evidence
  {
    if !Acceptable(t, r, support, vocabulary) then Written(t, false)
    else if exists i :: i in t.graph.relationships && SameFact(t.graph.relationships[i], r) then Written(t, true)
    else if AllKnown(support) && Repeats(support) then Written(t, false)
    else Written(WithFact(t, r, support, id), AllKnown(support))
  }

  /** The unit of work around a write: an error rolls everything back. */
  function Commit(t: Tables, w: Written): Tables { if w.ok then w.tables else t }

  function ExpireAt(t: Tables, id: RelationshipId, validTo: Time): Option<Tables>
    requires id in t.graph.relationships
  {
    var r := t.graph.relationships[id];
    if validTo <= r.validFrom then None
    else Some(t.(graph := t.graph.(relationships :=
           t.graph.relationships[id := r.(validTo := Some(validTo), status := Expired)])))
  }

  class EvidenceStore {
    var graph: Graph
    var evidence: map<EvidenceId, Evidence>
    var links: set<Link>

    function Rows(): Tables
      reads this
    {
      Tables(graph, evidence, links)
    }

    constructor ()
      ensures Rows() == Tables(Graph(map[], map[]), map[], {})
    {
      graph, evidence, links := Graph(map[], map[]), map[], {};
    }

    method CreateEvidence(e: Evidence, id: EvidenceId) returns (ok: bool)
      modifies this`evidence
      ensures ok == Record(old(Rows()), e, id).Some?
      ensures Rows() == if ok then Record(old(Rows()), e, id).value else old(Rows())
    {
      if !Sha256(e.checksum) || e.eligible < e.publication {
        return false;
      }
      if !exists i :: i in evidence && SameSource(evidence[i], e) {
        evidence := evidence[id := e];
      }
      ok := true;
    }

    /** Writes the row, then its evidence links one by one; a bad direction stops midway, and a
        repeated link fails at the end. */
    method CreateRelationship(r: Relationship, support: seq<Support>, vocabulary: set<string>, id: RelationshipId)
      returns (ok: bool)
      requires forall s :: s in support ==> s.evidence in evidence
      modifies this`graph, this`links
      ensures Written(Rows(), ok) == Write(old(Rows()), r, support, vocabulary, id)
    {
      hide Acceptable, SameFact, KnownDirection, Repeats;
      if !Acceptable(Rows(), r, support, vocabulary) {
        return false;
      }
      if exists i :: i in graph.relationships && SameFact(graph.relationships[i], r) {
        return true;
      }
      var savedGraph, savedLinks := graph, links;
      graph := graph.(relationships := graph.relationships[id := r]);
      var i := 0;
      while i < |support|
        invariant 0 <= i <= |support|
        invariant graph == old(graph).(relationships := old(graph.relationships)[id := r])
        invariant links + LinksFor(id, support[i..]) == old(links) + LinksFor(id, support)
        invariant forall j :: 0 <= j < i ==> KnownDirection(support[j].direction)
      {
        if !KnownDirection(support[i].direction) {
          assert support[i] in support;
          return false;
        }
        links := links + {Link(id, support[i].evidence, support[i].direction)};
        assert support[i..][1..] == support[i + 1..];
        i := i + 1;
      }
      if Repeats(support) {
        graph, links := savedGraph, savedLinks;
        return false;
      }
      ok := true;
    }

    /** A write inside its unit of work. */
    method CreateRelationshipInScope(r: Relationship, support: seq<Support>,
                                     vocabulary: set<string>, id: RelationshipId)
      returns (ok: bool)
      requires forall s :: s in support ==> s.evidence in evidence
      modifies this
      ensures ok == Write(old(Rows()), r, support, vocabulary, id).ok
      ensures Rows() == Commit(old(Rows()), Write(old(Rows()), r, support, vocabulary, id))
    {
      var savedGraph, savedLinks := graph, links;
      ok := CreateRelationship(r, support, vocabulary, id);
      if !ok {
        graph, links := savedGraph, savedLinks;
      }
    }

    method ExpireRelationship(id: RelationshipId, validTo: Time) returns (ok: bool)
      requires id in graph.relationships
      modifies this`graph
      ensures ok == ExpireAt(old(Rows()), id, validTo).Some?
      ensures Rows() == if ok then ExpireAt(old(Rows()), id, validTo).value else old(Rows())
      ensures ok <==> old(graph.relationships[id].validFrom) < validTo
      ensures graph.entities == old(graph.entities) && graph.relationships.Keys == old(graph.relationships.Keys)
      ensures forall r :: r in graph.relationships && r != id ==> graph.relationships[r] == old(graph.relationships[r])
      ensures ok ==> forall asOf :: !Live(graph.relationships[id].eligible, graph.relationships[id].validFrom,
                                          graph.relationships[id].validTo, graph.relationships[id].status, asOf)
    {
      var relationship := graph.relationships[id];
      if validTo <= relationship.validFrom {
        return false;
      }
      graph := graph.(relationships :=
        graph.relationships[id := relationship.(validTo := Some(validTo), status := Expired)]);
      ok := true;
    }

    /** For each known, eligible relationship, in order, its links to eligible evidence. */
    method ExplainPath(ids: seq<RelationshipId>, asOf: Time) returns (explained: seq<(RelationshipId, set<Link>)>)
      ensures explained == Explanation(Rows(), ids, asOf)
    {
      hide Explanation, Explained;
      explained := [];
      ExplanationNone(Rows(), asOf);
      for i := 0 to |ids|
        invariant explained + Explanation(Rows(), ids[i..], asOf) == Explanation(Rows(), ids, asOf)
      {
        assert ids[i..][0] == ids[i] && ids[i..][1..] == ids[i + 1..];
        ExplanationNext(Rows(), ids[i..], asOf);
        explained := explained + Explained(Rows(), ids[i], asOf);
      }
      assert ids[|ids|..] == [];
    }
  }

  lemma ExplanationNone(t: Tables, asOf: Time)
    ensures Explanation(t, [], asOf) == []
  {}

  lemma ExplanationNext(t: Tables, ids: seq<RelationshipId>, asOf: Time)
    requires ids != []
    ensures Explanation(t, ids, asOf) == Explained(t, ids[0], asOf) + Explanation(t, ids[1..], asOf)
  {}

  function EligibleLinks(t: Tables, id: RelationshipId, asOf: Time): set<Link> {
    set l | l in t.links && l.relationship == id && l.evidence in t.evidence && t.evidence[l.evidence].eligible <= asOf
  }

  function Explained(t: Tables, id: RelationshipId, asOf: Time): seq<(RelationshipId, set<Link>)> {
    if id in t.graph.relationships && t.graph.relationships[id].eligible <= asOf
    then [(id, EligibleLinks(t, id, asOf))] else []
  }

  function Explanation(t: Tables, ids: seq<RelationshipId>, asOf: Time): seq<(RelationshipId, set<Link>)> {
    if ids == [] then [] else Explained(t, ids[0], asOf) + Explanation(t, ids[1..], asOf)
  }

  // ---------------------------------------------------------------- runs

  datatype Action =
    | AddEntity(entity: Entity)
    | AddEvidence(record: Evidence)
    | AddRelationship(fact: Relationship, support: seq<Support>)
    | Expire(relationship: RelationshipId, validTo: Time)

  ghost function Next(t: Tables, a: Action, id: nat, vocabulary: set<string>): Tables {
    match a
    case AddEntity(entity) => t.(graph := t.graph.(entities := t.graph.entities[id := entity]))
    case AddEvidence(record) => (match Record(t, record, id) case None => t case Some(t') => t')
    case AddRelationship(fact, support) =>
      if forall s :: s in support ==> s.evidence in t.evidence
      then Commit(t, Write(t, fact, support, vocabulary, id)) else t
    case Expire(relationship, validTo) =>
      if relationship in t.graph.relationships
      then (match ExpireAt(t, relationship, validTo) case None => t case Some(t') => t') else t
  }

  ghost function Run(actions: seq<Action>, vocabulary: set<string>): Tables {
    if actions == [] then Tables(Graph(map[], map[]), map[], {})
    else Next(Run(actions[..|actions| - 1], vocabulary), actions[|actions| - 1], |actions| - 1, vocabulary)
  }

  ghost predicate LinkSound(t: Tables, l: Link) {
    && l.relationship in t.graph.relationships && l.evidence in t.evidence
    && (l.direction == SUPPORTING ==> t.evidence[l.evidence].eligible <= t.graph.relationships[l.relationship].eligible)
  }

  ghost predicate HasSupport(t: Tables, id: RelationshipId) {
    exists l :: l in t.links && l.relationship == id && l.direction == SUPPORTING
  }

  ghost predicate Inv(t: Tables) {
    && (forall e :: e in t.evidence ==> t.evidence[e].publication <= t.evidence[e].eligible)
    && (forall l :: l in t.links ==> LinkSound(t, l))
    && (forall r :: r in t.graph.relationships && t.graph.relationships[r].status.Verified? ==> HasSupport(t, r))
  }

  ghost predicate Before(t: Tables, n: nat) {
    && (forall e :: e in t.evidence ==> e < n)
    && (forall r :: r in t.graph.relationships ==> r < n)
  }

  lemma {:induction false} LinksForAll(id: RelationshipId, support: seq<Support>)
    requires forall s :: s in support ==> KnownDirection(s.direction)
    ensures forall l :: l in LinksFor(id, support) <==>
      l.relationship == id && Support(l.evidence, l.direction) in support
  {
    if support != [] {
      LinksForAll(id, support[1..]);
      assert support == [support[0]] + support[1..];
    }
  }

  lemma FloorCovers(t: Tables, support: seq<Support>, floor: Time, s: Support)
    requires forall x :: x in support ==> x.evidence in t.evidence
    requires s in support && s.direction == SUPPORTING
    ensures t.evidence[s.evidence].eligible <= EvidenceFloor(t, support, floor)
  {}

  lemma WriteKeepsInv(t: Tables, r: Relationship, support: seq<Support>, vocabulary: set<string>, id: RelationshipId)
    requires Inv(t) && Before(t, id)
    requires forall s :: s in support ==> s.evidence in t.evidence
    ensures Inv(Commit(t, Write(t, r, support, vocabulary, id)))
    ensures Before(Commit(t, Write(t, r, support, vocabulary, id)), id + 1)
  {
    hide EvidenceFloor, LinksFor, KnownDirection;
    var w := Write(t, r, support, vocabulary, id);
    var t' := Commit(t, w);
    if t' != t {
      LinksForAll(id, support);
      forall l | l in t'.links ensures LinkSound(t', l) {
        if l in t.links {
          assert LinkSound(t, l);
        } else if l.direction == SUPPORTING {
          FloorCovers(t, support, r.eligible, Support(l.evidence, l.direction));
        }
      }
      forall i | i in t'.graph.relationships && t'.graph.relationships[i].status.Verified? ensures HasSupport(t', i) {
        if i == id {
          var s :| s in support && s.direction == SUPPORTING;
          assert Link(id, s.evidence, s.direction) in t'.links;
        } else {
          assert HasSupport(t, i);
        }
      }
    }
  }

  lemma ExpireKeepsInv(t: Tables, id: RelationshipId, validTo: Time)
    requires Inv(t) && id in t.graph.relationships && ExpireAt(t, id, validTo).Some?
    ensures Inv(ExpireAt(t, id, validTo).value)
  {
    var t' := ExpireAt(t, id, validTo).value;
    forall l | l in t'.links ensures LinkSound(t', l) { assert LinkSound(t, l); }
    forall i | i in t'.graph.relationships && t'.graph.relationships[i].status.Verified? ensures HasSupport(t', i) {
      assert HasSupport(t, i);
    }
  }

  lemma RecordKeepsInv(t: Tables, e: Evidence, id: EvidenceId)
    requires Inv(t) && Before(t, id) && Record(t, e, id).Some?
    ensures Inv(Record(t, e, id).value) && Before(Record(t, e, id).value, id + 1)
  {
    var t' := Record(t, e, id).value;
    forall l | l in t'.links ensures LinkSound(t', l) { assert LinkSound(t, l); }
    forall i | i in t'.graph.relationships && t'.graph.relationships[i].status.Verified? ensures HasSupport(t', i) {
      assert HasSupport(t, i);
    }
  }

  lemma EntityKeepsInv(t: Tables, entity: Entity, id: nat)
    requires Inv(t)
    ensures Inv(t.(graph := t.graph.(entities := t.graph.entities[id := entity])))
  {
    var t' := t.(graph := t.graph.(entities := t.graph.entities[id := entity]));
    forall l | l in t'.links ensures LinkSound(t', l) { assert LinkSound(t, l); }
    forall i | i in t'.graph.relationships && t'.graph.relationships[i].status.Verified? ensures HasSupport(t', i) {
      assert HasSupport(t, i);
    }
  }

  lemma {:induction false} InvOverRuns(actions: seq<Action>, vocabulary: set<string>)
    ensures Inv(Run(actions, vocabulary)) && Before(Run(actions, vocabulary), |actions|)
  {
    hide Inv, Record, Write, Commit;
    if actions == [] {
      assert Inv(Tables(Graph(map[], map[]), map[], {})) by { EmptyInv(); }
    } else {
      var t, a, id := Run(actions[..|actions| - 1], vocabulary), actions[|actions| - 1], |actions| - 1;
      InvOverRuns(actions[..|actions| - 1], vocabulary);
      match a
      case AddEntity(entity) => EntityKeepsInv(t, entity, id);
      case AddEvidence(record) => if Record(t, record, id).Some? { RecordKeepsInv(t, record, id); }
      case AddRelationship(fact, support) =>
        if forall s :: s in support ==> s.evidence in t.evidence { WriteKeepsInv(t, fact, support, vocabulary, id); }
      case Expire(relationship, validTo) =>
        if relationship in t.graph.relationships && ExpireAt(t, relationship, validTo).Some? {
          ExpireKeepsInv(t, relationship, validTo);
        }
    }
  }

  lemma EmptyInv()
    ensures Inv(Tables(Graph(map[], map[]), map[], {}))
  {}

  // ---------------------------------------------------------------- what readers can rely on

  /** In every reachable state, a verified relationship visible as of `t` has supporting evidence,
      every piece of it was published by `t`, and the explanation as of `t` lists all of it. */
  lemma EvidencePrecedesVisibility(actions: seq<Action>, vocabulary: set<string>, q: Query, id: RelationshipId)
    requires RelationshipVisible(Run(actions, vocabulary).graph, q, id)
    requires Run(actions, vocabulary).graph.relationships[id].status.Verified?
    ensures var t := Run(actions, vocabulary);
      && HasSupport(t, id)
      && (forall l :: l in t.links && l.relationship == id && l.direction == SUPPORTING ==>
            && l.evidence in t.evidence && t.evidence[l.evidence].publication <= q.asOf
            && l in EligibleLinks(t, id, q.asOf))
      && Explanation(t, [id], q.asOf) == [(id, EligibleLinks(t, id, q.asOf))]
  {
    hide Run;
    InvOverRuns(actions, vocabulary);
    var t := Run(actions, vocabulary);
    forall l | l in t.links && l.relationship == id && l.direction == SUPPORTING
      ensures l.evidence in t.evidence && t.evidence[l.evidence].publication <= q.asOf
        && l in EligibleLinks(t, id, q.asOf)
    {
      assert LinkSound(t, l);
    }
    assert Explanation(t, [id][1..], q.asOf) == [];
  }

  /** So for a traversal of any reachable graph: each verified relationship it returns as of `t`
      rests on supporting evidence, all of it published by `t`. */
  lemma ReturnedRelationshipsRestOnEvidence(actions: seq<Action>, vocabulary: set<string>, q: Query,
                                            k: nat, id: RelationshipId)
    requires id in LinksOf(Paths(Run(actions, vocabulary).graph, q, k))
    requires id in Run(actions, vocabulary).graph.relationships
    requires Run(actions, vocabulary).graph.relationships[id].status.Verified?
    ensures var t := Run(actions, vocabulary);
      HasSupport(t, id) && forall l :: l in t.links && l.relationship == id && l.direction == SUPPORTING ==>
        l.evidence in t.evidence && t.evidence[l.evidence].publication <= q.asOf
  {
    hide Run;
    var g := Run(actions, vocabulary).graph;
    GraphTraversal.PathsAreSimplePaths(g, q, k);
    var p :| p in Paths(g, q, k) && id in p.links;
    var i :| 0 <= i < |p.links| && p.links[i] == id;
    assert Hop(g, q, p.nodes[i], p.links[i], p.nodes[i + 1]);
    EvidencePrecedesVisibility(actions, vocabulary, q, id);
  }

  /** A supporting item comes before every item of unknown direction. */
  predicate SupportedInTime(support: seq<Support>) {
    exists i :: 0 <= i < |support| && support[i].direction == SUPPORTING
      && forall j :: 0 <= j < i ==> KnownDirection(support[j].direction)
  }

  /** The link of item `i` is written: no item up to it has an unknown direction. */
  predicate WrittenAt(id: RelationshipId, support: seq<Support>, l: Link, i: int) {
    && 0 <= i < |support| && l == Link(id, support[i].evidence, support[i].direction)
    && forall j :: 0 <= j <= i ==> KnownDirection(support[j].direction)
  }

  lemma {:induction false} LinksForPrefix(id: RelationshipId, support: seq<Support>, l: Link)
    ensures l in LinksFor(id, support) <==> exists i :: WrittenAt(id, support, l, i)
  {
    if support != [] {
      var rest := support[1..];
      LinksForPrefix(id, rest, l);
      if l in LinksFor(id, support) {
        if l == Link(id, support[0].evidence, support[0].direction) {
          assert WrittenAt(id, support, l, 0);
        } else {
          var i :| WrittenAt(id, rest, l, i);
          assert forall j :: 0 < j <= i + 1 ==> rest[j - 1] == support[j];
          assert WrittenAt(id, support, l, i + 1);
        }
      }
      if exists i :: WrittenAt(id, support, l, i) {
        var i :| WrittenAt(id, support, l, i);
        if i > 0 {
          assert forall j :: 0 <= j < |rest| ==> rest[j] == support[j + 1];
          assert WrittenAt(id, rest, l, i - 1);
        }
      }
    }
  }

  /** What a write of a new, acceptable fact leaves behind is in order, rolled back or not, if and
      only if the fact is not verified or a supporting item precedes every unknown direction. */
  lemma PartialWriteIff(t: Tables, r: Relationship, support: seq<Support>, vocabulary: set<string>, id: RelationshipId)
    requires Inv(t) && Before(t, id)
    requires forall s :: s in support ==> s.evidence in t.evidence
    requires Acceptable(t, r, support, vocabulary)
    requires !exists i :: i in t.graph.relationships && SameFact(t.graph.relationships[i], r)
    ensures Inv(Write(t, r, support, vocabulary, id).tables) <==> !r.status.Verified? || SupportedInTime(support)
  {
    hide EvidenceFloor, LinksFor, Repeats;
    if AllKnown(support) && Repeats(support) {
      if r.status.Verified? { KnownIsInTime(support); }
    } else {
      var t' := Write(t, r, support, vocabulary, id).tables;
      WrittenLinksSound(t, r, support, vocabulary, id);
      forall i | i in t.graph.relationships && t.graph.relationships[i].status.Verified? ensures HasSupport(t', i) {
        assert HasSupport(t, i);
      }
      NewSupportIff(t, t', support, id);
      assert t'.graph.relationships[id] == r;
    }
  }

  lemma KnownIsInTime(support: seq<Support>)
    requires AllKnown(support) && Supported(support)
    ensures SupportedInTime(support)
  {
    var s :| s in support && s.direction == SUPPORTING;
    var i :| 0 <= i < |support| && support[i] == s;
    assert forall j :: 0 <= j < i ==> support[j] in support;
  }

  lemma WrittenLinksSound(t: Tables, r: Relationship, support: seq<Support>,
                          vocabulary: set<string>, id: RelationshipId)
    requires Inv(t) && Before(t, id)
    requires forall s :: s in support ==> s.evidence in t.evidence
    requires Acceptable(t, r, support, vocabulary)
    requires !exists i :: i in t.graph.relationships && SameFact(t.graph.relationships[i], r)
    ensures var t' := Write(t, r, support, vocabulary, id).tables; forall l :: l in t'.links ==> LinkSound(t', l)
  {
    hide EvidenceFloor, LinksFor, Supported, KnownDirection;
    var t' := Write(t, r, support, vocabulary, id).tables;
    forall l | l in t'.links ensures LinkSound(t', l) {
      if l in t.links {
        assert LinkSound(t, l);
      } else {
        LinksForPrefix(id, support, l);
        var i :| WrittenAt(id, support, l, i);
        assert support[i] in support;
        if l.direction == SUPPORTING { FloorCovers(t, support, r.eligible, support[i]); }
      }
    }
  }

  lemma NewSupportIff(t: Tables, t': Tables, support: seq<Support>, id: RelationshipId)
    requires Inv(t) && Before(t, id) && t'.links == t.links + LinksFor(id, support)
    ensures HasSupport(t', id) <==> SupportedInTime(support)
  {
    hide LinksFor;
    forall l | l in t.links ensures l.relationship != id { assert LinkSound(t, l); }
    if HasSupport(t', id) {
      var l :| l in t'.links && l.relationship == id && l.direction == SUPPORTING;
      LinksForPrefix(id, support, l);
      var i :| WrittenAt(id, support, l, i);
    }
    if SupportedInTime(support) {
      var i :| 0 <= i < |support| && support[i].direction == SUPPORTING
        && forall j :: 0 <= j < i ==> KnownDirection(support[j].direction);
      var l := Link(id, support[i].evidence, support[i].direction);
      assert WrittenAt(id, support, l, i);
      LinksForPrefix(id, support, l);
    }
  }

  /** For instance, when the unknown direction comes first, a verified relationship stays behind
      that has no supporting evidence. */
  lemma PartialWriteIsUnsupported() returns (t: Tables, r: Relationship, support: seq<Support>)
    ensures Inv(t) && Before(t, 9) && forall s :: s in support ==> s.evidence in t.evidence
    ensures var w := Write(t, r, support, {"OWNS"}, 9);
      !w.ok && 9 in w.tables.graph.relationships && w.tables.graph.relationships[9].status.Verified?
      && !HasSupport(w.tables, 9) && !Inv(w.tables)
  {
    var company := Entity(0, 0, 0, None, Verified);
    var e := Evidence(0, "filing", "", 0, 0);
    t := Tables(Graph(map[1 := company, 2 := company], map[]), map[5 := e], {});
    r := Relationship(0, 1, "OWNS", 2, 0, 0, None, Verified);
    support := [Support(5, "unclear"), Support(5, SUPPORTING)];
    assert support[1] in support && support[0] in support;
    assert support[1..] == [support[1]] && support[1..][1..] == [];
    assert LatestSupport(t, support[1..]) == Some(0);
    assert Acceptable(t, r, support, {"OWNS"});
    assert LinksFor(9, support) == {};
  }
}
