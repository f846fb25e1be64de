/** What the write side stores, operation by operation, and that nothing is stored twice. */
module GraphFacts {
  import opened Options
  import opened GraphModel
  import opened GraphEvidence

  lemma RunThen(actions: seq<Action>, a: Action, vocabulary: set<string>)
    ensures Run(actions + [a], vocabulary) == Next(Run(actions, vocabulary), a, |actions|, vocabulary)
  {
    assert (actions + [a])[..|actions|] == actions;
  }

  // ---------------------------------------------------------------- evidence

  /** Two records of the same content from the same source. */
  ghost predicate OneRecord(x: Evidence, y: Evidence) {
    (x.workspace, x.checksum, x.source) == (y.workspace, y.checksum, y.source)
  }

  /** Evidence is stored if and only if its checksum has 64 lower-case hexadecimal digits, it is not
      eligible before it is published, and it is not stored already. */
  lemma EvidenceDoes(actions: seq<Action>, e: Evidence, vocabulary: set<string>)
    ensures var t, t' := Run(actions, vocabulary), Run(actions + [AddEvidence(e)], vocabulary);
      if |e.checksum| == 64
         && (forall i :: 0 <= i < 64 ==> '0' <= e.checksum[i] <= '9' || 'a' <= e.checksum[i] <= 'f')
         && e.publication <= e.eligible && forall i :: i in t.evidence ==> !OneRecord(t.evidence[i], e)
      then t' == t.(evidence := t.evidence[|actions| := e]) else t' == t
  {
    hide Run;
    RunThen(actions, AddEvidence(e), vocabulary);
    ChecksumDigits(e.checksum);
    var t := Run(actions, vocabulary);
    assert forall i :: i in t.evidence ==> (OneRecord(t.evidence[i], e) <==> SameSource(t.evidence[i], e));
  }

  lemma ChecksumDigits(checksum: string)
    ensures Sha256(checksum) <==>
      |checksum| == 64 && forall i :: 0 <= i < 64 ==> '0' <= checksum[i] <= '9' || 'a' <= checksum[i] <= 'f'
  {
    assert forall i :: 0 <= i < |checksum| ==> checksum[i] in checksum;
  }

  // ---------------------------------------------------------------- relationships

  /** Two rows that state the same fact from the same time on. */
  ghost predicate OneFact(x: Relationship, y: Relationship) {
    && (x.workspace, x.subject, x.predicateName, x.object_) == (y.workspace, y.subject, y.predicateName, y.object_)
    && x.validFrom == y.validFrom
  }

  /** The fact joins two different entities of its workspace in the vocabulary's terms and rests on known
      evidence: a verified one on some, and none on any that supports it later than it is eligible. */
  ghost predicate Sound(t: Tables, r: Relationship, support: seq<Support>, vocabulary: set<string>) {
    && (forall s :: s in support ==> s.evidence in t.evidence)
    && r.subject in t.graph.entities && r.object_ in t.graph.entities && r.subject != r.object_
    && t.graph.entities[r.subject].workspace == r.workspace && t.graph.entities[r.object_].workspace == r.workspace
    && r.predicateName in vocabulary
    && (r.status == Verified ==> exists s :: s in support && s.direction == "supporting")
    && forall s :: s in support && s.direction == "supporting" ==> t.evidence[s.evidence].eligible <= r.eligible
  }

  lemma {:induction false} LatestAttained(t: Tables, support: seq<Support>)
    requires forall s :: s in support ==> s.evidence in t.evidence
    ensures var latest := LatestSupport(t, support);
      latest.Some? ==>
        exists s :: s in support && s.direction == "supporting" && t.evidence[s.evidence].eligible == latest.value
  {
    if support != [] { LatestAttained(t, support[1..]); }
  }

  lemma AcceptableIff(t: Tables, r: Relationship, support: seq<Support>, vocabulary: set<string>)
    requires forall s :: s in support ==> s.evidence in t.evidence
    ensures Acceptable(t, r, support, vocabulary) <==> Sound(t, r, support, vocabulary)
  {
    hide LatestSupport;
    LatestAttained(t, support);
  }

  ghost predicate Clear(support: seq<Support>) {
    && (forall i :: 0 <= i < |support| ==> support[i].direction in {"supporting", "contradicting"})
    && forall i, j :: 0 <= i < j < |support| ==> support[i] != support[j]
  }

  /** A fact is stored, with one link for each of its items, if and only if it is sound, no row states it
      already, and its items name one of the two directions and do not repeat. */
  lemma RelationshipDoes(actions: seq<Action>, r: Relationship, support: seq<Support>, vocabulary: set<string>)
    ensures var t, t' := Run(actions, vocabulary), Run(actions + [AddRelationship(r, support)], vocabulary);
      if Sound(t, r, support, vocabulary) && Clear(support)
         && forall i :: i in t.graph.relationships ==> !OneFact(t.graph.relationships[i], r)
      then
        && t' == t.(graph := t'.graph, links := t'.links)
        && t'.graph == t.graph.(relationships := t.graph.relationships[|actions| := r])
        && (forall l :: l in t'.links <==>
              l in t.links || (l.relationship == |actions| && Support(l.evidence, l.direction) in support))
      else t' == t
  {
    hide Run, Acceptable, Sound, LinksFor;
    RunThen(actions, AddRelationship(r, support), vocabulary);
    var t := Run(actions, vocabulary);
    if forall s :: s in support ==> s.evidence in t.evidence {
      AcceptableIff(t, r, support, vocabulary);
      ClearIff(support);
      if AllKnown(support) { LinksForAll(|actions|, support); }
    } else {
      assert !Sound(t, r, support, vocabulary) by { Unknown(t, r, support, vocabulary); }
    }
  }

  lemma ClearIff(support: seq<Support>)
    ensures Clear(support) <==> AllKnown(support) && !Repeats(support)
    ensures AllKnown(support) ==> forall s :: s in support ==> KnownDirection(s.direction)
  {
    if Clear(support) {
      forall s | s in support ensures KnownDirection(s.direction) {
        var i :| 0 <= i < |support| && support[i] == s;
      }
    }
    if AllKnown(support) {
      forall i | 0 <= i < |support| ensures support[i].direction in {"supporting", "contradicting"} {
        assert support[i] in support;
      }
    }
  }

  lemma Unknown(t: Tables, r: Relationship, support: seq<Support>, vocabulary: set<string>)
    requires !(forall s :: s in support ==> s.evidence in t.evidence)
    ensures !Sound(t, r, support, vocabulary)
  {}

  /** Where a direction is unknown, the write fails, but the row and the links of the items before it are
      in the session already. */
  lemma WriteStopsAt(t: Tables, r: Relationship, support: seq<Support>, vocabulary: set<string>, id: RelationshipId,
                     n: nat)
    requires n < |support| && support[n].direction !in {"supporting", "contradicting"}
    requires forall i :: 0 <= i < n ==> support[i].direction in {"supporting", "contradicting"}
    requires Sound(t, r, support, vocabulary)
    requires forall i :: i in t.graph.relationships ==> !OneFact(t.graph.relationships[i], r)
    ensures var w := Write(t, r, support, vocabulary, id);
      && !w.ok && w.tables.evidence == t.evidence
      && w.tables.graph == t.graph.(relationships := t.graph.relationships[id := r])
      && forall l :: l in w.tables.links <==>
           l in t.links || (l.relationship == id && Support(l.evidence, l.direction) in support[..n])
  {
    hide Acceptable, LinksFor;
    AcceptableIff(t, r, support, vocabulary);
    assert support[n] in support;
    LinksBefore(id, support, n);
  }

  lemma {:induction false} LinksBefore(id: RelationshipId, support: seq<Support>, n: nat)
    requires n < |support| && !KnownDirection(support[n].direction)
    requires forall i :: 0 <= i < n ==> KnownDirection(support[i].direction)
    ensures forall l :: l in LinksFor(id, support) <==>
      l.relationship == id && Support(l.evidence, l.direction) in support[..n]
  {
    if n > 0 {
      LinksBefore(id, support[1..], n - 1);
      assert support[..n] == [support[0]] + support[1..][..n - 1];
    }
  }

  /** A relationship is expired if and only if it exists and began before: from then on it is marked so
      and ends at the given time. */
  lemma ExpireDoes(actions: seq<Action>, id: RelationshipId, validTo: Time, vocabulary: set<string>)
    ensures var t, t' := Run(actions, vocabulary), Run(actions + [Expire(id, validTo)], vocabulary);
      if id in t.graph.relationships && t.graph.relationships[id].validFrom < validTo then
        && t' == t.(graph := t'.graph) && t'.graph.entities == t.graph.entities
        && t'.graph.relationships.Keys == t.graph.relationships.Keys
        && (forall r :: r in t.graph.relationships && r != id ==>
              t'.graph.relationships[r] == t.graph.relationships[r])
        && t'.graph.relationships[id] == t.graph.relationships[id].(validTo := Some(validTo), status := Expired)
      else t' == t
  {
    hide Run;
    RunThen(actions, Expire(id, validTo), vocabulary);
  }

  // ---------------------------------------------------------------- nothing twice

  ghost predicate NothingTwice(t: Tables) {
    && (forall i, j | i in t.evidence && j in t.evidence && i != j :: !OneRecord(t.evidence[i], t.evidence[j]))
    && (forall i, j | i in t.graph.relationships && j in t.graph.relationships && i != j ::
          !OneFact(t.graph.relationships[i], t.graph.relationships[j]))
  }

  /** In every reachable state no fact, and no record of evidence, is stored twice. */
  lemma {:induction false} StoredOnce(actions: seq<Action>, vocabulary: set<string>)
    ensures NothingTwice(Run(actions, vocabulary))
  {
    hide Run, NothingTwice;
    if actions == [] {
      NothingStored(vocabulary);
    } else {
      var front, a := actions[..|actions| - 1], actions[|actions| - 1];
      assert front + [a] == actions;
      StoredOnce(front, vocabulary);
      match a
      case AddEntity(_) => EntityStored(front, a, vocabulary);
      case AddEvidence(e) => EvidenceDoes(front, e, vocabulary); EvidenceOnce(front, e, vocabulary);
      case AddRelationship(r, support) => RelationshipOnce(front, r, support, vocabulary);
      case Expire(id, validTo) => ExpireOnce(front, id, validTo, vocabulary);
    }
  }

  lemma NothingStored(vocabulary: set<string>)
    ensures NothingTwice(Run([], vocabulary))
  {}

  lemma EntityStored(actions: seq<Action>, a: Action, vocabulary: set<string>)
    requires a.AddEntity? && NothingTwice(Run(actions, vocabulary))
    ensures NothingTwice(Run(actions + [a], vocabulary))
  {
    hide Run;
    RunThen(actions, a, vocabulary);
  }

  lemma EvidenceOnce(actions: seq<Action>, e: Evidence, vocabulary: set<string>)
    requires NothingTwice(Run(actions, vocabulary))
    ensures NothingTwice(Run(actions + [AddEvidence(e)], vocabulary))
  {
    hide Run;
    EvidenceDoes(actions, e, vocabulary);
  }

  lemma RelationshipOnce(actions: seq<Action>, r: Relationship, support: seq<Support>, vocabulary: set<string>)
    requires NothingTwice(Run(actions, vocabulary))
    ensures NothingTwice(Run(actions + [AddRelationship(r, support)], vocabulary))
  {
    hide Run, Sound, Clear;
    RelationshipDoes(actions, r, support, vocabulary);
  }

  lemma ExpireOnce(actions: seq<Action>, id: RelationshipId, validTo: Time, vocabulary: set<string>)
    requires NothingTwice(Run(actions, vocabulary))
    ensures NothingTwice(Run(actions + [Expire(id, validTo)], vocabulary))
  {
    hide Run;
    ExpireDoes(actions, id, validTo, vocabulary);
  }

  // ---------------------------------------------------------------- explanations

  /** An explanation goes through the relationships in order, skips those unknown or not yet eligible, and
      gives for each other exactly its links to evidence that is eligible. */
  lemma {:induction false} ExplanationInOrder(t: Tables, xs: seq<RelationshipId>, ys: seq<RelationshipId>, asOf: Time)
    ensures Explanation(t, xs + ys, asOf) == Explanation(t, xs, asOf) + Explanation(t, ys, asOf)
  {
    hide Explained;
    if xs == [] {
      assert xs + ys == ys;
    } else {
      ExplanationInOrder(t, xs[1..], ys, asOf);
      assert (xs + ys)[1..] == xs[1..] + ys;
    }
  }

  lemma ExplanationOfOne(t: Tables, id: RelationshipId, asOf: Time)
    ensures var explained := Explanation(t, [id], asOf);
      if id in t.graph.relationships && t.graph.relationships[id].eligible <= asOf then
        && |explained| == 1 && explained[0].0 == id
        && forall l :: l in explained[0].1 <==>
             l in t.links && l.relationship == id && l.evidence in t.evidence && t.evidence[l.evidence].eligible <= asOf
      else explained == []
  {
    assert Explanation(t, [id][1..], asOf) == [];
  }
}
