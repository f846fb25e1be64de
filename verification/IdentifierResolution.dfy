/** External identifiers, competing claims to them, and the decisions that settle claims. */
module IdentifierResolution {
  import opened Options

  type RowId = nat
  type EntityId = nat

  /** A namespace and a value already normalized for it, within a workspace. */
  datatype Key = Key(workspace: nat, namespace: string, value: string)

  datatype Identifier = Identifier(key: Key, entity: EntityId)

  datatype ClaimStatus = Open | Ambiguous | Confirmed | Rejected

  datatype Candidate = Candidate(key: Key, entity: EntityId, status: ClaimStatus)

  /** A decision is stored under its candidate and says whether it confirmed. */
  datatype Tables = Tables(
    identifiers: map<RowId, Identifier>, candidates: map<RowId, Candidate>, decisions: map<RowId, bool>)
  {
    ghost predicate UniqueKeys() {
      forall i, j :: i in identifiers && j in identifiers && identifiers[i].key == identifiers[j].key ==> i == j
    }

    ghost predicate UniqueClaims() {
      forall i, j | i in candidates && j in candidates ::
        candidates[i].key == candidates[j].key && candidates[i].entity == candidates[j].entity ==> i == j
    }

    ghost predicate MapsTo(key: Key, entity: EntityId) {
      exists i :: i in identifiers && identifiers[i] == Identifier(key, entity)
    }
  }

  function Find(t: Tables, key: Key): (row: Option<RowId>)
    requires t.UniqueKeys()
    ensures row.Some? ==> row.value in t.identifiers && t.identifiers[row.value].key == key
    ensures row.None? ==> forall i :: i in t.identifiers ==> t.identifiers[i].key != key
  {
    if exists i :: i in t.identifiers && t.identifiers[i].key == key then
      var i :| i in t.identifiers && t.identifiers[i].key == key;
      Some(i)
    else None
  }

  predicate Claimed(t: Tables, key: Key, entity: EntityId) {
    exists i :: i in t.candidates && t.candidates[i].key == key && t.candidates[i].entity == entity
  }

  /** Creating a claim is idempotent: the first claim of an entity to a key stands. */
  function Claim(t: Tables, entity: EntityId, key: Key, status: ClaimStatus, id: RowId): Tables {
    if Claimed(t, key, entity) then t
    else t.(candidates := t.candidates[id := Candidate(key, entity, status)])
  }

  function Map(t: Tables, entity: EntityId, key: Key, id: RowId): Tables {
    t.(identifiers := t.identifiers[id := Identifier(key, entity)])
  }

  function Attach(t: Tables, entity: EntityId, key: Key, id: RowId): Tables
    requires t.UniqueKeys()
  {
    match Find(t, key)
    case None => Map(t, entity, key, id)
    case Some(row) =>
      if t.identifiers[row].entity == entity then t else Claim(t, entity, key, Ambiguous, id)
  }

  function Settle(t: Tables, claim: RowId, confirm: bool): Tables
    requires claim in t.candidates
  {
    var status := if confirm then Confirmed else Rejected;
    t.(candidates := t.candidates[claim := t.candidates[claim].(status := status)],
       decisions := t.decisions[claim := confirm])
  }

  /** None is a refused decision, which changes nothing. */
  function Decide(t: Tables, claim: RowId, confirm: bool, id: RowId): Option<Tables>
    requires t.UniqueKeys()
  {
    if claim !in t.candidates then None
    else
      var c := t.candidates[claim];
      if c.status.Confirmed? || c.status.Rejected? then
        if claim in t.decisions && t.decisions[claim] == confirm then Some(t) else None
      else
        if !confirm then Some(Settle(t, claim, false))
        else
          match Find(t, c.key)
          case None => Some(Settle(Map(t, c.entity, c.key, id), claim, true))
          case Some(row) => if t.identifiers[row].entity != c.entity then None else Some(Settle(t, claim, true))
  }

  class ResolutionStore {
    var identifiers: map<RowId, Identifier>
    var candidates: map<RowId, Candidate>
    var decisions: map<RowId, bool>

    function Rows(): Tables
      reads this
    {
      Tables(identifiers, candidates, decisions)
    }

    constructor ()
      ensures Rows() == Tables(map[], map[], map[])
    {
      identifiers, candidates, decisions := map[], map[], map[];
    }

    method CreateCandidate(entity: EntityId, key: Key, status: ClaimStatus, id: RowId)
      modifies this`candidates
      ensures Rows() == Claim(old(Rows()), entity, key, status, id)
      ensures Claimed(Rows(), key, entity)
      ensures candidates.Keys == old(candidates.Keys) + if Claimed(old(Rows()), key, entity) then {} else {id}
      ensures forall c :: c in old(candidates) && c != id ==> candidates[c] == old(candidates[c])
    {
      if !exists i :: i in candidates && candidates[i].key == key && candidates[i].entity == entity {
        candidates := candidates[id := Candidate(key, entity, status)];
        assert Rows().candidates[id] == Candidate(key, entity, status);
      }
    }

    method AttachIdentifier(entity: EntityId, key: Key, id: RowId)
      requires Rows().UniqueKeys()
      modifies this
      ensures Rows() == Attach(old(Rows()), entity, key, id)
    {
      var existing := Find(Rows(), key);
      if existing.Some? {
        if identifiers[existing.value].entity == entity {
          return;
        }
        CreateCandidate(entity, key, Ambiguous, id);
        return;
      }
      identifiers := identifiers[id := Identifier(key, entity)];
    }

    method DecideResolution(claim: RowId, confirm: bool, id: RowId) returns (ok: bool)
      requires Rows().UniqueKeys()
      modifies this
      ensures ok == Decide(old(Rows()), claim, confirm, id).Some?
      ensures Rows() == if ok then Decide(old(Rows()), claim, confirm, id).value else old(Rows())
    {
      if claim !in candidates {
        return false;
      }
      var candidate := candidates[claim];
      if candidate.status.Confirmed? || candidate.status.Rejected? {
        return claim in decisions && decisions[claim] == confirm;
      }
      if confirm {
        var conflict := Find(Rows(), candidate.key);
        if conflict.Some? && identifiers[conflict.value].entity != candidate.entity {
          return false;
        }
        if conflict.None? {
          identifiers := identifiers[id := Identifier(candidate.key, candidate.entity)];
        }
      }
      candidates := candidates[claim := candidate.(status := if confirm then Confirmed else Rejected)];
      decisions := decisions[claim := confirm];
      ok := true;
    }
  }

  // ---------------------------------------------------------------- runs

  datatype Action =
    | AttachAction(entity: EntityId, key: Key)
    | ClaimAction(entity: EntityId, key: Key, status: ClaimStatus)
    | DecideAction(claim: RowId, confirm: bool)

  ghost predicate Inv(t: Tables) {
    && t.UniqueKeys() && t.UniqueClaims()
    && (forall c :: c in t.candidates && t.candidates[c].status.Confirmed? ==>
          t.MapsTo(t.candidates[c].key, t.candidates[c].entity))
    && (forall c :: c in t.decisions <==>
          c in t.candidates && (t.candidates[c].status.Confirmed? || t.candidates[c].status.Rejected?))
    && (forall c :: c in t.decisions ==> t.decisions[c] == t.candidates[c].status.Confirmed?)
  }

  /** Row ids are never reused: the `n`-th operation of a run creates rows under id `n`. */
  ghost predicate Before(t: Tables, n: nat) {
    && (forall i :: i in t.identifiers ==> i < n)
    && (forall c :: c in t.candidates ==> c < n)
  }

  ghost function Next(t: Tables, a: Action, id: RowId): Tables {
    if !t.UniqueKeys() then t
    else match a
      case AttachAction(entity, key) => Attach(t, entity, key, id)
      case ClaimAction(entity, key, status) => Claim(t, entity, key, status, id)
      case DecideAction(claim, confirm) =>
        (match Decide(t, claim, confirm, id) case None => t case Some(t') => t')
  }

  ghost function Run(actions: seq<Action>): Tables {
    if actions == [] then Tables(map[], map[], map[])
    else Next(Run(actions[..|actions| - 1]), actions[|actions| - 1], |actions| - 1)
  }

  /** What a step may do to existing rows: identifiers stay, claims only get decided. */
  ghost predicate Grows(t: Tables, t': Tables) {
    && (forall i :: i in t.identifiers ==> i in t'.identifiers && t'.identifiers[i] == t.identifiers[i])
    && (forall c :: c in t.candidates ==>
          && c in t'.candidates
          && t'.candidates[c].key == t.candidates[c].key && t'.candidates[c].entity == t.candidates[c].entity
          && (t.candidates[c].status.Confirmed? || t.candidates[c].status.Rejected? ==>
                t'.candidates[c].status == t.candidates[c].status))
  }

  /** A stored claim becomes confirmed only where its key maps to its entity. */
  ghost predicate ConfirmsMapped(t: Tables, t': Tables) {
    forall c | c in t.candidates && c in t'.candidates ::
      t'.candidates[c].status.Confirmed? && !t.candidates[c].status.Confirmed? ==>
        t'.MapsTo(t'.candidates[c].key, t'.candidates[c].entity)
  }

  /** What every operation does, whatever its arguments. */
  ghost predicate Steps(t: Tables, t': Tables, id: RowId) {
    t'.UniqueKeys() && Before(t', id + 1) && Grows(t, t') && ConfirmsMapped(t, t')
  }

  lemma MapsToGrows(t: Tables, t': Tables)
    requires Grows(t, t')
    ensures forall key, entity :: t.MapsTo(key, entity) ==> t'.MapsTo(key, entity)
  {
    forall key, entity | t.MapsTo(key, entity) ensures t'.MapsTo(key, entity) {
      var i :| i in t.identifiers && t.identifiers[i] == Identifier(key, entity);
      assert t'.identifiers[i] == Identifier(key, entity);
    }
  }

  lemma ClaimSteps(t: Tables, entity: EntityId, key: Key, status: ClaimStatus, id: RowId)
    requires t.UniqueKeys() && Before(t, id)
    ensures Steps(t, Claim(t, entity, key, status, id), id)
  {}

  lemma MapSteps(t: Tables, entity: EntityId, key: Key, id: RowId)
    requires t.UniqueKeys() && Before(t, id) && Find(t, key).None?
    ensures Steps(t, Map(t, entity, key, id), id) && Map(t, entity, key, id).MapsTo(key, entity)
  {
    assert Map(t, entity, key, id).identifiers[id] == Identifier(key, entity);
  }

  lemma AttachSteps(t: Tables, entity: EntityId, key: Key, id: RowId)
    requires t.UniqueKeys() && Before(t, id)
    ensures Steps(t, Attach(t, entity, key, id), id)
  {
    hide Claim, Map;
    ClaimSteps(t, entity, key, Ambiguous, id);
    if Find(t, key).None? { MapSteps(t, entity, key, id); }
  }

  lemma SettleSteps(t: Tables, claim: RowId, confirm: bool, id: RowId)
    requires t.UniqueKeys() && Before(t, id + 1) && claim in t.candidates
    requires t.candidates[claim].status.Open? || t.candidates[claim].status.Ambiguous?
    requires confirm ==> t.MapsTo(t.candidates[claim].key, t.candidates[claim].entity)
    ensures Steps(t, Settle(t, claim, confirm), id)
  {
    var t' := Settle(t, claim, confirm);
    assert Grows(t, t');
    MapsToGrows(t, t');
  }

  lemma StepsTrans(t: Tables, t': Tables, t'': Tables, id: RowId)
    requires Steps(t, t', id) && Steps(t', t'', id)
    ensures Steps(t, t'', id)
  {
    MapsToGrows(t', t'');
  }

  lemma DecideSteps(t: Tables, claim: RowId, confirm: bool, id: RowId)
    requires t.UniqueKeys() && Before(t, id) && Decide(t, claim, confirm, id).Some?
    ensures Steps(t, Decide(t, claim, confirm, id).value, id)
  {
    hide Map, Settle, Steps;
    var c := t.candidates[claim];
    if c.status.Confirmed? || c.status.Rejected? {
      NothingSteps(t, id);
    } else if !confirm {
      SettleSteps(t, claim, false, id);
    } else if Find(t, c.key).None? {
      var mapped := Map(t, c.entity, c.key, id);
      MapSteps(t, c.entity, c.key, id);
      MapKeepsClaims(t, c.entity, c.key, id);
      StepsUnique(t, mapped, id);
      SettleSteps(mapped, claim, true, id);
      StepsTrans(t, mapped, Settle(mapped, claim, true), id);
    } else {
      var row := Find(t, c.key).value;
      assert t.identifiers[row] == Identifier(c.key, c.entity);
      SettleSteps(t, claim, true, id);
    }
  }

  lemma NothingSteps(t: Tables, id: RowId)
    requires t.UniqueKeys() && Before(t, id)
    ensures Steps(t, t, id)
  {}

  lemma StepsUnique(t: Tables, t': Tables, id: RowId)
    requires Steps(t, t', id)
    ensures t'.UniqueKeys() && Before(t', id + 1)
  {}

  lemma MapKeepsClaims(t: Tables, entity: EntityId, key: Key, id: RowId)
    ensures Map(t, entity, key, id).candidates == t.candidates && Map(t, entity, key, id).decisions == t.decisions
  {}

  lemma NextSteps(t: Tables, a: Action, id: RowId)
    requires t.UniqueKeys() && Before(t, id)
    ensures Steps(t, Next(t, a, id), id)
  {
    hide Attach, Claim, Decide, Steps;
    match a
    case AttachAction(entity, key) => AttachSteps(t, entity, key, id);
    case ClaimAction(entity, key, status) => ClaimSteps(t, entity, key, status, id);
    case DecideAction(claim, confirm) =>
      if Decide(t, claim, confirm, id).Some? { DecideSteps(t, claim, confirm, id); } else { NothingSteps(t, id); }
  }

  lemma {:induction false} KeysOverRuns(actions: seq<Action>)
    ensures Run(actions).UniqueKeys() && Before(Run(actions), |actions|)
  {
    hide Next;
    if actions != [] {
      KeysOverRuns(actions[..|actions| - 1]);
      NextSteps(Run(actions[..|actions| - 1]), actions[|actions| - 1], |actions| - 1);
    }
  }

  lemma {:induction false} GrowsOverRuns(actions: seq<Action>, later: seq<Action>)
    ensures Grows(Run(actions), Run(actions + later))
  {
    hide Next;
    if later == [] {
      assert actions + later == actions;
    } else {
      var front := later[..|later| - 1];
      assert (actions + later)[..|actions + later| - 1] == actions + front;
      GrowsOverRuns(actions, front);
      KeysOverRuns(actions + front);
      NextSteps(Run(actions + front), later[|later| - 1], |actions + front|);
    }
  }

  lemma OneEntityPerKey(t: Tables, key: Key, e1: EntityId, e2: EntityId)
    requires t.UniqueKeys() && t.MapsTo(key, e1) && t.MapsTo(key, e2)
    ensures e1 == e2
  {}

  /** Once a key maps to an entity it maps to that entity, and no other, forever: whatever
      operations follow, claims created with any status among them. */
  lemma MappingIsForever(actions: seq<Action>, later: seq<Action>, key: Key, entity: EntityId)
    requires Run(actions).MapsTo(key, entity)
    ensures forall other :: Run(actions + later).MapsTo(key, other) <==> other == entity
  {
    hide Run;
    var t, t' := Run(actions), Run(actions + later);
    GrowsOverRuns(actions, later);
    KeysOverRuns(actions + later);
    MapsToGrows(t, t');
    forall other | t'.MapsTo(key, other) ensures other == entity { OneEntityPerKey(t', key, other, entity); }
  }

  /** A claim that an attach creates because the key belongs to another entity is never
      confirmed, whatever is decided later. */
  lemma {:induction false} ConflictNeverConfirmed(actions: seq<Action>, later: seq<Action>, entity: EntityId, key: Key)
    requires var t := Run(actions);
      (exists owner :: owner != entity && t.MapsTo(key, owner)) && !Claimed(t, key, entity)
    ensures var t' := Run(actions + [AttachAction(entity, key)] + later);
      && |actions| in t'.candidates
      && t'.candidates[|actions|].key == key && t'.candidates[|actions|].entity == entity
      && !t'.candidates[|actions|].status.Confirmed?
    decreases |later|
  {
    hide Run, Next;
    var attach, id := AttachAction(entity, key), |actions|;
    var owner :| owner != entity && Run(actions).MapsTo(key, owner);
    if later == [] {
      KeysOverRuns(actions);
      RunSnoc(actions, attach);
      AttachConflicts(Run(actions), entity, key, owner, id);
      assert actions + [attach] + later == actions + [attach];
    } else {
      var front, a := later[..|later| - 1], later[|later| - 1];
      var all := actions + [attach] + front;
      ConflictNeverConfirmed(actions, front, entity, key);
      KeysOverRuns(all);
      NextSteps(Run(all), a, |all|);
      RunSnoc(all, a);
      assert all + [a] == actions + [attach] + later == actions + ([attach] + later);
      MappingIsForever(actions, [attach] + later, key, owner);
    }
  }

  lemma AttachConflicts(t: Tables, entity: EntityId, key: Key, owner: EntityId, id: RowId)
    requires t.UniqueKeys() && owner != entity && t.MapsTo(key, owner) && !Claimed(t, key, entity)
    ensures var t' := Next(t, AttachAction(entity, key), id);
      id in t'.candidates && t'.candidates[id] == Candidate(key, entity, Ambiguous)
  {
    var i :| i in t.identifiers && t.identifiers[i] == Identifier(key, owner);
    assert Find(t, key) == Some(i);
  }

  lemma RunSnoc(actions: seq<Action>, a: Action)
    ensures Run(actions + [a]) == Next(Run(actions), a, |actions|)
  {
    assert (actions + [a])[..|actions|] == actions;
  }

  // ---------------------------------------------------------------- what each operation achieves

  /** No other entity owns the key. */
  ghost predicate FreeFor(t: Tables, key: Key, entity: EntityId) {
    forall other :: other != entity ==> !t.MapsTo(key, other)
  }

  lemma FindOwner(t: Tables, key: Key, entity: EntityId)
    requires t.UniqueKeys()
    ensures FreeFor(t, key, entity) <==>
      Find(t, key).None? || t.identifiers[Find(t, key).value] == Identifier(key, entity)
    ensures Find(t, key).Some? ==> t.MapsTo(key, t.identifiers[Find(t, key).value].entity)
  {
    var found := Find(t, key);
    if found.Some? {
      var owner := t.identifiers[found.value].entity;
      assert t.identifiers[found.value] == Identifier(key, owner);
      assert t.MapsTo(key, owner);
      forall other | other != owner ensures !t.MapsTo(key, other) { OneOwner(t, key, owner, other); }
    }
  }

  /** Attaching a key maps it, and maps it to the entity if and only if no other owned it; then it adds
      at most one row.  Otherwise it opens one ambiguous claim, unless the entity has a claim already. */
  lemma AttachDoes(actions: seq<Action>, entity: EntityId, key: Key)
    ensures var t, t' := Run(actions), Run(actions + [AttachAction(entity, key)]);
      && (exists owner :: t'.MapsTo(key, owner))
      && (t'.MapsTo(key, entity) <==> FreeFor(t, key, entity))
      && t'.decisions == t.decisions
      && if FreeFor(t, key, entity) then
           t'.candidates == t.candidates
           && t'.identifiers == (if t.MapsTo(key, entity) then t.identifiers
                                 else t.identifiers[|actions| := Identifier(key, entity)])
         else
           t'.identifiers == t.identifiers
           && if exists c :: c in t.candidates && t.candidates[c].key == key && t.candidates[c].entity == entity
              then t'.candidates == t.candidates
              else t'.candidates == t.candidates[|actions| := Candidate(key, entity, Ambiguous)]
  {
    hide Run;
    RunSnoc(actions, AttachAction(entity, key));
    KeysOverRuns(actions);
    KeysOverRuns(actions + [AttachAction(entity, key)]);
    var t, t' := Run(actions), Run(actions + [AttachAction(entity, key)]);
    FindOwner(t, key, entity);
    if FreeFor(t, key, entity) {
      assert t'.MapsTo(key, entity) by {
        var i := if Find(t, key).None? then |actions| else Find(t, key).value;
        assert t'.identifiers[i] == Identifier(key, entity);
      }
      if t.MapsTo(key, entity) {
        var i :| i in t.identifiers && t.identifiers[i] == Identifier(key, entity);
      }
    } else {
      var owner := t.identifiers[Find(t, key).value].entity;
      assert t'.identifiers[Find(t, key).value] == Identifier(key, owner);
      assert t'.MapsTo(key, owner);
      OneOwner(t', key, owner, entity);
    }
  }

  lemma OneOwner(t: Tables, key: Key, owner: EntityId, entity: EntityId)
    requires t.UniqueKeys() && t.MapsTo(key, owner) && owner != entity
    ensures !t.MapsTo(key, entity)
  {}

  /** So it stays, whatever follows. */
  lemma AttachedIsForever(actions: seq<Action>, entity: EntityId, key: Key, later: seq<Action>)
    ensures var t, t' := Run(actions), Run(actions + [AttachAction(entity, key)] + later);
      && (exists owner :: t'.MapsTo(key, owner))
      && (t'.MapsTo(key, entity) <==> FreeFor(t, key, entity))
  {
    hide Run, FreeFor;
    var attached := actions + [AttachAction(entity, key)];
    AttachDoes(actions, entity, key);
    var owner :| Run(attached).MapsTo(key, owner);
    MappingIsForever(attached, later, key, owner);
    assert Run(attached + later).MapsTo(key, owner);
    KeysOverRuns(attached);
    if owner != entity { OneOwner(Run(attached), key, owner, entity); }
  }

  ghost predicate Undecided(t: Tables, claim: RowId) {
    claim in t.candidates && t.candidates[claim].status in {Open, Ambiguous}
  }

  /** A decision settles the claim if and only if that is undecided and, to confirm it, no other entity
      owns its key; it changes nothing else but to map, on confirmation, a key that was free.  It is
      refused unless it settles the claim or repeats the decision that settled it. */
  lemma DecisionDoes(actions: seq<Action>, claim: RowId, confirm: bool)
    ensures var t, t' := Run(actions), Run(actions + [DecideAction(claim, confirm)]);
      && (Run(actions).UniqueKeys() ==>
            (Decide(t, claim, confirm, |actions|).Some? <==>
               claim in t.candidates
               && if Undecided(t, claim)
                  then confirm ==> FreeFor(t, t.candidates[claim].key, t.candidates[claim].entity)
                  else claim in t.decisions && t.decisions[claim] == confirm))
      && if Undecided(t, claim) && (confirm ==> FreeFor(t, t.candidates[claim].key, t.candidates[claim].entity)) then
           var c := t.candidates[claim];
           && t'.candidates ==
                t.candidates[claim := Candidate(c.key, c.entity, if confirm then Confirmed else Rejected)]
           && t'.decisions == t.decisions[claim := confirm]
           && (confirm ==> t'.MapsTo(c.key, c.entity))
           && t'.identifiers == (if !confirm || t.MapsTo(c.key, c.entity) then t.identifiers
                                 else t.identifiers[|actions| := Identifier(c.key, c.entity)])
         else t' == t
  {
    hide Run;
    RunSnoc(actions, DecideAction(claim, confirm));
    KeysOverRuns(actions);
    var t, t' := Run(actions), Run(actions + [DecideAction(claim, confirm)]);
    if claim in t.candidates {
      var c := t.candidates[claim];
      FindOwner(t, c.key, c.entity);
      if Undecided(t, claim) && confirm && FreeFor(t, c.key, c.entity) {
        var i := if Find(t, c.key).None? then |actions| else Find(t, c.key).value;
        assert t'.identifiers[i] == Identifier(c.key, c.entity);
        assert t'.MapsTo(c.key, c.entity);
      }
    }
  }

  // ---------------------------------------------------------------- confirmed claims own their keys

  /** The status argument matters: a claim keeps the tables in order if and only if it is already
      stored or is opened undecided. */
  lemma ClaimKeepsInvIff(t: Tables, entity: EntityId, key: Key, status: ClaimStatus, id: RowId)
    requires Inv(t) && Before(t, id)
    ensures Inv(Claim(t, entity, key, status, id)) <==>
      Claimed(t, key, entity) || status.Open? || status.Ambiguous?
  {
    var t' := Claim(t, entity, key, status, id);
    ClaimSteps(t, entity, key, status, id);
    MapsToGrows(t, t');
    if !(Claimed(t, key, entity) || status.Open? || status.Ambiguous?) {
      assert id in t'.candidates && id !in t'.decisions;
    }
  }

  lemma MapKeepsInv(t: Tables, entity: EntityId, key: Key, id: RowId)
    requires Inv(t) && Before(t, id) && Find(t, key).None?
    ensures Inv(Map(t, entity, key, id))
  {
    MapSteps(t, entity, key, id);
    MapsToGrows(t, Map(t, entity, key, id));
  }

  lemma AttachKeepsInv(t: Tables, entity: EntityId, key: Key, id: RowId)
    requires Inv(t) && Before(t, id)
    ensures Inv(Attach(t, entity, key, id))
  {
    hide Claim, Map;
    ClaimKeepsInvIff(t, entity, key, Ambiguous, id);
    if Find(t, key).None? { MapKeepsInv(t, entity, key, id); }
  }

  lemma SettleKeepsInv(t: Tables, claim: RowId, confirm: bool, id: RowId)
    requires Inv(t) && Before(t, id + 1) && claim in t.candidates
    requires t.candidates[claim].status.Open? || t.candidates[claim].status.Ambiguous?
    requires confirm ==> t.MapsTo(t.candidates[claim].key, t.candidates[claim].entity)
    ensures Inv(Settle(t, claim, confirm))
  {
    hide Steps, Before;
    SettleSteps(t, claim, confirm, id);
    StepsGrow(t, Settle(t, claim, confirm), id);
    MapsToGrows(t, Settle(t, claim, confirm));
    hide Grows;
  }

  lemma StepsGrow(t: Tables, t': Tables, id: RowId)
    requires Steps(t, t', id)
    ensures t'.UniqueKeys() && Grows(t, t')
  {}

  lemma DecideKeepsInv(t: Tables, claim: RowId, confirm: bool, id: RowId)
    requires Inv(t) && Before(t, id) && Decide(t, claim, confirm, id).Some?
    ensures Inv(Decide(t, claim, confirm, id).value)
  {
    hide Inv, Map, Settle, Before, Steps;
    InvUnique(t, id);
    var c := t.candidates[claim];
    if c.status.Open? || c.status.Ambiguous? {
      if !confirm {
        SettleKeepsInv(t, claim, false, id);
      } else if Find(t, c.key).None? {
        MapSteps(t, c.entity, c.key, id);
        MapKeepsInv(t, c.entity, c.key, id);
        MapKeepsClaims(t, c.entity, c.key, id);
        StepsUnique(t, Map(t, c.entity, c.key, id), id);
        SettleKeepsInv(Map(t, c.entity, c.key, id), claim, true, id);
      } else {
        var row := Find(t, c.key).value;
        assert t.identifiers[row] == Identifier(c.key, c.entity);
        SettleKeepsInv(t, claim, true, id);
      }
    }
  }

  lemma InvUnique(t: Tables, id: RowId)
    requires Inv(t) && Before(t, id)
    ensures t.UniqueKeys() && Before(t, id + 1)
  {}

  /** A step opens no claim as already decided; storing a claim again is harmless. */
  predicate OpensUndecided(t: Tables, a: Action) {
    a.ClaimAction? ==> Claimed(t, a.key, a.entity) || a.status.Open? || a.status.Ambiguous?
  }

  /** Attaching and deciding always keep the tables in order; claiming, exactly as said. */
  lemma NextKeepsInvIff(t: Tables, a: Action, id: RowId)
    requires Inv(t) && Before(t, id)
    ensures Inv(Next(t, a, id)) <==> OpensUndecided(t, a)
  {
    hide Attach, Claim, Decide;
    match a
    case AttachAction(entity, key) => AttachKeepsInv(t, entity, key, id);
    case ClaimAction(entity, key, status) => ClaimKeepsInvIff(t, entity, key, status, id);
    case DecideAction(claim, confirm) =>
      if Decide(t, claim, confirm, id).Some? { DecideKeepsInv(t, claim, confirm, id); }
  }

  /** Every claim of the run is opened undecided, or stored already when it is made. */
  ghost predicate AlwaysUndecided(actions: seq<Action>) {
    actions == [] ||
    (AlwaysUndecided(actions[..|actions| - 1]) && OpensUndecided(Run(actions[..|actions| - 1]), actions[|actions| - 1]))
  }

  ghost predicate AlwaysInOrder(actions: seq<Action>) {
    Inv(Run(actions)) && (actions == [] || AlwaysInOrder(actions[..|actions| - 1]))
  }

  /** Through a whole run claims are unique, a confirmed claim's key maps to its entity, and
      decisions mirror the claims they settled, if and only if every claim is opened undecided or
      was stored already. */
  lemma {:induction false} InvOverRuns(actions: seq<Action>)
    ensures AlwaysInOrder(actions) <==> AlwaysUndecided(actions)
  {
    hide Inv, Next, OpensUndecided;
    if actions == [] {
      EmptyInv();
    } else {
      var front := actions[..|actions| - 1];
      InvOverRuns(front);
      KeysOverRuns(front);
      if AlwaysInOrder(front) {
        assert Inv(Run(front));
        NextKeepsInvIff(Run(front), actions[|actions| - 1], |front|);
      }
    }
  }

  lemma EmptyInv()
    ensures Inv(Tables(map[], map[], map[]))
  {}

  /** A confirmed claim owns its key forever, whatever follows. */
  lemma ConfirmedIsForever(actions: seq<Action>, later: seq<Action>, claim: RowId)
    requires AlwaysUndecided(actions)
    requires claim in Run(actions).candidates && Run(actions).candidates[claim].status.Confirmed?
    ensures var c, t' := Run(actions).candidates[claim], Run(actions + later);
      && claim in t'.candidates && t'.candidates[claim] == c
      && forall other :: t'.MapsTo(c.key, other) <==> other == c.entity
  {
    hide Run;
    InvOverRuns(actions);
    assert Inv(Run(actions));
    GrowsOverRuns(actions, later);
    MappingIsForever(actions, later, Run(actions).candidates[claim].key, Run(actions).candidates[claim].entity);
  }

  /** For instance, a claim created as already confirmed owns nothing. */
  lemma ConfirmedAtBirthOwnsNothing() returns (actions: seq<Action>, key: Key)
    ensures 0 in Run(actions).candidates && Run(actions).candidates[0] == Candidate(key, 1, Confirmed)
    ensures !Run(actions).MapsTo(key, 1)
  {
    key := Key(0, "lei", "X");
    actions := [ClaimAction(1, key, Confirmed)];
    assert Run([]) == Tables(map[], map[], map[]);
    RunSnoc([], actions[0]);
    assert [] + [actions[0]] == actions;
  }
}
