/** The gate around password hashing: a two-permit semaphore in every process and, on
    PostgreSQL, two advisory locks shared by all of them.  Every database call is one step. */
module AuthHashGate {
  import Counting
  import opened Options

  type Process = nat
  type Task = nat
  type Slot = nat

  const HASH_CONCURRENCY := 2

  /** Where a task stands once it holds a permit: about to ask for lock `next`, or hashing,
      under the lock it was given if the database has locks. */
  datatype Stage = Asking(next: Slot) | Hashing(slot: Option<Slot>)

  datatype Entry = Entry(process: Process, stage: Stage)

  /** `taken` counts the permits a process has handed out; `locks` says who holds which lock. */
  datatype Gate = Gate(taken: map<Process, nat>, locks: map<Slot, Task>, inside: map<Task, Entry>) {
    function Taken(p: Process): nat { if p in taken then taken[p] else 0 }
  }

  datatype Action =
    | Enter(task: Task, process: Process)
    | Ask(task: Task, postgres: bool)
    | Leave(task: Task)
    | LoseConnection(task: Task)

  function Of(g: Gate, p: Process): set<Task> { set t | t in g.inside && g.inside[t].process == p }

  function HashingTasks(g: Gate): set<Task> { set t | t in g.inside && g.inside[t].stage.Hashing? }

  /** Hashing tasks whose lock went with their connection, or that never needed one. */
  function Unlocked(g: Gate): set<Task> {
    set t | t in HashingTasks(g) && !(exists s :: s in g.locks && g.locks[s] == t)
  }

  /** The `finally` clause: the permit goes back however the block ends. */
  function Release(g: Gate, t: Task): Gate
    requires t in g.inside
  {
    var p := g.inside[t].process;
    g.(taken := g.taken[p := if g.Taken(p) > 0 then g.Taken(p) - 1 else 0], inside := g.inside - {t})
  }

  function Unlock(g: Gate, t: Task): Gate {
    g.(locks := map s | s in g.locks && g.locks[s] != t :: g.locks[s])
  }

  /** A refused step raises and, inside the block, gives its permit back. */
  function Next(g: Gate, a: Action): Gate {
    match a
    case Enter(t, p) =>
      if t in g.inside || g.Taken(p) >= HASH_CONCURRENCY then g
      else g.(taken := g.taken[p := g.Taken(p) + 1], inside := g.inside[t := Entry(p, Asking(0))])
    case Ask(t, postgres) =>
      if t !in g.inside || !g.inside[t].stage.Asking? then g
      else
        var slot := g.inside[t].stage.next;
        if !postgres then g.(inside := g.inside[t := g.inside[t].(stage := Hashing(None))])
        else if slot >= HASH_CONCURRENCY then Release(g, t)
        else if slot in g.locks then g.(inside := g.inside[t := g.inside[t].(stage := Asking(slot + 1))])
        else g.(locks := g.locks[slot := t], inside := g.inside[t := g.inside[t].(stage := Hashing(Some(slot)))])
    case Leave(t) => if t in g.inside then Release(Unlock(g, t), t) else g
    case LoseConnection(t) => Unlock(g, t)
  }

  function Run(actions: seq<Action>): Gate {
    if actions == [] then Gate(map[], map[], map[])
    else Next(Run(actions[..|actions| - 1]), actions[|actions| - 1])
  }

  /** Permits out equal tasks in, never more than two; a lock belongs to a task hashing under it. */
  ghost predicate Inv(g: Gate) {
    && (forall p :: g.Taken(p) == |Of(g, p)| <= HASH_CONCURRENCY)
    && (forall s :: s in g.locks ==>
          s < HASH_CONCURRENCY && g.locks[s] in g.inside && g.inside[g.locks[s]].stage == Hashing(Some(s)))
  }

  lemma EnterCounts(g: Gate, g': Gate, t: Task, e: Entry, p: Process)
    requires t !in g.inside && g'.inside == g.inside[t := e]
    ensures |Of(g', p)| == |Of(g, p)| + if e.process == p then 1 else 0
  {
    assert Of(g', p) == if e.process == p then Of(g, p) + {t} else Of(g, p);
  }

  lemma SameCounts(g: Gate, g': Gate, t: Task, stage: Stage, p: Process)
    requires t in g.inside && g'.inside == g.inside[t := g.inside[t].(stage := stage)]
    ensures Of(g', p) == Of(g, p)
  {}

  lemma ReleaseCounts(g: Gate, t: Task)
    requires t in g.inside && Inv(g) && t !in g.locks.Values
    ensures Inv(Release(g, t))
  {
    var g' := Release(g, t);
    forall p ensures g'.Taken(p) == |Of(g', p)| <= HASH_CONCURRENCY {
      assert g.Taken(p) == |Of(g, p)|;
      assert Of(g', p) == Of(g, p) - {t};
      assert t in Of(g, p) <==> g.inside[t].process == p;
    }
  }

  lemma UnlockKeepsInv(g: Gate, t: Task)
    requires Inv(g)
    ensures Inv(Unlock(g, t)) && t !in Unlock(g, t).locks.Values && Unlock(g, t).inside == g.inside
  {
    var g' := Unlock(g, t);
    forall p ensures g'.Taken(p) == |Of(g', p)| <= HASH_CONCURRENCY {
      assert g.Taken(p) == |Of(g, p)| && Of(g', p) == Of(g, p);
    }
  }

  lemma EnterKeepsInv(g: Gate, t: Task, p: Process)
    requires Inv(g)
    ensures Inv(Next(g, Enter(t, p)))
  {
    var g' := Next(g, Enter(t, p));
    if g' != g {
      forall q ensures g'.Taken(q) == |Of(g', q)| <= HASH_CONCURRENCY {
        assert g.Taken(q) == |Of(g, q)|;
        EnterCounts(g, g', t, Entry(p, Asking(0)), q);
      }
    }
  }

  lemma AskKeepsInv(g: Gate, t: Task, postgres: bool)
    requires Inv(g)
    ensures Inv(Next(g, Ask(t, postgres)))
  {
    var g' := Next(g, Ask(t, postgres));
    if t in g.inside && g.inside[t].stage.Asking? {
      assert t !in g.locks.Values;
      if postgres && g.inside[t].stage.next >= HASH_CONCURRENCY {
        ReleaseCounts(g, t);
      } else {
        forall p ensures g'.Taken(p) == |Of(g', p)| <= HASH_CONCURRENCY {
          assert g.Taken(p) == |Of(g, p)|;
          SameCounts(g, g', t, g'.inside[t].stage, p);
        }
      }
    }
  }

  lemma NextKeepsInv(g: Gate, a: Action)
    requires Inv(g)
    ensures Inv(Next(g, a))
  {
    match a
    case Enter(t, p) => EnterKeepsInv(g, t, p);
    case Ask(t, postgres) => AskKeepsInv(g, t, postgres);
    case Leave(t) =>
      UnlockKeepsInv(g, t);
      if t in g.inside { ReleaseCounts(Unlock(g, t), t); }
    case LoseConnection(t) => UnlockKeepsInv(g, t);
  }

  lemma {:induction false} InvOverRuns(actions: seq<Action>)
    ensures Inv(Run(actions))
  {
    if actions == [] {
      assert forall p :: Of(Run(actions), p) == {};
    } else {
      InvOverRuns(actions[..|actions| - 1]);
      NextKeepsInv(Run(actions[..|actions| - 1]), actions[|actions| - 1]);
    }
  }

  /** Whatever is interleaved, refused or lost, a process never has more than two tasks past its
      semaphore, no permit leaks, and a task is turned away there only when two are inside. */
  lemma PermitsConserved(actions: seq<Action>, task: Task, p: Process)
    ensures var g := Run(actions);
      && |Of(g, p)| <= 2 && g.Taken(p) == |Of(g, p)|
      && (task !in g.inside ==> (task in Next(g, Enter(task, p)).inside <==> |Of(g, p)| < 2))
  {
    InvOverRuns(actions);
    assert Run(actions).Taken(p) == |Of(Run(actions), p)|;
  }

  function Holders(g: Gate, n: nat): set<Task> {
    if n == 0 then {} else Holders(g, n - 1) + if n - 1 in g.locks then {g.locks[n - 1]} else {}
  }

  lemma {:induction false} HoldersBounded(g: Gate, n: nat)
    ensures |Holders(g, n)| <= n
    ensures forall t :: t in Holders(g, n) <==> exists s :: s in g.locks && s < n && g.locks[s] == t
  {
    if n > 0 { HoldersBounded(g, n - 1); }
  }

  /** Across all processes at most two tasks hash under a lock, so at most two hash at all plus
      those that lost theirs or never took one. */
  lemma HashingBounded(actions: seq<Action>)
    ensures var g := Run(actions);
      |HashingTasks(g) - Unlocked(g)| <= 2 && |HashingTasks(g)| <= 2 + |Unlocked(g)|
  {
    hide Run, HashingTasks, Unlocked, Inv;
    var g := Run(actions);
    InvOverRuns(actions);
    HoldersBounded(g, HASH_CONCURRENCY);
    LockedAreHolders(g);
    SplitCount(HashingTasks(g), Unlocked(g));
  }

  lemma LockedAreHolders(g: Gate)
    requires Inv(g)
    ensures HashingTasks(g) - Unlocked(g) == Holders(g, HASH_CONCURRENCY)
  {
    HoldersBounded(g, HASH_CONCURRENCY);
    hide Holders;
    forall t ensures t in HashingTasks(g) - Unlocked(g) <==> t in Holders(g, HASH_CONCURRENCY) {
      if t in HashingTasks(g) - Unlocked(g) {
        var s :| s in g.locks && g.locks[s] == t;
      }
    }
  }

  lemma SplitCount(all: set<Task>, part: set<Task>)
    ensures |all| <= |all - part| + |part|
  {
    assert all <= (all - part) + part;
    assert all == (all - part) + (all * part);
    assert part == (all * part) + (part - all);
  }

  /** A run on PostgreSQL whose connections survive. */
  ghost predicate Undisturbed(actions: seq<Action>) {
    forall a :: a in actions ==> !a.LoseConnection? && (a.Ask? ==> a.postgres)
  }

  ghost predicate EveryHashLocked(g: Gate) {
    forall t :: t in HashingTasks(g) ==>
      exists s :: s in g.locks && g.locks[s] == t && g.inside[t].stage == Hashing(Some(s))
  }

  lemma StepKeepsLocked(g: Gate, a: Action)
    requires Inv(g) && EveryHashLocked(g) && !a.LoseConnection? && (a.Ask? ==> a.postgres)
    ensures EveryHashLocked(Next(g, a))
  {
    var g' := Next(g, a);
    forall t | t in HashingTasks(g')
      ensures exists s :: s in g'.locks && g'.locks[s] == t && g'.inside[t].stage == Hashing(Some(s))
    {
      if t in HashingTasks(g) {
        var s :| s in g.locks && g.locks[s] == t && g.inside[t].stage == Hashing(Some(s));
        assert s in g'.locks && g'.locks[s] == t;
      } else {
        assert a.Ask? && a.task == t;
        var s := g.inside[t].stage.next;
        assert s in g'.locks && g'.locks[s] == t;
      }
    }
  }

  lemma {:induction false} AlwaysLocked(actions: seq<Action>)
    requires Undisturbed(actions)
    ensures EveryHashLocked(Run(actions))
  {
    if actions != [] {
      var front, a := actions[..|actions| - 1], actions[|actions| - 1];
      assert a in actions;
      AlwaysLocked(front);
      InvOverRuns(front);
      StepKeepsLocked(Run(front), a);
    }
  }

  /** While connections survive, at most two tasks hash at once in all processes together. */
  lemma TwoHashAtMost(actions: seq<Action>)
    requires Undisturbed(actions)
    ensures |HashingTasks(Run(actions))| <= 2
  {
    HashingBounded(actions);
    AlwaysLocked(actions);
    assert Unlocked(Run(actions)) == {};
  }

  // ---------------------------------------------------------------- exactly when three can hash

  /** The gate after more actions. */
  function Continue(g: Gate, more: seq<Action>): Gate {
    if more == [] then g else Next(Continue(g, more[..|more| - 1]), more[|more| - 1])
  }

  lemma {:induction false} RunContinues(actions: seq<Action>, more: seq<Action>)
    ensures Run(actions + more) == Continue(Run(actions), more)
  {
    hide Next;
    if more == [] {
      assert actions + more == actions;
    } else {
      RunContinues(actions, more[..|more| - 1]);
      assert (actions + more)[..|actions + more| - 1] == actions + more[..|more| - 1];
    }
  }

  lemma {:induction false} ContinueJoins(g: Gate, first: seq<Action>, second: seq<Action>)
    ensures Continue(g, first + second) == Continue(Continue(g, first), second)
  {
    if second == [] {
      assert first + second == first;
    } else {
      ContinueJoins(g, first, second[..|second| - 1]);
      assert (first + second)[..|first + second| - 1] == first + second[..|second| - 1];
    }
  }

  lemma {:induction false} FreshNumber(used: set<nat>) returns (n: nat)
    ensures forall m :: m in used ==> m < n
  {
    if used == {} {
      n := 0;
    } else {
      var m :| m in used;
      var rest := used - {m};
      n := FreshNumber(rest);
      n := if n <= m then m + 1 else n;
      assert forall k :: k in used ==> k == m || k in rest;
    }
  }

  /** A newcomer in a process of its own takes the first free lock. */
  lemma TakeLock(g: Gate, slot: Slot) returns (more: seq<Action>, u: Task)
    requires Inv(g) && slot < HASH_CONCURRENCY && slot !in g.locks && (slot == 1 ==> 0 in g.locks)
    ensures Undisturbed(more) && u !in g.inside
    ensures var g' := Continue(g, more);
      && g'.locks == g.locks[slot := u] && g'.inside.Keys == g.inside.Keys + {u}
      && (forall t :: t in g.inside ==> g'.inside[t] == g.inside[t])
      && g'.inside[u].stage == Hashing(Some(slot)) && Inv(g')
  {
    hide Inv, Of;
    var p;
    u, p := EnterFresh(g);
    var g1 := Next(g, Enter(u, p));
    var g2 := Next(g1, Ask(u, true));
    NextKeepsInv(g1, Ask(u, true));
    assert Continue(g, []) == g && [Enter(u, p)][..0] == [];
    assert Continue(g, [Enter(u, p)]) == g1;
    if slot == 0 {
      more := [Enter(u, p), Ask(u, true)];
      assert more[..1] == [Enter(u, p)];
    } else {
      NextKeepsInv(g2, Ask(u, true));
      more := [Enter(u, p), Ask(u, true), Ask(u, true)];
      assert more[..2][..1] == [Enter(u, p)] && more[..2][1] == Ask(u, true);
      assert Continue(g, more[..2]) == g2;
    }
  }

  lemma EnterFresh(g: Gate) returns (u: Task, p: Process)
    requires Inv(g)
    ensures u !in g.inside
    ensures var g' := Next(g, Enter(u, p));
      Inv(g') && g'.locks == g.locks && g'.inside == g.inside[u := Entry(p, Asking(0))]
  {
    u := FreshNumber(g.inside.Keys);
    p := FreshNumber(g.taken.Keys);
    NextKeepsInv(g, Enter(u, p));
  }

  /** With both locks held and one task hashing without, three hash. */
  lemma ThreeHash(g: Gate, t: Task)
    requires Inv(g) && t in Unlocked(g) && 0 in g.locks && 1 in g.locks
    ensures |HashingTasks(g)| > HASH_CONCURRENCY
  {
    var three := {t, g.locks[0], g.locks[1]};
    assert g.locks[0] != g.locks[1];
    Counting.SubsetCount(three, HashingTasks(g));
  }

  lemma StillUnlocked(g: Gate, g': Gate, t: Task, slot: Slot, u: Task)
    requires t in Unlocked(g) && u != t && g'.locks == g.locks[slot := u]
    requires t in g'.inside && g'.inside[t] == g.inside[t]
    ensures t in Unlocked(g')
  {
    forall s | s in g'.locks ensures g'.locks[s] != t {}
  }

  /** From any state with a task hashing without a lock, newcomers alone bring the number to three. */
  lemma FillLocks(g: Gate, t: Task) returns (more: seq<Action>)
    requires Inv(g) && t in Unlocked(g)
    ensures Undisturbed(more) && |HashingTasks(Continue(g, more))| > HASH_CONCURRENCY
    decreases (if 0 in g.locks then 0 else 1) + (if 1 in g.locks then 0 else 1)
  {
    hide Continue, Unlocked, HashingTasks, Inv;
    if 0 in g.locks && 1 in g.locks {
      ThreeHash(g, t);
      more := [];
      assert Continue(g, more) == g by { NothingMore(g); }
    } else {
      var slot := if 0 in g.locks then 1 else 0;
      var first, u := TakeLock(g, slot);
      var g' := Continue(g, first);
      assert t in g.inside by { UnlockedInside(g, t); }
      StillUnlocked(g, g', t, slot, u);
      var second := FillLocks(g', t);
      ContinueJoins(g, first, second);
      more := first + second;
    }
  }

  lemma NothingMore(g: Gate)
    ensures Continue(g, []) == g
  {}

  lemma UnlockedInside(g: Gate, t: Task)
    requires t in Unlocked(g)
    ensures t in g.inside
  {}

  lemma {:induction false} ContinueLocked(g: Gate, more: seq<Action>)
    requires Inv(g) && EveryHashLocked(g) && Undisturbed(more)
    ensures Inv(Continue(g, more)) && EveryHashLocked(Continue(g, more))
  {
    if more != [] {
      var front, a := more[..|more| - 1], more[|more| - 1];
      assert a in more;
      ContinueLocked(g, front);
      StepKeepsLocked(Continue(g, front), a);
      NextKeepsInv(Continue(g, front), a);
    }
  }

  lemma LockedBounded(g: Gate)
    requires Inv(g) && EveryHashLocked(g)
    ensures |HashingTasks(g)| <= HASH_CONCURRENCY
  {
    HoldersBounded(g, HASH_CONCURRENCY);
    LockedAreHolders(g);
    assert Unlocked(g) == {};
    assert HashingTasks(g) - Unlocked(g) == HashingTasks(g);
  }

  /** In any reachable state, an undisturbed continuation can have more than two tasks hash at
      once if and only if some task is already hashing without a lock. */
  lemma ThirdHashIff(actions: seq<Action>)
    ensures (exists more :: Undisturbed(more) && |HashingTasks(Run(actions + more))| > 2)
       <==> Unlocked(Run(actions)) != {}
  {
    hide Run, Continue, HashingTasks, Undisturbed, Inv;
    var g := Run(actions);
    InvOverRuns(actions);
    if Unlocked(g) != {} {
      var t :| t in Unlocked(g);
      var more := FillLocks(g, t);
      RunContinues(actions, more);
    } else {
      AllLocked(g);
      forall more | Undisturbed(more) ensures |HashingTasks(Run(actions + more))| <= 2 {
        RunContinues(actions, more);
        ContinueLocked(g, more);
        LockedBounded(Continue(g, more));
      }
    }
  }

  lemma AllLocked(g: Gate)
    requires Inv(g) && Unlocked(g) == {}
    ensures EveryHashLocked(g)
  {
    forall t | t in HashingTasks(g)
      ensures exists s :: s in g.locks && g.locks[s] == t && g.inside[t].stage == Hashing(Some(s))
    {
      assert t !in Unlocked(g);
      var s :| s in g.locks && g.locks[s] == t;
    }
  }

  /** So losing the connection of any hashing task, in any reachable state, lets a third hash. */
  lemma LossAdmitsAThird(actions: seq<Action>, t: Task)
    requires t in HashingTasks(Run(actions))
    ensures exists more ::
      Undisturbed(more) && |HashingTasks(Run(actions + [LoseConnection(t)] + more))| > 2
  {
    hide Run, Undisturbed;
    var lost := actions + [LoseConnection(t)];
    RunSnoc(actions, LoseConnection(t));
    assert t in Unlocked(Run(lost));
    ThirdHashIff(lost);
  }

  // ---------------------------------------------------------------- who gets to hash

  /** On PostgreSQL a task that asks on undisturbed hashes if and only if its process has a permit left and
      one of the two locks is free, the first such lock being its own; otherwise it leaves no trace. */
  lemma AdmittedIff(actions: seq<Action>, t: Task, p: Process)
    requires t !in Run(actions).inside
    ensures var g := Run(actions);
      var g' := Run(actions + [Enter(t, p)] + [Ask(t, true)] + [Ask(t, true)] + [Ask(t, true)]);
      if |Of(g, p)| < 2 && (0 !in g.locks || 1 !in g.locks) then
        var slot := if 0 !in g.locks then 0 else 1;
        g'.inside == g.inside[t := Entry(p, Hashing(Some(slot)))] && g'.locks == g.locks[slot := t]
      else g'.inside == g.inside && g'.locks == g.locks && forall q :: g'.Taken(q) == g.Taken(q)
  {
    hide Run;
    InvOverRuns(actions);
    var entered := actions + [Enter(t, p)];
    RunSnoc(actions, Enter(t, p));
    RunSnoc(entered, Ask(t, true));
    RunSnoc(entered + [Ask(t, true)], Ask(t, true));
    RunSnoc(entered + [Ask(t, true)] + [Ask(t, true)], Ask(t, true));
    assert Run(actions).Taken(p) == |Of(Run(actions), p)|;
  }

  /** Elsewhere the permit alone decides. */
  lemma AdmittedByPermitIff(actions: seq<Action>, t: Task, p: Process)
    requires t !in Run(actions).inside
    ensures var g, g' := Run(actions), Run(actions + [Enter(t, p)] + [Ask(t, false)]);
      && g'.locks == g.locks
      && g'.inside == if |Of(g, p)| < 2 then g.inside[t := Entry(p, Hashing(None))] else g.inside
  {
    hide Run;
    InvOverRuns(actions);
    RunSnoc(actions, Enter(t, p));
    RunSnoc(actions + [Enter(t, p)], Ask(t, false));
    assert Run(actions).Taken(p) == |Of(Run(actions), p)|;
  }

  /** A task that leaves gives back its permit and its lock, and nothing else; one that loses its connection
      gives back the lock alone. */
  lemma LeavingFrees(actions: seq<Action>, t: Task)
    requires t in Run(actions).inside
    ensures var g, left, lost := Run(actions), Run(actions + [Leave(t)]), Run(actions + [LoseConnection(t)]);
      && left.inside == g.inside - {t} && lost.inside == g.inside
      && (forall p :: left.Taken(p) == |Of(left, p)| && lost.Taken(p) == g.Taken(p))
      && left.locks == lost.locks
      && forall s :: s in lost.locks <==> s in g.locks && g.locks[s] != t
  {
    hide Run;
    InvOverRuns(actions + [Leave(t)]);
    RunSnoc(actions, Leave(t));
    RunSnoc(actions, LoseConnection(t));
  }

  lemma RunSnoc(actions: seq<Action>, a: Action)
    ensures Run(actions + [a]) == Next(Run(actions), a)
  {
    assert (actions + [a])[..|actions|] == actions;
  }
}
