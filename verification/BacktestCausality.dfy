/** Causality of the simulation by bar index: what has not happened yet cannot be traded on. */
module BacktestCausality {
  import opened BacktestModel
  import opened Options
  import opened BacktestTiming

  /** Two runs with the same strategy and configuration whose markets agree at every bar below
      `n`, and on the times and opens of bar `n`.  Everything else may differ, including how
      many bars follow. */
  ghost predicate SameUntilOpen(u1: Setup, u2: Setup, n: nat) {
    && u1.Valid() && u2.Valid()
    && u1.n == u2.n && u1.strategy == u2.strategy && u1.config == u2.config
    && n < |u1.market.times| && n < |u2.market.times|
    && u1.market.times[..n + 1] == u2.market.times[..n + 1]
    && u1.market.bars[..n] == u2.market.bars[..n]
    && u1.market.benchmark[..n] == u2.market.benchmark[..n]
    && u1.market.Opens(n) == u2.market.Opens(n)
  }

  /** The same state, up to target sets that come due only after bar `n`. */
  ghost predicate Agree(n: nat, s1: Sim, s2: Sim) {
    && s1.(pending := []) == s2.(pending := [])
    && Filter(Until(n), s1.pending) == Filter(Until(n), s2.pending)
  }

  lemma SameBar(u1: Setup, u2: Setup, n: nat, k: nat)
    requires SameUntilOpen(u1, u2, n) && k <= n
    ensures u1.market.times[k] == u2.market.times[k] && u1.market.Opens(k) == u2.market.Opens(k)
    ensures k < n ==> u1.market.bars[k] == u2.market.bars[k] && u1.market.benchmark[k] == u2.market.benchmark[k]
  {
    assert u1.market.times[..n + 1][k] == u2.market.times[..n + 1][k];
    if k < n {
      assert u1.market.bars[..n][k] == u2.market.bars[..n][k];
      assert u1.market.benchmark[..n][k] == u2.market.benchmark[..n][k];
    }
  }

  lemma SameRebalance(u1: Setup, u2: Setup, n: nat, k: nat, s1: Sim, s2: Sim,
                      signalTime: int, reasons: map<nat, string>)
    requires SameUntilOpen(u1, u2, n) && k <= n && s1.Fits(u1.n)
    requires s1.(pending := []) == s2.(pending := [])
    ensures WithRebalance(u1, k, s1, signalTime, reasons).(pending := [])
         == WithRebalance(u2, k, s2, signalTime, reasons).(pending := [])
  {
    hide RunRebalance;
    SameBar(u1, u2, n, k);
  }

  lemma {:induction false} SameFirings(u1: Setup, u2: Setup, n: nat, k: nat, s1: Sim, s2: Sim, due: seq<Pending>)
    requires SameUntilOpen(u1, u2, n) && k <= n && s1.Fits(u1.n)
    requires s1.(pending := []) == s2.(pending := [])
    ensures FireAll(u1, k, s1, due).(pending := []) == FireAll(u2, k, s2, due).(pending := [])
  {
    hide WithRebalance, Retarget;
    if due != [] {
      var item := due[|due| - 1];
      SameFirings(u1, u2, n, k, s1, s2, due[..|due| - 1]);
      var t1, t2 := FireAll(u1, k, s1, due[..|due| - 1]), FireAll(u2, k, s2, due[..|due| - 1]);
      SameRebalance(u1, u2, n, k, t1.(targets := Retarget(t1.targets, item.updates)),
                    t2.(targets := Retarget(t2.targets, item.updates)), item.signalTime, item.reasons);
    }
  }

  lemma SameTrades(u1: Setup, u2: Setup, n: nat, k: nat, s1: Sim, s2: Sim)
    requires SameUntilOpen(u1, u2, n) && k <= n && s1.Fits(u1.n) && Agree(n, s1, s2)
    ensures Agree(n, TradePhase(u1, k, s1), TradePhase(u2, k, s2))
  {
    hide WithRebalance, FireAll, RiskLimitBreached, Filter;
    FilterTwice(At(k), Until(n), At(k), s1.pending);
    FilterTwice(At(k), Until(n), At(k), s2.pending);
    var due := Filter(At(k), s1.pending);
    SameFirings(u1, u2, n, k, s1, s2, due);
    if s1.snapshots != [] {
      SameRebalance(u1, u2, n, k, s1, s2, s1.snapshots[|s1.snapshots| - 1].eventTime, RiskReasons(u1.n));
    }
    UndueCommutes(k, n, s1.pending);
    UndueCommutes(k, n, s2.pending);
  }

  lemma UndueCommutes(k: nat, n: nat, pending: seq<Pending>)
    ensures Filter(Until(n), Filter(NotAt(k), pending)) == Filter(NotAt(k), Filter(Until(n), pending))
  {
    var both := (p: Pending) => p.executionIndex <= n && p.executionIndex != k;
    FilterTwice(Until(n), NotAt(k), both, pending);
    FilterTwice(NotAt(k), Until(n), both, pending);
  }

  lemma SameSnapshot(u1: Setup, u2: Setup, n: nat, k: nat, s1: Sim, s2: Sim)
    requires SameUntilOpen(u1, u2, n) && k < n && s1.Fits(u1.n)
    requires s1.(pending := []) == s2.(pending := [])
    ensures SnapshotAt(u1, k, s1) == SnapshotAt(u2, k, s2)
  {
    hide TakeSnapshot;
    SameBar(u1, u2, n, k);
    SameBar(u1, u2, n, 0);
    assert u1.market.Closes(k) == u2.market.Closes(k);
  }

  lemma {:induction false} SameSignals(u1: Setup, u2: Setup, n: nat, k: nat, i: nat)
    requires SameUntilOpen(u1, u2, n) && k < n && i <= u1.n
    ensures SignalsAt(u1, k, i) == SignalsAt(u2, k, i)
  {
    if i > 0 {
      SameSignals(u1, u2, n, k, i - 1);
      SameBar(u1, u2, n, k);
      forall j | 0 <= j <= k ensures u1.market.bars[j] == u2.market.bars[j] { SameBar(u1, u2, n, j); }
      assert u1.market.History(i - 1, k + 1) == u2.market.History(i - 1, k + 1);
    }
  }

  /** Two clocks that agree through bar `n` find the same eligible bar, or none by bar `n`. */
  lemma {:induction false} SameEligible(times1: seq<int>, times2: seq<int>, n: nat, candidate: nat, signalTime: int)
    requires n < |times1| && n < |times2| && times1[..n + 1] == times2[..n + 1]
    ensures var e1, e2 := EligibleIndex(times1, candidate, signalTime), EligibleIndex(times2, candidate, signalTime);
      e1 == e2 || ((e1.Some? ==> n < e1.value) && (e2.Some? ==> n < e2.value))
    decreases n - candidate
  {
    if candidate <= n {
      assert times1[..n + 1][candidate] == times2[..n + 1][candidate];
      if times1[candidate] <= signalTime { SameEligible(times1, times2, n, candidate + 1, signalTime); }
    } else {
      EligibleIndexFirst(times1, candidate, signalTime);
      EligibleIndexFirst(times2, candidate, signalTime);
    }
  }

  lemma SameSchedule(u1: Setup, u2: Setup, n: nat, k: nat)
    requires SameUntilOpen(u1, u2, n) && k < n
    ensures Filter(Until(n), Scheduled(u1, k)) == Filter(Until(n), Scheduled(u2, k))
  {
    hide SignalsAt, LatestSignal, EligibleIndex, Updates, Reasons, Filter;
    SameSignals(u1, u2, n, k, u1.n);
    var signals := SignalsAt(u1, k, u1.n);
    if signals != [] {
      SameEligible(u1.market.times, u2.market.times, n, k + u1.config.executionDelay, LatestSignal(signals));
      if Scheduled(u1, k) != Scheduled(u2, k) {
        FilterNone(Until(n), Scheduled(u1, k));
        FilterNone(Until(n), Scheduled(u2, k));
      }
    }
  }

  lemma {:induction false} SameState(u1: Setup, u2: Setup, n: nat, k: nat)
    requires SameUntilOpen(u1, u2, n) && k <= n
    ensures Agree(n, After(u1, k), After(u2, k))
  {
    hide TradePhase, SnapshotAt, SignalsAt, Scheduled, Filter;
    if k > 0 {
      SameState(u1, u2, n, k - 1);
      var s1, s2 := TradePhase(u1, k - 1, After(u1, k - 1)), TradePhase(u2, k - 1, After(u2, k - 1));
      SameTrades(u1, u2, n, k - 1, After(u1, k - 1), After(u2, k - 1));
      SameSnapshot(u1, u2, n, k - 1, s1, s2);
      SameSignals(u1, u2, n, k - 1, u1.n);
      SameSchedule(u1, u2, n, k - 1);
      FilterConcat(Until(n), s1.pending, Scheduled(u1, k - 1));
      FilterConcat(Until(n), s2.pending, Scheduled(u2, k - 1));
    }
  }

  // ---------------------------------------------------------------- whole runs

  function ByBar(n: nat): Rebalance -> bool { (r: Rebalance) => r.index <= n }

  /** A finished run's journal through bar `n` is what the run had done when bar `n` closed. */
  lemma {:induction false} JournalThrough(u: Setup, n: nat, m: nat)
    requires u.Valid() && n < m <= |u.market.times|
    ensures Filter(ByBar(n), After(u, m).journal) == After(u, n + 1).journal
    decreases m
  {
    hide After, AllScheduled, Filter;
    if m == n + 1 {
      EntriesByBar(u, m);
      FilterAll(ByBar(n), After(u, m).journal);
    } else {
      JournalThrough(u, n, m - 1);
      var entries := BarEntries(u, m - 1);
      EntriesAt(u, m - 1, entries);
      FilterNone(ByBar(n), entries);
      FilterConcat(ByBar(n), After(u, m - 1).journal, entries);
    }
  }

  lemma EntriesAt(u: Setup, k: nat, entries: seq<Rebalance>)
    requires u.Valid() && k < |u.market.times|
    requires var due := Filter(At(k), AllScheduled(u, |u.market.times|));
      if due != [] then FiredInOrder(u, k, due, entries) else forall r :: r in entries ==> r.index == k
    ensures forall r :: r in entries ==> r.index == k
  {}

  lemma {:induction false} EntriesByBar(u: Setup, k: nat)
    requires u.Valid() && k <= |u.market.times|
    ensures forall r :: r in After(u, k).journal ==> r.index < k
  {
    hide After, AllScheduled, Filter;
    if k == 0 {
      NothingYet(u);
    } else {
      EntriesByBar(u, k - 1);
      var entries := BarEntries(u, k - 1);
      EntriesAt(u, k - 1, entries);
    }
  }

  lemma {:induction false} GrowsOnly(u: Setup, k: nat, m: nat)
    requires u.Valid() && k <= m <= |u.market.times|
    ensures After(u, k).snapshots <= After(u, m).snapshots && After(u, k).signals <= After(u, m).signals
    decreases m
  {
    hide TradePhase, SnapshotAt, SignalsAt, Scheduled;
    if k < m {
      GrowsOnly(u, k, m - 1);
      TradePhaseSignals(u, m - 1, After(u, m - 1));
    }
  }

  lemma {:induction false} FireAllSignals(u: Setup, k: nat, s: Sim, due: seq<Pending>)
    requires u.Valid() && k < |u.market.times| && s.Fits(u.n)
    ensures var s' := FireAll(u, k, s, due); s'.signals == s.signals && s'.snapshots == s.snapshots
  {
    hide RunRebalance, Retarget;
    if due != [] { FireAllSignals(u, k, s, due[..|due| - 1]); }
  }

  lemma TradePhaseSignals(u: Setup, k: nat, s: Sim)
    requires u.Valid() && k < |u.market.times| && s.Fits(u.n)
    ensures var s' := TradePhase(u, k, s); s'.signals == s.signals && s'.snapshots == s.snapshots
  {
    hide RunRebalance, FireAll, RiskLimitBreached, Filter;
    FireAllSignals(u, k, s, Filter(At(k), s.pending));
  }

  /** Two finished runs whose markets agree below bar `n`, and on its times and opens, made the
      same rebalances, trade for trade, at every bar through `n`, and the same snapshots and
      signals at every bar below `n`. */
  lemma Causality(u1: Setup, u2: Setup, n: nat)
    requires SameUntilOpen(u1, u2, n)
    ensures var end1, end2 := After(u1, |u1.market.times|), After(u2, |u2.market.times|);
      && Filter(ByBar(n), end1.journal) == Filter(ByBar(n), end2.journal)
      && |end1.snapshots| >= n && |end2.snapshots| >= n && end1.snapshots[..n] == end2.snapshots[..n]
      && After(u1, n).signals == After(u2, n).signals
      && After(u1, n).signals <= end1.signals && After(u2, n).signals <= end2.signals
  {
    hide TradePhase, SnapshotAt, SignalsAt, Scheduled, Filter;
    SameState(u1, u2, n, n);
    SameTrades(u1, u2, n, n, After(u1, n), After(u2, n));
    JournalThrough(u1, n, |u1.market.times|);
    JournalThrough(u2, n, |u2.market.times|);
    GrowsOnly(u1, n, |u1.market.times|);
    GrowsOnly(u2, n, |u2.market.times|);
    QueueIsUndue(u1, n);
    QueueIsUndue(u2, n);
  }
}
