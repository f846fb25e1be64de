/** Timing laws: every scheduled target set fires exactly once, at the first eligible bar, and
    no trade executes at or before its signal. */
module BacktestTiming {
  import opened BacktestModel
  import opened BacktestRun
  import opened Options

  // ---------------------------------------------------------------- filters

  function From(k: nat): Pending -> bool { (p: Pending) => p.executionIndex >= k }

  function Until(k: nat): Pending -> bool { (p: Pending) => p.executionIndex <= k }

  lemma {:induction false} FilterConcat<T(!new)>(keep: T -> bool, xs: seq<T>, ys: seq<T>)
    ensures Filter(keep, xs + ys) == Filter(keep, xs) + Filter(keep, ys)
  {
    if ys == [] {
      assert xs + ys == xs;
    } else {
      FilterConcat(keep, xs, ys[..|ys| - 1]);
      assert (xs + ys)[..|xs + ys| - 1] == xs + ys[..|ys| - 1];
    }
  }

  lemma {:induction false} FilterTwice<T(!new)>(f: T -> bool, g: T -> bool, both: T -> bool, xs: seq<T>)
    requires forall x :: x in xs ==> (both(x) <==> f(x) && g(x))
    ensures Filter(f, Filter(g, xs)) == Filter(both, xs)
  {
    if xs != [] {
      FilterTwice(f, g, both, xs[..|xs| - 1]);
      var last := xs[|xs| - 1];
      var front := Filter(g, xs[..|xs| - 1]);
      assert (front + [last])[..|front|] == front;
    }
  }

  lemma {:induction false} FilterAll<T(!new)>(keep: T -> bool, xs: seq<T>)
    requires forall x :: x in xs ==> keep(x)
    ensures Filter(keep, xs) == xs
  {
    if xs != [] { FilterAll(keep, xs[..|xs| - 1]); }
  }

  lemma {:induction false} FilterNone<T(!new)>(keep: T -> bool, xs: seq<T>)
    requires forall x :: x in xs ==> !keep(x)
    ensures Filter(keep, xs) == []
  {
    if xs != [] { FilterNone(keep, xs[..|xs| - 1]); }
  }

  // ---------------------------------------------------------------- scheduling

  /** Everything the first `k` bars schedule, in order. */
  function AllScheduled(u: Setup, k: nat): seq<Pending>
    requires u.Valid() && k <= |u.market.times|
  {
    if k == 0 then [] else AllScheduled(u, k - 1) + Scheduled(u, k - 1)
  }

  /** `index` is the first bar at or after `candidate` whose time is after the signal. */
  ghost predicate FirstEligible(times: seq<int>, candidate: nat, signalTime: int, index: nat) {
    && candidate <= index < |times|
    && signalTime < times[index]
    && forall j :: candidate <= j < index ==> times[j] <= signalTime
  }

  lemma {:induction false} EligibleIndexFirst(times: seq<int>, candidate: nat, signalTime: int)
    ensures match EligibleIndex(times, candidate, signalTime)
      case Some(index) => FirstEligible(times, candidate, signalTime, index)
      case None => forall j :: candidate <= j < |times| ==> times[j] <= signalTime
    decreases |times| - candidate
  {
    if candidate < |times| && times[candidate] <= signalTime {
      EligibleIndexFirst(times, candidate + 1, signalTime);
    }
  }

  ghost predicate ProperlyScheduled(u: Setup, p: Pending) {
    FirstEligible(u.market.times, p.signalIndex + u.config.executionDelay, p.signalTime, p.executionIndex)
  }

  lemma {:induction false} AllScheduledProper(u: Setup, k: nat)
    requires u.Valid() && k <= |u.market.times|
    ensures forall p :: p in AllScheduled(u, k) ==> p.signalIndex < k && ProperlyScheduled(u, p)
  {
    hide SignalsAt, LatestSignal, Updates, Reasons;
    if k > 0 {
      AllScheduledProper(u, k - 1);
      ScheduledProper(u, k - 1);
    }
  }

  lemma ScheduledProper(u: Setup, k: nat)
    requires u.Valid() && k < |u.market.times|
    ensures forall p :: p in Scheduled(u, k) ==>
      p.signalIndex == k && ProperlyScheduled(u, p) && k < p.executionIndex
  {
    hide LatestSignal, Updates, Reasons, EligibleIndex;
    var signals := SignalsAt(u, k, u.n);
    if signals != [] {
      EligibleIndexFirst(u.market.times, k + u.config.executionDelay, LatestSignal(signals));
    }
  }

  lemma {:induction false} FireAllPending(u: Setup, k: nat, s: Sim, due: seq<Pending>)
    requires u.Valid() && k < |u.market.times| && s.Fits(u.n)
    ensures var s' := FireAll(u, k, s, due); s'.pending == s.pending && s'.snapshots == s.snapshots
  {
    hide RunRebalance, Retarget;
    if due != [] { FireAllPending(u, k, s, due[..|due| - 1]); }
  }

  /** After `k` bars the queue holds exactly what was scheduled and is not yet due, and there is
      one snapshot per bar. */
  lemma {:induction false} QueueIsUndue(u: Setup, k: nat)
    requires u.Valid() && k <= |u.market.times|
    ensures var s := After(u, k);
      && s.pending == Filter(From(k), AllScheduled(u, k))
      && |s.snapshots| == k
      && forall j :: 0 <= j < k ==> s.snapshots[j].eventTime == u.market.times[j]
  {
    hide Scheduled, SnapshotAt, SignalsAt, TradePhase, Filter;
    if k == 0 {
      assert Filter<Pending>(From(0), []) == [] by { FilterNone(From(0), []); }
    } else {
      QueueIsUndue(u, k - 1);
      var s := After(u, k - 1);
      TradePhaseQueue(u, k - 1, s);
      FilterTwice(NotAt(k - 1), From(k - 1), From(k), AllScheduled(u, k - 1));
      ScheduledProper(u, k - 1);
      FilterAll(From(k), Scheduled(u, k - 1));
      FilterConcat(From(k), AllScheduled(u, k - 1), Scheduled(u, k - 1));
      SnapshotTime(u, k - 1, TradePhase(u, k - 1, s));
    }
  }

  lemma SnapshotTime(u: Setup, k: nat, s: Sim)
    requires u.Valid() && k < |u.market.times| && s.Fits(u.n)
    ensures SnapshotAt(u, k, s).eventTime == u.market.times[k]
  {}

  lemma TradePhaseQueue(u: Setup, k: nat, s: Sim)
    requires u.Valid() && k < |u.market.times| && s.Fits(u.n)
    ensures var s' := TradePhase(u, k, s);
      s'.pending == Filter(NotAt(k), s.pending) && s'.snapshots == s.snapshots
  {
    hide RunRebalance, FireAll, RiskLimitBreached;
    FireAllPending(u, k, s, Filter(At(k), s.pending));
  }

  /** The firings of bar `k` are exactly the target sets, scheduled anywhere in the run, whose
      execution index is `k`: none is lost, none fires twice, none fires at another bar. */
  lemma FiresExactlyOnce(u: Setup, k: nat)
    requires u.Valid() && k < |u.market.times|
    ensures var all := AllScheduled(u, |u.market.times|);
      && Filter(At(k), After(u, k).pending) == Filter(At(k), all)
      && (forall p :: p in all ==> ProperlyScheduled(u, p))
  {
    hide After;
    QueueIsUndue(u, k);
    FilterTwice(At(k), From(k), At(k), AllScheduled(u, k));
    LaterScheduledLater(u, k, |u.market.times|);
    AllScheduledProper(u, |u.market.times|);
  }

  lemma {:induction false} LaterScheduledLater(u: Setup, k: nat, m: nat)
    requires u.Valid() && k <= m <= |u.market.times|
    ensures Filter(At(k), AllScheduled(u, m)) == Filter(At(k), AllScheduled(u, k))
    decreases m
  {
    hide Scheduled;
    if k < m {
      LaterScheduledLater(u, k, m - 1);
      ScheduledProper(u, m - 1);
      FilterNone(At(k), Scheduled(u, m - 1));
      FilterConcat(At(k), AllScheduled(u, m - 1), Scheduled(u, m - 1));
    }
  }

  // ---------------------------------------------------------------- firing order

  /** The journal entries of a list of firings: one each, in order, with the item's times. */
  ghost predicate FiredInOrder(u: Setup, k: nat, due: seq<Pending>, entries: seq<Rebalance>)
    requires k < |u.market.times|
  {
    && |entries| == |due|
    && forall j :: 0 <= j < |due| ==>
         && entries[j].index == k && entries[j].time == u.market.times[k]
         && entries[j].signalTime == due[j].signalTime
  }

  lemma {:induction false} FireAllEntries(u: Setup, k: nat, s: Sim, due: seq<Pending>) returns (entries: seq<Rebalance>)
    requires u.Valid() && k < |u.market.times| && s.Fits(u.n)
    ensures FireAll(u, k, s, due).journal == s.journal + entries
    ensures FiredInOrder(u, k, due, entries)
  {
    hide Fire;
    entries := [];
    if due != [] {
      var item := due[|due| - 1];
      entries := FireAllEntries(u, k, s, due[..|due| - 1]);
      var r := FireEntry(u, k, FireAll(u, k, s, due[..|due| - 1]), item);
      entries := entries + [r];
    }
  }

  /** One firing appends one entry with the item's signal time. */
  lemma FireEntry(u: Setup, k: nat, s: Sim, item: Pending) returns (r: Rebalance)
    requires u.Valid() && k < |u.market.times| && s.Fits(u.n)
    ensures Fire(u, k, s, item).journal == s.journal + [r]
    ensures r.index == k && r.time == u.market.times[k] && r.signalTime == item.signalTime
  {
    hide Retarget, SellPass, BuyPass, OrderFor, Weights;
    r := RunRebalance(k, u.market.times[k], item.signalTime, u.market.Opens(k), Retarget(s.targets, item.updates),
                      item.reasons, u.config, s.cash, s.holdings);
  }

  /** What bar `k` adds to the journal: one entry for each due item, or, when nothing is due, at
      most one risk-limit entry signalled by the previous bar. */
  lemma BarEntries(u: Setup, k: nat) returns (entries: seq<Rebalance>)
    requires u.Valid() && k < |u.market.times|
    ensures After(u, k + 1).journal == After(u, k).journal + entries
    ensures var due := Filter(At(k), AllScheduled(u, |u.market.times|));
      if due != [] then FiredInOrder(u, k, due, entries)
      else |entries| <= 1 && forall r :: r in entries ==>
        r.index == k && 0 < k && r.signalTime == u.market.times[k - 1] && r.time == u.market.times[k]
  {
    hide RunRebalance, FireAll, SnapshotAt, SignalsAt, Scheduled, RiskLimitBreached, AllScheduled;
    var s := After(u, k);
    FiresExactlyOnce(u, k);
    QueueIsUndue(u, k);
    entries := FireAllEntries(u, k, s, Filter(At(k), s.pending));
    if Filter(At(k), s.pending) == [] {
      var s' := TradePhase(u, k, s);
      entries := s'.journal[|s.journal|..];
      if entries != [] { RiskEntry(u, k, s, s.snapshots[|s.snapshots| - 1].eventTime); }
    }
  }

  lemma RiskEntry(u: Setup, k: nat, s: Sim, signalTime: int)
    requires u.Valid() && k < |u.market.times| && s.Fits(u.n)
    ensures var r := RunRebalance(k, u.market.times[k], signalTime, u.market.Opens(k), s.targets,
                                  RiskReasons(u.n), u.config, s.cash, s.holdings);
      r.index == k && r.time == u.market.times[k] && r.signalTime == signalTime
  {}

  /** No rebalance, scheduled or risk-limit, ever executes at or before its signal, so the
      validation report's same-bar rule cannot fail. */
  lemma {:induction false} NeverBeforeSignal(u: Setup, k: nat)
    requires u.Valid() && k <= |u.market.times|
    ensures forall r :: r in After(u, k).journal ==> r.signalTime < r.time
  {
    hide After, AllScheduled, Filter;
    if k == 0 {
      NothingYet(u);
    } else {
      NeverBeforeSignal(u, k - 1);
      var entries := BarEntries(u, k - 1);
      var due := Filter(At(k - 1), AllScheduled(u, |u.market.times|));
      if due != [] {
        DueProper(u, k - 1);
        FiredAfterSignal(u, k - 1, due, entries);
      }
    }
  }

  lemma DueProper(u: Setup, k: nat)
    requires u.Valid() && k < |u.market.times|
    ensures forall p :: p in Filter(At(k), AllScheduled(u, |u.market.times|)) ==>
      p.executionIndex == k && ProperlyScheduled(u, p)
  {
    hide AllScheduled;
    AllScheduledProper(u, |u.market.times|);
  }

  lemma FiredAfterSignal(u: Setup, k: nat, due: seq<Pending>, entries: seq<Rebalance>)
    requires k < |u.market.times| && FiredInOrder(u, k, due, entries)
    requires forall p :: p in due ==> p.executionIndex == k && ProperlyScheduled(u, p)
    ensures forall r :: r in entries ==> r.signalTime < r.time
  {
    forall j | 0 <= j < |entries| ensures entries[j].signalTime < entries[j].time {
      assert due[j] in due;
    }
  }

  lemma NothingYet(u: Setup)
    requires u.Valid()
    ensures After(u, 0).journal == []
  {}

  /** Trade by trade: every trade of every run executes strictly after its signal. */
  lemma NoSameBarTrade(u: Setup, k: nat)
    requires u.Valid() && k <= |u.market.times|
    ensures forall f :: f in Fills(After(u, k).journal) ==> f.trade.signalTime < f.trade.executionTime
  {
    hide After;
    BooksBalance(u, k);
    NeverBeforeSignal(u, k);
    FillsAfterSignal(u, After(u, k).journal);
  }

  lemma {:induction false} FillsAfterSignal(u: Setup, journal: seq<Rebalance>)
    requires u.Valid() && forall r :: r in journal ==> OfMarket(u, r) && r.signalTime < r.time
    ensures forall f :: f in Fills(journal) ==> f.trade.signalTime < f.trade.executionTime
  {
    if journal != [] {
      var front, last := journal[..|journal| - 1], journal[|journal| - 1];
      FillsAfterSignal(u, front);
      assert last in journal && OfMarket(u, last);
      assert forall f :: f in Fills(journal) <==> f in Fills(front) || f in last.after.fills;
    }
  }
}
