/** What the daily snapshots record: exact cash and fees, and drawdown from the running peak. */
module BacktestSnapshots {
  import opened Rounding
  import opened BacktestModel
  import opened BacktestAccounts
  import opened BacktestRisk
  import opened BacktestRun
  import opened BacktestTiming
  import opened BacktestTrades

  /** The highest of the initial cash and the first `k` recorded equities. */
  function PeakOf(initialCash: real, snapshots: seq<Snapshot>, k: nat): (peak: real)
    requires k <= |snapshots|
    ensures initialCash <= peak && forall j :: 0 <= j < k ==> snapshots[j].equity <= peak
    ensures peak == initialCash || exists j :: 0 <= j < k && snapshots[j].equity == peak
  {
    if k == 0 then initialCash
    else
      var before, last := PeakOf(initialCash, snapshots, k - 1), snapshots[k - 1].equity;
      if before >= last then before else last
  }

  lemma {:induction false} PeakOfPrefix(initialCash: real, snapshots: seq<Snapshot>, more: seq<Snapshot>, k: nat)
    requires k <= |snapshots|
    ensures PeakOf(initialCash, snapshots + more, k) == PeakOf(initialCash, snapshots, k)
  {
    if k > 0 { PeakOfPrefix(initialCash, snapshots, more, k - 1); }
  }

  function Against(equity: real, peak: real): real
    requires peak != 0.0
  {
    equity / peak - 1.0
  }

  /** A snapshot's drawdown is its equity against the highest equity seen by then, never positive,
      and zero exactly at a new or equalled high. */
  ghost predicate TracksPeak(initialCash: real, snapshots: seq<Snapshot>, j: nat)
    requires j < |snapshots|
  {
    var peak, s := PeakOf(initialCash, snapshots, j + 1), snapshots[j];
    && 0.0 < peak && s.drawdown == Against(s.equity, peak)
    && s.drawdown <= 0.0 && (s.drawdown == 0.0 <==> s.equity == peak)
  }

  lemma {:induction false} SnapshotsTrackPeak(u: Setup, k: nat)
    requires u.Valid() && k <= |u.market.times|
    ensures var s := After(u, k);
      && |s.snapshots| == k
      && s.peak == PeakOf(u.config.initialCash, s.snapshots, k)
      && forall j :: 0 <= j < k ==> TracksPeak(u.config.initialCash, s.snapshots, j)
  {
    hide TradePhase, TakeSnapshot, SignalsAt, Scheduled, TracksPeak;
    if k > 0 {
      SnapshotsTrackPeak(u, k - 1);
      var before := After(u, k - 1);
      var s := TradePhase(u, k - 1, before);
      TradePhaseKeepsPeak(u, k - 1, before);
      TradePhaseQueue(u, k - 1, before);
      var snapshot := SnapshotAt(u, k - 1, s);
      Drawdown(u, k - 1, s);
      AppendTracks(u.config.initialCash, before.snapshots, before.peak, snapshot);
    }
  }

  lemma AppendTracks(initialCash: real, snapshots: seq<Snapshot>, peak: real, snapshot: Snapshot)
    requires 0.0 < initialCash && peak == PeakOf(initialCash, snapshots, |snapshots|)
    requires forall j :: 0 <= j < |snapshots| ==> TracksPeak(initialCash, snapshots, j)
    requires var high := Max(peak, snapshot.equity);
      snapshot.drawdown == if high != 0.0 then Against(snapshot.equity, high) else 0.0
    ensures var all := snapshots + [snapshot];
      && PeakOf(initialCash, all, |all|) == Max(peak, snapshot.equity)
      && forall j :: 0 <= j < |all| ==> TracksPeak(initialCash, all, j)
  {
    hide Against, TracksPeak, PeakOf;
    var all := snapshots + [snapshot];
    AppendPeak(initialCash, snapshots, snapshot);
    LastTracks(initialCash, all);
    forall j | 0 <= j < |snapshots| ensures TracksPeak(initialCash, all, j) {
      StillTracks(initialCash, snapshots, snapshot, j);
    }
  }

  lemma AppendPeak(initialCash: real, snapshots: seq<Snapshot>, snapshot: Snapshot)
    ensures var all := snapshots + [snapshot];
      PeakOf(initialCash, all, |all|) == Max(PeakOf(initialCash, snapshots, |snapshots|), snapshot.equity)
  {
    PeakOfPrefix(initialCash, snapshots, [snapshot], |snapshots|);
  }

  lemma StillTracks(initialCash: real, snapshots: seq<Snapshot>, snapshot: Snapshot, j: nat)
    requires j < |snapshots| && TracksPeak(initialCash, snapshots, j)
    ensures TracksPeak(initialCash, snapshots + [snapshot], j)
  {
    hide Against, PeakOf;
    PeakOfPrefix(initialCash, snapshots, [snapshot], j + 1);
  }

  lemma LastTracks(initialCash: real, snapshots: seq<Snapshot>)
    requires 0.0 < initialCash && snapshots != []
    requires var last, high := snapshots[|snapshots| - 1], PeakOf(initialCash, snapshots, |snapshots|);
      last.drawdown == if high != 0.0 then Against(last.equity, high) else 0.0
    ensures TracksPeak(initialCash, snapshots, |snapshots| - 1)
  {
    hide Against, PeakOf;
    AgainstPeak(snapshots[|snapshots| - 1].equity, PeakOf(initialCash, snapshots, |snapshots|));
  }

  lemma AgainstPeak(equity: real, peak: real)
    requires 0.0 < peak && equity <= peak
    ensures Against(equity, peak) <= 0.0 && (Against(equity, peak) == 0.0 <==> equity == peak)
  {
    var fall := (peak - equity) / peak;
    assert fall * peak == peak - equity;
    assert Against(equity, peak) == -fall;
  }

  lemma Drawdown(u: Setup, k: nat, s: Sim)
    requires u.Valid() && k < |u.market.times| && s.Fits(u.n)
    ensures var snapshot := SnapshotAt(u, k, s);
      var high := Max(s.peak, snapshot.equity);
      snapshot.drawdown == if high != 0.0 then Against(snapshot.equity, high) else 0.0
  {
    hide Money, PositionRows, Value;
  }

  lemma {:induction false} FireAllKeepsPeak(u: Setup, k: nat, s: Sim, due: seq<Pending>)
    requires u.Valid() && k < |u.market.times| && s.Fits(u.n)
    ensures FireAll(u, k, s, due).peak == s.peak && FireAll(u, k, s, due).signals == s.signals
  {
    hide RunRebalance, Retarget;
    if due != [] { FireAllKeepsPeak(u, k, s, due[..|due| - 1]); }
  }

  lemma TradePhaseKeepsPeak(u: Setup, k: nat, s: Sim)
    requires u.Valid() && k < |u.market.times| && s.Fits(u.n)
    ensures TradePhase(u, k, s).peak == s.peak && TradePhase(u, k, s).signals == s.signals
  {
    hide RunRebalance, FireAll, RiskLimitBreached, Filter;
    FireAllKeepsPeak(u, k, s, Filter(At(k), s.pending));
  }

  // ---------------------------------------------------------------- nothing lost to rounding

  lemma {:induction false} FeesOnGrid(u: Setup, journal: seq<Rebalance>)
    requires u.Valid() && u.config.OnGrid()
    requires forall r :: r in journal ==> OfMarket(u, r)
    ensures OnMoneyGrid(Total(Fee, Fills(journal)))
  {
    if journal == [] {
      assert Micros(0) == 0.0;
    } else {
      var front, last := journal[..|journal| - 1], journal[|journal| - 1];
      FeesOnGrid(u, front);
      assert OfMarket(u, last);
      EqualFeesOnGrid(last.after.fills, u.config.commission);
      TotalConcat(Fee, Fills(front), last.after.fills);
      GridSum(Total(Fee, Fills(front)), Total(Fee, last.after.fills));
    }
  }

  lemma {:induction false} EqualFeesOnGrid(fills: seq<Fill>, commission: real)
    requires OnMoneyGrid(commission) && forall f :: f in fills ==> f.trade.fees == commission
    ensures OnMoneyGrid(Total(Fee, fills))
  {
    if fills == [] {
      assert Micros(0) == 0.0;
    } else {
      EqualFeesOnGrid(fills[..|fills| - 1], commission);
      GridSum(Total(Fee, fills[..|fills| - 1]), commission);
    }
  }

  /** With whole-micro initial cash and commission, the cash and fees a snapshot records are the
      run's exact cash and fees: rounding them for the record loses nothing. */
  lemma SnapshotsAreExact(u: Setup, k: nat)
    requires u.Valid() && u.config.OnGrid() && k < |u.market.times|
    ensures var s := After(u, k + 1);
      && |s.snapshots| == k + 1
      && s.snapshots[k].cash == s.cash && s.snapshots[k].cumulativeFees == s.fees
  {
    hide TradePhase, SnapshotAt, SignalsAt, Scheduled, Books, OfMarket, CashCovered, Money, OnMoneyGrid, Total, Fills;
    var s := TradePhase(u, k, After(u, k));
    QueueIsUndue(u, k);
    TradePhaseQueue(u, k, After(u, k));
    BooksBalance(u, k + 1);
    ExactAmounts(u, After(u, k + 1));
    RoundedForTheRecord(u, k, s);
  }

  lemma ExactAmounts(u: Setup, s: Sim)
    requires u.Valid() && u.config.OnGrid() && Books(u, s)
    ensures Money(s.cash) == s.cash && Money(s.fees) == s.fees
  {
    hide Money, Balanced, Total, Fills, OnMoneyGrid;
    FeesOnGrid(u, s.journal);
    MoneyFixesGrid(s.cash);
    MoneyFixesGrid(s.fees);
  }

  lemma RoundedForTheRecord(u: Setup, k: nat, s: Sim)
    requires u.Valid() && k < |u.market.times| && s.Fits(u.n)
    ensures SnapshotAt(u, k, s).cash == Money(s.cash) && SnapshotAt(u, k, s).cumulativeFees == Money(s.fees)
  {
    hide Money, PositionRows, Value;
  }

  // ---------------------------------------------------------------- what a bar records

  /** A snapshot values the account at the bar's closes, each amount to half a micro, and lists
      exactly the positions held. */
  ghost predicate MarksAccount(u: Setup, k: nat, s: Sim, snapshot: Snapshot)
    requires u.Valid() && k < |u.market.times| && s.Fits(u.n)
  {
    var worth := Value(s.holdings, u.market.Closes(k), u.n);
    && snapshot.eventTime == u.market.times[k]
    && Near(snapshot.equity, s.cash + worth, 0.0000005)
    && Near(snapshot.cash, s.cash, 0.0000005) && Near(snapshot.cumulativeFees, s.fees, 0.0000005)
    && (if snapshot.equity == 0.0 then snapshot.exposure == 0.0
        else Marked(snapshot.exposure, snapshot.equity) == worth)
    && Near(snapshot.benchmarkValue, Marked(u.config.initialCash, u.market.benchmark[k]) / u.market.benchmark[0],
            0.0000005)
    && RowsMark(s.holdings, u.market.bars[k], snapshot.positions)
  }

  ghost predicate RowsMark(hs: seq<Holding>, bars: seq<Bar>, rows: map<nat, PositionRow>)
    requires |hs| == |bars|
  {
    && (forall i :: i in rows ==> i < |hs|)
    && forall i: nat :: i < |hs| ==>
         if 0.0 < hs[i].quantity then i in rows && MarksPosition(hs[i], bars[i].close, rows[i]) else i !in rows
  }

  ghost predicate MarksPosition(h: Holding, close: real, row: PositionRow) {
    && row.quantity == h.quantity && row.averageCost == h.averageCost && row.close == close
    && Near(row.value, Marked(h.quantity, close), 0.0000005)
  }

  lemma SnapshotMarks(u: Setup, k: nat, s: Sim)
    requires u.Valid() && k < |u.market.times| && s.Fits(u.n)
    ensures MarksAccount(u, k, s, SnapshotAt(u, k, s))
  {
    hide Money, Value, PositionRows, RowsMark, BenchmarkValue;
    var worth, snapshot := Value(s.holdings, u.market.Closes(k), u.n), SnapshotAt(u, k, s);
    MoneyNearest(s.cash + worth);
    MoneyNearest(s.cash);
    MoneyNearest(s.fees);
    BenchmarkNear(u.config.initialCash, u.market.benchmark[k], u.market.benchmark[0]);
    PositionsMark(s.holdings, u.market.bars[k], u.market.Closes(k));
    if snapshot.equity != 0.0 { Spread(snapshot.equity, worth); }
  }

  lemma BenchmarkNear(initialCash: real, benchmark: real, start: real)
    requires start != 0.0
    ensures Near(BenchmarkValue(initialCash, benchmark, start), Marked(initialCash, benchmark) / start, 0.0000005)
  {
    MoneyNearest(initialCash * benchmark / start);
  }

  lemma PositionsMark(hs: seq<Holding>, bars: seq<Bar>, closes: seq<real>)
    requires |hs| == |bars| == |closes| && forall i :: 0 <= i < |bars| ==> closes[i] == bars[i].close
    ensures RowsMark(hs, bars, PositionRows(hs, closes))
  {
    hide RowOf, MarksPosition;
    var rows := PositionRows(hs, closes);
    forall i: nat | i < |hs| && 0.0 < hs[i].quantity ensures i in rows && MarksPosition(hs[i], bars[i].close, rows[i]) {
      PositionMarks(hs[i], closes[i]);
    }
  }

  lemma PositionMarks(h: Holding, close: real)
    ensures MarksPosition(h, close, RowOf(h, close))
  {
    hide Gross;
    GrossNear(h.quantity, close);
  }

  /** Each bar of every run records one snapshot, which values the account the bar ends with, and one
      signal for each symbol whose decision has a weight. */
  lemma BarRecords(u: Setup, k: nat)
    requires u.Valid() && k < |u.market.times|
    ensures var s, s' := After(u, k), After(u, k + 1);
      && |s'.snapshots| == k + 1 && s'.snapshots[..k] == s.snapshots && MarksAccount(u, k, s', s'.snapshots[k])
      && s'.signals == s.signals + SignalsAt(u, k, u.n)
  {
    hide TradePhase, SnapshotAt, SignalsAt, Scheduled, MarksAccount;
    QueueIsUndue(u, k);
    var s := TradePhase(u, k, After(u, k));
    TradePhaseQueue(u, k, After(u, k));
    TradePhaseKeepsPeak(u, k, After(u, k));
    SnapshotMarks(u, k, s);
    SameMarks(u, k, s, After(u, k + 1), SnapshotAt(u, k, s));
  }

  lemma SameMarks(u: Setup, k: nat, s: Sim, s': Sim, snapshot: Snapshot)
    requires u.Valid() && k < |u.market.times| && s.Fits(u.n) && s'.Fits(u.n) && MarksAccount(u, k, s, snapshot)
    requires s'.cash == s.cash && s'.holdings == s.holdings && s'.fees == s.fees
    ensures MarksAccount(u, k, s', snapshot)
  {}
}
