/** Laws of whole runs: after every bar the books balance, in cash, in cost basis and in shares,
    and cash keeps its floor. */
module BacktestRun {
  import opened Rounding
  import opened BacktestModel
  import opened BacktestAccounts
  import opened BacktestRisk

  // ---------------------------------------------------------------- books

  /** The account before any trade. */
  function Opening(u: Setup): Progress {
    Progress(u.config.initialCash, seq(u.n, _ => Holding(0.0, 0.0, 0)), [], [])
  }

  /** The account of a run so far, with every fill it made. */
  function Ledger(s: Sim): Progress {
    Progress(s.cash, s.holdings, Fills(s.journal), s.rejections)
  }

  /** A rebalance was run at a bar of the market, at that bar's time and opens. */
  ghost predicate OfMarket(u: Setup, r: Rebalance)
    requires u.Valid()
  {
    && r.index < |u.market.times|
    && r.time == u.market.times[r.index]
    && r.opens == u.market.Opens(r.index)
    && forall f :: f in r.after.fills ==> Recorded(f, r.time, r.signalTime, u.config)
  }

  /** A fill names its times, pays the commission, moves a nonnegative gross value, and writes
      shares off only when it sells. */
  ghost predicate Recorded(f: Fill, time: int, signalTime: int, c: Config) {
    && f.trade.executionTime == time && f.trade.signalTime == signalTime
    && f.trade.fees == c.commission && 0.0 <= f.trade.grossValue
    && (f.trade.side.Buy? ==> f.residual == 0.0)
  }

  ghost predicate Books(u: Setup, s: Sim)
    requires u.Valid()
  {
    && s.Fits(u.n)
    && Balanced(Opening(u), Ledger(s))
    && s.fees == Total(Fee, Fills(s.journal))
    && (u.config.OnGrid() ==> CashCovered(0.0, Ledger(s)))
    && forall r :: r in s.journal ==> Prudent(r, u.config) && OfMarket(u, r)
  }

  lemma BalancedCompose(p0: Progress, p: Progress, p': Progress, q: Progress)
    requires Balanced(p0, p) && Balanced(Progress(p.cash, p.holdings, [], []), p')
    requires q.cash == p'.cash && q.holdings == p'.holdings && q.fills == p.fills + p'.fills
    ensures Balanced(p0, q)
  {
    var mid := Progress(p.cash, p.holdings, [], []);
    TotalConcat(WrittenBasis, p.fills, p'.fills);
    TotalConcat(Realized, p.fills, p'.fills);
    forall i: nat | i < |q.holdings| ensures SharesTally(p0, q, i) {
      assert SharesTally(p0, p, i) && SharesTally(mid, p', i);
      TotalConcat(Bought(i), p.fills, p'.fills);
      TotalConcat(Sold(i), p.fills, p'.fills);
      TotalConcat(WrittenOff(i), p.fills, p'.fills);
    }
  }

  ghost predicate AllRecorded(o: Order, p: Progress) {
    forall f :: f in p.fills ==> Recorded(f, o.time, o.signalTime, o.config)
  }

  lemma {:induction false} SellsRecorded(o: Order, k: nat, p: Progress)
    requires o.Valid() && k <= |o.opens| == |p.holdings| && Long(p.holdings) && AllRecorded(o, p)
    ensures AllRecorded(o, SellPass(o, k, p))
  {
    hide Execute;
    if k > 0 {
      SellsRecorded(o, k - 1, p);
      var e := SellStepKind(o, k - 1, SellPass(o, k - 1, p));
    }
  }

  lemma {:induction false} BuysRecorded(o: Order, k: nat, p: Progress)
    requires o.Valid() && k <= |o.opens| == |p.holdings| && Long(p.holdings) && AllRecorded(o, p)
    ensures AllRecorded(o, BuyPass(o, k, p))
  {
    hide Execute, BuyQuantity;
    if k > 0 {
      BuysRecorded(o, k - 1, p);
      var e := BuyStepKind(o, k - 1, BuyPass(o, k - 1, p));
    }
  }

  lemma RebalanceAccounted(index: nat, time: int, signalTime: int, opens: seq<real>, targets: seq<real>,
                           reasons: map<nat, string>, c: Config, cash: real, holdings: seq<Holding>, debt: real)
    requires c.Valid() && |targets| == |opens| == |holdings| && Long(holdings) && 0.0 <= debt
    requires forall i :: 0 <= i < |opens| ==> SMALLEST_OPEN <= opens[i]
    ensures var r := RunRebalance(index, time, signalTime, opens, targets, reasons, c, cash, holdings);
      && Balanced(Progress(cash, holdings, [], []), r.after)
      && (OnMoneyGrid(c.commission) && OnMoneyGrid(cash) && 0.0 <= cash + debt ==> CashCovered(debt, r.after))
      && forall f :: f in r.after.fills ==> Recorded(f, time, signalTime, c)
  {
    hide SharesFor, Weights, SellPass, BuyPass;
    var r := RunRebalance(index, time, signalTime, opens, targets, reasons, c, cash, holdings);
    var o := OrderFor(index, time, signalTime, opens, r.equity, r.weights, reasons, c);
    var p0 := Progress(cash, holdings, [], []);
    assert forall i: nat :: i < |holdings| ==> SharesTally(p0, p0, i);
    SellPassAccounted(o, |opens|, debt, p0);
    BuyPassAccounted(o, |opens|, debt, p0, SellPass(o, |opens|, p0));
    SellsRecorded(o, |opens|, p0);
    BuysRecorded(o, |opens|, SellPass(o, |opens|, p0));
  }

  lemma FillsSnoc(journal: seq<Rebalance>, r: Rebalance)
    ensures Fills(journal + [r]) == Fills(journal) + r.after.fills
  {
    assert (journal + [r])[..|journal|] == journal;
  }

  /** A covered rebalance on top of covered books. */
  lemma CoveredCompose(p: Progress, p': Progress, q: Progress)
    requires CashCovered(0.0, p) && CashCovered(Total(Shortfall, p.fills), p')
    requires q.cash == p'.cash && q.fills == p.fills + p'.fills
    ensures CashCovered(0.0, q)
  {
    hide OnMoneyGrid, Total;
    TotalConcat(Shortfall, p.fills, p'.fills);
  }

  /** Booking one rebalance whose own account is in order. */
  lemma BooksSnoc(u: Setup, s: Sim, r: Rebalance, s': Sim)
    requires u.Valid() && Books(u, s) && s'.Fits(u.n)
    requires s'.cash == r.after.cash && s'.holdings == r.after.holdings && s'.journal == s.journal + [r]
    requires s'.fees == s.fees + Total(Fee, r.after.fills)
    requires Balanced(Progress(s.cash, s.holdings, [], []), r.after)
    requires u.config.OnGrid() ==> CashCovered(Total(Shortfall, Fills(s.journal)), r.after)
    requires Prudent(r, u.config) && OfMarket(u, r)
    ensures Books(u, s')
  {
    hide Prudent, Balanced, OfMarket, CashCovered, Total, Fills, Setup.Valid;
    FillsSnoc(s.journal, r);
    TotalConcat(Fee, Fills(s.journal), r.after.fills);
    BalancedCompose(Opening(u), Ledger(s), r.after, Ledger(s'));
    if u.config.OnGrid() { CoveredCompose(Ledger(s), r.after, Ledger(s')); }
  }

  lemma CoveredDebt(s: Sim)
    requires CashCovered(0.0, Ledger(s))
    ensures OnMoneyGrid(s.cash) && 0.0 <= s.cash + Total(Shortfall, Fills(s.journal))
  {}

  lemma RebalanceKeepsBooks(u: Setup, k: nat, s: Sim, signalTime: int, reasons: map<nat, string>)
    requires u.Valid() && k < |u.market.times| && Books(u, s)
    ensures Books(u, WithRebalance(u, k, s, signalTime, reasons))
  {
    hide RunRebalance, Prudent, Balanced, Recorded, Total, CashCovered, Fills, OnMoneyGrid;
    var c, opens := u.config, u.market.Opens(k);
    var r := RunRebalance(k, u.market.times[k], signalTime, opens, s.targets, reasons, c, s.cash, s.holdings);
    var debt := Total(Shortfall, Fills(s.journal));
    ShortfallNonnegative(Fills(s.journal));
    if c.OnGrid() { CoveredDebt(s); }
    RebalancePrudent(k, u.market.times[k], signalTime, opens, s.targets, reasons, c, s.cash, s.holdings);
    RebalanceAccounted(k, u.market.times[k], signalTime, opens, s.targets, reasons, c, s.cash, s.holdings, debt);
    RebalanceRecord(k, u.market.times[k], signalTime, opens, s.targets, reasons, c, s.cash, s.holdings);
    BooksSnoc(u, s, r, WithRebalance(u, k, s, signalTime, reasons));
  }

  lemma RebalanceRecord(index: nat, time: int, signalTime: int, opens: seq<real>, targets: seq<real>,
                        reasons: map<nat, string>, c: Config, cash: real, holdings: seq<Holding>)
    requires c.Valid() && |targets| == |opens| == |holdings| && Long(holdings)
    requires forall i :: 0 <= i < |opens| ==> SMALLEST_OPEN <= opens[i]
    ensures var r := RunRebalance(index, time, signalTime, opens, targets, reasons, c, cash, holdings);
      r.index == index && r.time == time && r.signalTime == signalTime && r.opens == opens
  {}

  lemma {:induction false} FireAllKeepsBooks(u: Setup, k: nat, s: Sim, due: seq<Pending>)
    requires u.Valid() && k < |u.market.times| && Books(u, s)
    ensures Books(u, FireAll(u, k, s, due))
  {
    hide WithRebalance;
    if due != [] {
      var item := due[|due| - 1];
      FireAllKeepsBooks(u, k, s, due[..|due| - 1]);
      var before := FireAll(u, k, s, due[..|due| - 1]);
      var retargeted := before.(targets := Retarget(before.targets, item.updates));
      assert Ledger(retargeted) == Ledger(before);
      RebalanceKeepsBooks(u, k, retargeted, item.signalTime, item.reasons);
    }
  }

  lemma TradePhaseKeepsBooks(u: Setup, k: nat, s: Sim)
    requires u.Valid() && k < |u.market.times| && Books(u, s)
    ensures Books(u, TradePhase(u, k, s))
  {
    hide WithRebalance, FireAll;
    var due := Filter(At(k), s.pending);
    FireAllKeepsBooks(u, k, s, due);
    if due == [] && s.snapshots != [] {
      RebalanceKeepsBooks(u, k, s, s.snapshots[|s.snapshots| - 1].eventTime, RiskReasons(u.n));
    }
    var traded := TradePhase(u, k, s).(pending := s.pending);
    assert Books(u, traded);
    SameAccount(u, traded, TradePhase(u, k, s));
  }

  /** The books only look at the account, not at signals, snapshots or pending targets. */
  lemma SameAccount(u: Setup, s: Sim, s': Sim)
    requires u.Valid() && Books(u, s) && |s'.targets| == u.n
    requires s'.cash == s.cash && s'.holdings == s.holdings && s'.fees == s.fees
    requires s'.journal == s.journal && s'.rejections == s.rejections
    ensures Books(u, s')
  {
    assert Ledger(s') == Ledger(s);
  }

  /** After every bar of every run the books balance. */
  lemma {:induction false} BooksBalance(u: Setup, k: nat)
    requires u.Valid() && k <= |u.market.times|
    ensures Books(u, After(u, k))
  {
    hide TradePhase, SnapshotAt, SignalsAt, Scheduled;
    if k == 0 {
      assert forall i: nat :: i < u.n ==> SharesTally(Opening(u), Opening(u), i);
      assert Ledger(Start(u)) == Opening(u);
    } else {
      BooksBalance(u, k - 1);
      var s := TradePhase(u, k - 1, After(u, k - 1));
      TradePhaseKeepsBooks(u, k - 1, After(u, k - 1));
      SameAccount(u, s, ClosePhase(u, k - 1, s));
    }
  }

  // ---------------------------------------------------------------- what the books say

  /** Cash never falls below zero by more than the fees that sales failed to cover; without a
      commission it never falls below zero at all. */
  lemma CashFloor(u: Setup, k: nat)
    requires u.Valid() && u.config.OnGrid() && k <= |u.market.times|
    ensures var s := After(u, k);
      && -Total(Shortfall, Fills(s.journal)) <= s.cash
      && (u.config.commission == 0.0 ==> 0.0 <= s.cash)
  {
    hide After;
    BooksBalance(u, k);
    if u.config.commission == 0.0 { NoShortfall(u, After(u, k).journal); }
  }

  lemma {:induction false} NoShortfall(u: Setup, journal: seq<Rebalance>)
    requires u.Valid() && u.config.commission == 0.0
    requires forall r :: r in journal ==> OfMarket(u, r)
    ensures Total(Shortfall, Fills(journal)) == 0.0
  {
    if journal != [] {
      var front, last := journal[..|journal| - 1], journal[|journal| - 1];
      NoShortfall(u, front);
      TotalConcat(Shortfall, Fills(front), last.after.fills);
      assert OfMarket(u, last);
      FillsCovered(last.after.fills);
    }
  }

  lemma {:induction false} FillsCovered(fills: seq<Fill>)
    requires forall f :: f in fills ==> f.trade.fees == 0.0 && 0.0 <= f.trade.grossValue
    ensures Total(Shortfall, fills) == 0.0
  {
    if fills != [] { FillsCovered(fills[..|fills| - 1]); }
  }

  /** Cash plus cost basis plus written-off basis is the initial cash plus the exact realized
      profit, and the fee counter is the sum of the trades' fees. */
  lemma ProfitConserved(u: Setup, k: nat)
    requires u.Valid() && k <= |u.market.times|
    ensures var s := After(u, k);
      && s.cash + Basis(s.holdings, u.n) + Total(WrittenBasis, Fills(s.journal))
           == u.config.initialCash + Total(Realized, Fills(s.journal))
      && s.fees == Total(Fee, Fills(s.journal))
  {
    hide After;
    BooksBalance(u, k);
    NoBasis(Opening(u).holdings, u.n);
  }

  lemma NoBasis(hs: seq<Holding>, k: nat)
    requires k <= |hs| && forall i :: 0 <= i < |hs| ==> hs[i].quantity == 0.0
    ensures Basis(hs, k) == 0.0
  {}

  /** One for every sale of a symbol. */
  function Sale(symbol: nat): Fill -> real {
    (f: Fill) => if f.trade.symbol == symbol && f.trade.side.Sell? then 1.0 else 0.0
  }

  /** Shares held are shares bought less shares sold less what was written off; while equity
      at every rebalance was nonnegative that is at most one tick for each sale. */
  lemma SharesConserved(u: Setup, k: nat, symbol: nat)
    requires u.Valid() && k <= |u.market.times| && symbol < u.n
    ensures var s := After(u, k);
      var fills := Fills(s.journal);
      && s.holdings[symbol].quantity
           == Total(Bought(symbol), fills) - Total(Sold(symbol), fills) - Total(WrittenOff(symbol), fills)
      && ((forall r :: r in s.journal ==> 0.0 <= r.equity) ==>
            0.0 <= Total(WrittenOff(symbol), fills) <= SHARE_TICK * Total(Sale(symbol), fills))
  {
    hide After;
    BooksBalance(u, k);
    var s := After(u, k);
    assert SharesTally(Opening(u), Ledger(s), symbol);
    if forall r :: r in s.journal ==> 0.0 <= r.equity { TicksWrittenOff(u, s.journal, symbol); }
  }

  lemma {:induction false} TicksWrittenOff(u: Setup, journal: seq<Rebalance>, symbol: nat)
    requires u.Valid()
    requires forall r :: r in journal ==> Prudent(r, u.config) && OfMarket(u, r) && 0.0 <= r.equity
    ensures var fills := Fills(journal);
      0.0 <= Total(WrittenOff(symbol), fills) <= SHARE_TICK * Total(Sale(symbol), fills)
  {
    if journal != [] {
      var front, last := journal[..|journal| - 1], journal[|journal| - 1];
      TicksWrittenOff(u, front, symbol);
      TotalConcat(WrittenOff(symbol), Fills(front), last.after.fills);
      TotalConcat(Sale(symbol), Fills(front), last.after.fills);
      FillTicks(last.after.fills, symbol);
    }
  }

  lemma {:induction false} FillTicks(fills: seq<Fill>, symbol: nat)
    requires forall f :: f in fills ==> 0.0 <= f.residual <= SHARE_TICK && (f.trade.side.Buy? ==> f.residual == 0.0)
    ensures 0.0 <= Total(WrittenOff(symbol), fills) <= SHARE_TICK * Total(Sale(symbol), fills)
  {
    if fills != [] { FillTicks(fills[..|fills| - 1], symbol); }
  }

  // ---------------------------------------------------------------- trading without commission

  ghost predicate NeverInDebt(s: Sim) { forall r :: r in s.journal ==> 0.0 <= r.equity }

  lemma {:induction false} ValueNonnegative(hs: seq<Holding>, prices: seq<real>, k: nat)
    requires k <= |hs| == |prices| && Long(hs) && forall i :: 0 <= i < |prices| ==> 0.0 <= prices[i]
    ensures 0.0 <= Value(hs, prices, k)
  {
    if k > 0 {
      ValueNonnegative(hs, prices, k - 1);
      assert 0.0 <= hs[k - 1].quantity * prices[k - 1];
    }
  }

  lemma FreeCash(u: Setup, s: Sim)
    requires u.Valid() && u.config.OnGrid() && u.config.commission == 0.0 && Books(u, s)
    ensures 0.0 <= s.cash
  {
    hide Prudent, Balanced, Total, Fills, OnMoneyGrid;
    NoShortfall(u, s.journal);
  }

  lemma RebalanceStaysSolvent(u: Setup, k: nat, s: Sim, signalTime: int, reasons: map<nat, string>)
    requires u.Valid() && k < |u.market.times| && Books(u, s) && NeverInDebt(s)
    requires u.config.OnGrid() && u.config.commission == 0.0
    ensures NeverInDebt(WithRebalance(u, k, s, signalTime, reasons))
  {
    hide Books, OnMoneyGrid, Weights, OrderFor, SellPass, BuyPass, Value;
    FreeCash(u, s);
    BooksFit(u, s);
    ValueNonnegative(s.holdings, u.market.Opens(k), u.n);
  }

  lemma BooksFit(u: Setup, s: Sim)
    requires u.Valid() && Books(u, s)
    ensures s.Fits(u.n)
  {}

  lemma {:induction false} FireAllStaysSolvent(u: Setup, k: nat, s: Sim, due: seq<Pending>)
    requires u.Valid() && k < |u.market.times| && Books(u, s) && NeverInDebt(s)
    requires u.config.OnGrid() && u.config.commission == 0.0
    ensures Books(u, FireAll(u, k, s, due)) && NeverInDebt(FireAll(u, k, s, due))
  {
    hide WithRebalance, Prudent, Balanced, OfMarket, CashCovered, Total, Fills, OnMoneyGrid;
    FireAllKeepsBooks(u, k, s, due);
    if due != [] {
      var item := due[|due| - 1];
      FireAllStaysSolvent(u, k, s, due[..|due| - 1]);
      var before := FireAll(u, k, s, due[..|due| - 1]);
      var retargeted := before.(targets := Retarget(before.targets, item.updates));
      SameAccount(u, before, retargeted);
      RebalanceStaysSolvent(u, k, retargeted, item.signalTime, item.reasons);
    }
  }

  lemma TradePhaseStaysSolvent(u: Setup, k: nat, s: Sim)
    requires u.Valid() && k < |u.market.times| && Books(u, s) && NeverInDebt(s)
    requires u.config.OnGrid() && u.config.commission == 0.0
    ensures NeverInDebt(TradePhase(u, k, s))
  {
    hide WithRebalance, FireAll, Books, OnMoneyGrid, Filter, RiskLimitBreached;
    BooksFit(u, s);
    FireAllStaysSolvent(u, k, s, Filter(At(k), s.pending));
    if s.snapshots != [] {
      RebalanceStaysSolvent(u, k, s, s.snapshots[|s.snapshots| - 1].eventTime, RiskReasons(u.n));
    }
  }

  lemma {:induction false} SolventOverRuns(u: Setup, k: nat)
    requires u.Valid() && u.config.OnGrid() && u.config.commission == 0.0 && k <= |u.market.times|
    ensures NeverInDebt(After(u, k))
  {
    hide TradePhase, SnapshotAt, SignalsAt, Scheduled, Books, OnMoneyGrid;
    if k > 0 {
      SolventOverRuns(u, k - 1);
      BooksBalance(u, k - 1);
      TradePhaseStaysSolvent(u, k - 1, After(u, k - 1));
    }
  }

  /** Without a commission, and from whole-micro initial cash, nothing about equity need be assumed:
      every rebalance of every run has nonnegative equity at the open, ends within the caps, and
      sells only shares it holds. */
  lemma FreeTradingIsPrudent(u: Setup, k: nat)
    requires u.Valid() && u.config.OnGrid() && u.config.commission == 0.0 && k <= |u.market.times|
    ensures forall r :: r in After(u, k).journal ==>
      0.0 <= r.equity && Prudent(r, u.config) && Capped(r, u.config) && !Oversold(r.after.fills)
  {
    hide After, Capped, OnMoneyGrid, CashCovered, Balanced, Total, Fills;
    SolventOverRuns(u, k);
    BooksBalance(u, k);
  }

  // ---------------------------------------------------------------- less cash than one commission

  /** Nothing has been bought or sold. */
  ghost predicate Untouched(u: Setup, s: Sim) {
    && s.Fits(u.n) && s.cash == u.config.initialCash
    && (forall i :: 0 <= i < u.n ==> s.holdings[i].quantity == 0.0)
    && Fills(s.journal) == []
  }

  lemma {:induction false} NothingHeld(hs: seq<Holding>, prices: seq<real>, k: nat)
    requires k <= |hs| == |prices| && forall i :: 0 <= i < |hs| ==> hs[i].quantity == 0.0
    ensures Value(hs, prices, k) == 0.0
  {
    if k > 0 { NothingHeld(hs, prices, k - 1); }
  }

  lemma NothingAffordable(c: Config, quantity: real, price: real)
    requires 0.0 < quantity && 0.0 < price && c.initialCash <= c.commission
    ensures Required(quantity, price, c) > c.initialCash && Affordable(c.initialCash, price, c) == 0.0
  {
    assert 0.0 < quantity * price;
    assert Max(c.initialCash - c.commission, 0.0) / price == 0.0;
  }

  lemma {:induction false} NoSells(o: Order, k: nat, p: Progress)
    requires o.Valid() && k <= |o.opens| == |p.holdings| && Long(p.holdings)
    requires forall i :: 0 <= i < |o.opens| ==> 0.0 <= o.desired[i] && p.holdings[i].quantity == 0.0
    ensures SellPass(o, k, p) == p
  {
    if k > 0 { NoSells(o, k - 1, p); }
  }

  lemma {:induction false} NoBuys(o: Order, k: nat, p: Progress)
    requires o.Valid() && k <= |o.opens| == |p.holdings| && Long(p.holdings)
    requires p.cash == o.config.initialCash <= o.config.commission
    requires forall i :: 0 <= i < |o.opens| ==> p.holdings[i].quantity == 0.0
    ensures BuyPass(o, k, p) == p.(rejections := BuyPass(o, k, p).rejections)
  {
    hide ExecutionPrice, Required, Affordable, Execute;
    if k > 0 {
      NoBuys(o, k - 1, p);
      var price := ExecutionPrice(o.opens[k - 1], Buy, o.config);
      ExecutionPricePositive(o.opens[k - 1], Buy, o.config);
      if 0.0 < o.desired[k - 1] { NothingAffordable(o.config, o.desired[k - 1], price); }
    }
  }

  lemma RebalanceTouchesNothing(u: Setup, k: nat, s: Sim, signalTime: int, reasons: map<nat, string>)
    requires u.Valid() && u.config.initialCash <= u.config.commission && k < |u.market.times| && Untouched(u, s)
    ensures Untouched(u, WithRebalance(u, k, s, signalTime, reasons))
  {
    hide SharesFor, Part, Weights, SellPass, BuyPass, Fills;
    var opens := u.market.Opens(k);
    var r := RunRebalance(k, u.market.times[k], signalTime, opens, s.targets, reasons, u.config, s.cash, s.holdings);
    var o := OrderFor(k, u.market.times[k], signalTime, opens, r.equity, r.weights, reasons, u.config);
    var p := Progress(s.cash, s.holdings, [], []);
    NothingHeld(s.holdings, opens, u.n);
    WeightsWithinLimits(s.targets, u.config);
    forall i | 0 <= i < u.n ensures 0.0 <= o.desired[i] { SharesForBounds(r.equity, r.weights[i], opens[i]); }
    NoSells(o, u.n, p);
    NoBuys(o, u.n, p);
    FillsSnoc(s.journal, r);
  }

  lemma {:induction false} FireAllTouchesNothing(u: Setup, k: nat, s: Sim, due: seq<Pending>)
    requires u.Valid() && u.config.initialCash <= u.config.commission && k < |u.market.times| && Untouched(u, s)
    ensures Untouched(u, FireAll(u, k, s, due))
  {
    hide WithRebalance, Fills;
    if due != [] {
      var item := due[|due| - 1];
      FireAllTouchesNothing(u, k, s, due[..|due| - 1]);
      var before := FireAll(u, k, s, due[..|due| - 1]);
      RebalanceTouchesNothing(u, k, before.(targets := Retarget(before.targets, item.updates)),
                              item.signalTime, item.reasons);
    }
  }

  lemma TradePhaseTouchesNothing(u: Setup, k: nat, s: Sim)
    requires u.Valid() && u.config.initialCash <= u.config.commission && k < |u.market.times| && Untouched(u, s)
    ensures Untouched(u, TradePhase(u, k, s))
  {
    hide WithRebalance, FireAll, Filter, RiskLimitBreached, Fills;
    FireAllTouchesNothing(u, k, s, Filter(At(k), s.pending));
    if s.snapshots != [] {
      RebalanceTouchesNothing(u, k, s, s.snapshots[|s.snapshots| - 1].eventTime, RiskReasons(u.n));
    }
  }

  /** With no more initial cash than one commission, no run ever trades. */
  lemma {:induction false} PennilessNeverTrades(u: Setup, k: nat)
    requires u.Valid() && u.config.initialCash <= u.config.commission && k <= |u.market.times|
    ensures Untouched(u, After(u, k))
  {
    hide TradePhase, SnapshotAt, SignalsAt, Scheduled;
    if k > 0 {
      PennilessNeverTrades(u, k - 1);
      TradePhaseTouchesNothing(u, k - 1, After(u, k - 1));
    }
  }
}
