/** The engine's own loops and in-place updates, proved to compute what BacktestModel says. */
module BacktestEngine {
  import opened Options
  import opened Rounding
  import opened BacktestModel
  import opened BacktestRun

  class Position {
    var quantity: real
    var averageCost: real
    var openedIndex: nat

    constructor ()
      ensures Value() == Holding(0.0, 0.0, 0)
    {
      quantity, averageCost, openedIndex := 0.0, 0.0, 0;
    }

    function Value(): Holding
      reads this
    {
      Holding(quantity, averageCost, openedIndex)
    }
  }

  ghost predicate Distinct(ps: seq<Position>) {
    forall i, j :: 0 <= i < j < |ps| ==> ps[i] != ps[j]
  }

  function Holdings(ps: seq<Position>): (hs: seq<Holding>)
    reads ps
    ensures |hs| == |ps| && forall i :: 0 <= i < |ps| ==> hs[i] == ps[i].Value()
  {
    seq(|ps|, i requires 0 <= i < |ps| reads ps => ps[i].Value())
  }

  /** Executes one order against a position, updating it in place. */
  method ExecuteOrder(o: Order, symbol: nat, position: Position, side: Side, quantity: real, cash: real)
    returns (fill: Fill, cash': real)
    requires symbol < |o.opens|
    requires side.Buy? ==> position.quantity + quantity != 0.0
    modifies position
    ensures Executed(fill, cash', position.Value())
         == Execute(o, symbol, side, quantity, cash, old(position.Value()))
  {
    hide Gross, ExecutionPrice, Money;
    ghost var h := position.Value();
    var price := ExecutionPrice(o.opens[symbol], side, o.config);
    var gross := Gross(quantity, price);
    var fee := o.config.commission;
    var realized, residual, residualBasis := 0.0, 0.0, 0.0;
    var holdingDays := 0;
    if side.Buy? {
      var previousCost := position.quantity * position.averageCost;
      cash' := cash - (gross + fee);
      if position.quantity == 0.0 {
        position.openedIndex := o.index;
      }
      position.quantity := position.quantity + quantity;
      position.averageCost := (previousCost + gross + fee) / position.quantity;
    } else {
      cash' := cash + (gross - fee);
      realized := gross - fee - quantity * position.averageCost;
      holdingDays := if o.index >= position.openedIndex then o.index - position.openedIndex else 0;
      position.quantity := position.quantity - quantity;
      if position.quantity <= SHARE_TICK {
        residual, residualBasis := position.quantity, position.quantity * position.averageCost;
        position.quantity := 0.0;
        position.averageCost := 0.0;
      }
    }
    assert Settle(o, side, quantity, gross, cash, h)
        == Settlement(cash', position.Value(), realized, residual, residualBasis, holdingDays);
    var trade := Trade(symbol, side, o.signalTime, o.time, quantity, price, gross, fee, Money(cash'),
                       o.Reason(symbol), Money(realized), holdingDays);
    fill := Fill(trade, realized, residual, residualBasis);
  }

  /** The selling half of a rebalance. */
  method SellDown(o: Order, positions: seq<Position>, cash: real)
    returns (fills: seq<Fill>, cash': real, fees: real)
    requires o.Valid() && |o.opens| == |positions| && Distinct(positions) && Long(Holdings(positions))
    modifies positions
    ensures SellPass(o, |positions|, Progress(cash, old(Holdings(positions)), [], []))
         == Progress(cash', Holdings(positions), fills, [])
    ensures fees == Total(Fee, fills)
  {
    hide Execute;
    ghost var start := Progress(cash, Holdings(positions), [], []);
    cash', fills, fees := cash, [], 0.0;
    for k := 0 to |positions|
      invariant SellPass(o, k, start) == Progress(cash', Holdings(positions), fills, [])
      invariant fees == Total(Fee, fills)
    {
      ghost var p := Progress(cash', Holdings(positions), fills, []);
      var current := positions[k];
      var desired := o.desired[k];
      if desired < current.quantity {
        var fill: Fill;
        fill, cash' := ExecuteOrder(o, k, current, Sell, current.quantity - desired, cash');
        Booked(p, k, Executed(fill, cash', current.Value()), Holdings(positions));
        fees := fees + fill.trade.fees;
        fills := fills + [fill];
      }
      assert SellStep(o, k, p) == Progress(cash', Holdings(positions), fills, []);
    }
  }

  /** The buying half of a rebalance, limited by the cash left. */
  method BuyUp(o: Order, positions: seq<Position>, cash: real, before: seq<Fill>)
    returns (fills: seq<Fill>, cash': real, fees: real, rejections: seq<nat>)
    requires o.Valid() && |o.opens| == |positions| && Distinct(positions) && Long(Holdings(positions))
    modifies positions
    ensures BuyPass(o, |positions|, Progress(cash, old(Holdings(positions)), before, []))
         == Progress(cash', Holdings(positions), fills, rejections)
    ensures fees + Total(Fee, before) == Total(Fee, fills)
  {
    hide Execute, BuyQuantity, ExecutionPrice;
    ghost var start := Progress(cash, Holdings(positions), before, []);
    cash', fills, fees, rejections := cash, before, 0.0, [];
    for k := 0 to |positions|
      invariant BuyPass(o, k, start) == Progress(cash', Holdings(positions), fills, rejections)
      invariant fees + Total(Fee, before) == Total(Fee, fills)
    {
      ghost var p := Progress(cash', Holdings(positions), fills, rejections);
      var current := positions[k];
      var desired := o.desired[k];
      if desired > current.quantity {
        var quantity := desired - current.quantity;
        var estimatedPrice := ExecutionPrice(o.opens[k], Buy, o.config);
        ExecutionPricePositive(o.opens[k], Buy, o.config);
        if Required(quantity, estimatedPrice, o.config) > cash' {
          quantity := Affordable(cash', estimatedPrice, o.config);
        }
        BuyQuantityIs(o, k, p, quantity);
        if quantity <= 0.0 {
          rejections := rejections + [k];
        } else {
          var fill: Fill;
          fill, cash' := ExecuteOrder(o, k, current, Buy, quantity, cash');
          Booked(p, k, Executed(fill, cash', current.Value()), Holdings(positions));
          fees := fees + fill.trade.fees;
          fills := fills + [fill];
        }
      }
      assert BuyStep(o, k, p) == Progress(cash', Holdings(positions), fills, rejections);
    }
  }

  /** Sells, then buys, towards the target weights, all against one cash balance. */
  method RebalancePortfolio(index: nat, time: int, signalTime: int, opens: seq<real>, targets: seq<real>,
                            reasons: map<nat, string>, c: Config, cash: real, positions: seq<Position>)
    returns (fills: seq<Fill>, cash': real, fees: real, rejections: seq<nat>)
    requires c.Valid() && |targets| == |opens| == |positions| && Distinct(positions)
    requires Long(Holdings(positions))
    requires forall i :: 0 <= i < |opens| ==> SMALLEST_OPEN <= opens[i]
    modifies positions
    ensures RunRebalance(index, time, signalTime, opens, targets, reasons, c, cash, old(Holdings(positions))).after
         == Progress(cash', Holdings(positions), fills, rejections)
    ensures fees == Total(Fee, fills)
  {
    hide SellPass, BuyPass, Desired, Weights;
    var equity := cash + Value(Holdings(positions), opens, |positions|);
    var o := OrderFor(index, time, signalTime, opens, equity, Weights(targets, c), reasons, c);
    var sales, sellFees, buyFees;
    sales, cash', sellFees := SellDown(o, positions, cash);
    fills, cash', buyFees, rejections := BuyUp(o, positions, cash', sales);
    fees := sellFees + buyFees;
  }

  /** Booking one execution changes one holding and appends one fill and its fee. */
  lemma Booked(p: Progress, symbol: nat, e: Executed, holdings: seq<Holding>)
    requires symbol < |p.holdings| == |holdings| && holdings[symbol] == e.holding
    requires forall i :: 0 <= i < |holdings| && i != symbol ==> holdings[i] == p.holdings[i]
    ensures Book(p, symbol, e) == Progress(e.cash, holdings, p.fills + [e.fill], p.rejections)
    ensures Total(Fee, p.fills + [e.fill]) == Total(Fee, p.fills) + e.fill.trade.fees
  {
    assert (p.fills + [e.fill])[..|p.fills|] == p.fills;
  }

  lemma BuyQuantityIs(o: Order, symbol: nat, p: Progress, quantity: real)
    requires o.Valid() && symbol < |o.opens| == |p.holdings|
    requires ExecutionPrice(o.opens[symbol], Buy, o.config) > 0.0
    requires var wanted := o.desired[symbol] - p.holdings[symbol].quantity;
      var price := ExecutionPrice(o.opens[symbol], Buy, o.config);
      quantity == if Required(wanted, price, o.config) > p.cash then Affordable(p.cash, price, o.config) else wanted
    ensures quantity == BuyQuantity(o, symbol, p)
  {
    hide ExecutionPrice;
  }

  /** The first bar, `delay` bars or more after the signal bar, that is later than the signal. */
  method EligibleExecutionIndex(times: seq<int>, signalIndex: nat, signalTime: int, delay: nat)
    returns (index: Option<nat>)
    ensures index == EligibleIndex(times, signalIndex + delay, signalTime)
  {
    var candidate := signalIndex + delay;
    while candidate < |times| && times[candidate] <= signalTime
      invariant EligibleIndex(times, candidate, signalTime) == EligibleIndex(times, signalIndex + delay, signalTime)
    {
      candidate := candidate + 1;
    }
    index := if candidate < |times| then Some(candidate) else None;
  }

  datatype Report = Report(
    fills: seq<Fill>, snapshots: seq<Snapshot>, signals: seq<Signal>, rejections: seq<nat>)

  datatype Outcome = Finished(report: Report) | NotEnoughBars

  /** What the strategy says at bar `k`, collected symbol by symbol. */
  method GenerateSignals(u: Setup, k: nat, closeHistory: seq<seq<real>>)
    returns (signals: seq<Signal>, updates: map<nat, real>, reasons: map<nat, string>, latest: int)
    requires u.Valid() && k < |u.market.times| && |closeHistory| == u.n
    requires forall i :: 0 <= i < u.n ==> closeHistory[i] == u.market.History(i, k + 1)
    ensures signals == SignalsAt(u, k, u.n)
    ensures updates == Updates(signals) && reasons == Reasons(signals)
    ensures signals != [] ==> latest == LatestSignal(signals)
  {
    hide Updates, Reasons, LatestSignal, SignalTime;
    signals, updates, reasons, latest := [], map[], map[], 0;
    NoUpdates();
    for i := 0 to u.n
      invariant signals == SignalsAt(u, k, i)
      invariant updates == Updates(signals) && reasons == Reasons(signals)
      invariant signals != [] ==> latest == LatestSignal(signals)
    {
      var decision := u.strategy(closeHistory[i], k);
      if decision.targetWeight.Some? {
        var signal := Signal(i, SignalTime(u, k, i), decision);
        UpdatesSnoc(signals, signal);
        updates := updates[i := decision.targetWeight.value];
        reasons := reasons[i := decision.explanation];
        latest := if signals == [] || signal.generatedAt > latest then signal.generatedAt else latest;
        signals := signals + [signal];
      }
    }
  }

  lemma NoUpdates()
    ensures Updates([]) == map[] && Reasons([]) == map[]
  {}

  lemma UpdatesSnoc(signals: seq<Signal>, signal: Signal)
    requires signal.decision.targetWeight.Some?
    ensures Updates(signals + [signal]) == Updates(signals)[signal.symbol := signal.decision.targetWeight.value]
    ensures Reasons(signals + [signal]) == Reasons(signals)[signal.symbol := signal.decision.explanation]
    ensures LatestSignal(signals + [signal]) ==
      if signals == [] || signal.generatedAt > LatestSignal(signals) then signal.generatedAt
      else LatestSignal(signals)
  {
    assert (signals + [signal])[..|signals|] == signals;
  }

  /** Everything recorded for a finished run. */
  ghost function ReportOf(s: Sim): Report {
    Report(Fills(s.journal), s.snapshots, s.signals, s.rejections)
  }

  /** The evolving state of one run. */
  class Simulation {
    const u: Setup
    const positions: seq<Position>
    var cash: real
    var targets: seq<real>
    var pending: seq<Pending>
    var cumulativeFees: real
    var peakEquity: real
    var closeHistory: seq<seq<real>>
    var fills: seq<Fill>
    var snapshots: seq<Snapshot>
    var signals: seq<Signal>
    var rejections: seq<nat>
    ghost var journal: seq<Rebalance>

    ghost predicate Valid()
      reads this, positions
    {
      && u.Valid()
      && Distinct(positions)
      && State().Fits(u.n)
      && fills == Fills(journal)
    }

    ghost function State(): Sim
      reads this, positions
    {
      Sim(cash, Holdings(positions), targets, pending, cumulativeFees, peakEquity, snapshots, signals,
          rejections, journal)
    }

    constructor (u: Setup)
      requires u.Valid()
      ensures Valid() && this.u == u && fresh(positions)
      ensures State() == Start(u) && closeHistory == Histories(u, 0)
    {
      var ps := NewPositions(u.n);
      this.u, positions := u, ps;
      cash, cumulativeFees, peakEquity := u.config.initialCash, 0.0, u.config.initialCash;
      targets, closeHistory := seq(u.n, _ => 0.0), seq(u.n, _ => []);
      pending, fills, snapshots, signals, rejections, journal := [], [], [], [], [], [];
      new;
      assert Holdings(positions) == seq(u.n, _ => Holding(0.0, 0.0, 0));
      assert forall i :: 0 <= i < u.n ==> u.market.History(i, 0) == [];
    }

    method Rebalance(k: nat, signalTime: int, reasons: map<nat, string>)
      requires Valid() && k < |u.market.times|
      modifies this, positions
      ensures Valid() && closeHistory == old(closeHistory) && pending == old(pending)
      ensures State() == WithRebalance(u, k, old(State()), signalTime, reasons)
    {
      hide RunRebalance, Distinct, Total, Fills;
      ghost var r := RunRebalance(k, u.market.times[k], signalTime, u.market.Opens(k), targets, reasons,
                                  u.config, cash, Holdings(positions));
      var newFills, cash', fees, rejected := RebalancePortfolio(
        k, u.market.times[k], signalTime, u.market.Opens(k), targets, reasons, u.config, cash, positions);
      FillsSnoc(journal, r);
      cash := cash';
      fills := fills + newFills;
      cumulativeFees := cumulativeFees + fees;
      rejections := rejections + rejected;
      journal := journal + [r];
    }

    /** Due targets fire in order. */
    method FireDue(k: nat, due: seq<Pending>)
      requires Valid() && k < |u.market.times|
      modifies this, positions
      ensures Valid() && closeHistory == old(closeHistory) && pending == old(pending)
      ensures State() == FireAll(u, k, old(State()), due)
    {
      hide WithRebalance, Retarget, Fills, Distinct;
      ghost var s := State();
      assert due[..0] == [];
      for i := 0 to |due|
        invariant Valid() && closeHistory == old(closeHistory) && pending == old(pending)
        invariant State() == FireAll(u, k, s, due[..i])
      {
        ghost var before := State();
        assert due[..i + 1][..i] == due[..i];
        targets := Retarget(targets, due[i].updates);
        assert State() == before.(targets := Retarget(before.targets, due[i].updates));
        Rebalance(k, due[i].signalTime, due[i].reasons);
      }
      assert due[..|due|] == due;
    }

    /** The open of bar `k`: due targets fire in order; with none due, a breached limit does. */
    method TradeBar(k: nat)
      requires Valid() && k < |u.market.times|
      modifies this, positions
      ensures Valid() && closeHistory == old(closeHistory)
      ensures State() == TradePhase(u, k, old(State()))
    {
      hide WithRebalance, RiskLimitBreached, Filter, FireAll, Fills, Distinct;
      var due := Filter(At(k), pending);
      if due == [] && snapshots != [] && RiskLimitBreached(snapshots[|snapshots| - 1], u.config) {
        Rebalance(k, snapshots[|snapshots| - 1].eventTime, RiskReasons(u.n));
      }
      ghost var traded := State();
      FireNone(u, k, traded);
      FireDue(k, due);
      pending := Filter(NotAt(k), pending);
    }

    /** The close of bar `k`: a snapshot, the strategy's signals, and at most one schedule. */
    method CloseBar(k: nat)
      requires Valid() && k < |u.market.times|
      requires closeHistory == Histories(u, k)
      modifies this
      ensures Valid() && closeHistory == Histories(u, k + 1)
      ensures State() == ClosePhase(u, k, old(State()))
    {
      hide SnapshotAt, SignalsAt, Scheduled, Fills;
      RecordSnapshot(k);
      RecordCloses(k);
      EmitSignals(k);
    }

    method RecordSnapshot(k: nat)
      requires Valid() && k < |u.market.times|
      modifies this`peakEquity, this`snapshots
      ensures Valid()
      ensures var s := old(State());
        var snapshot := SnapshotAt(u, k, s);
        State() == s.(peak := Max(s.peak, snapshot.equity), snapshots := s.snapshots + [snapshot])
    {
      hide TakeSnapshot, Fills;
      var snapshot := TakeSnapshot(u.market.times[k], cash, Holdings(positions), u.market.Closes(k), cumulativeFees,
                                   peakEquity, u.config.initialCash, u.market.benchmark[k], u.market.benchmark[0]);
      peakEquity := Max(peakEquity, snapshot.equity);
      snapshots := snapshots + [snapshot];
    }

    method EmitSignals(k: nat)
      requires Valid() && k < |u.market.times|
      requires closeHistory == Histories(u, k + 1)
      modifies this`signals, this`pending
      ensures Valid()
      ensures var s := old(State());
        State() == s.(signals := s.signals + SignalsAt(u, k, u.n), pending := s.pending + Scheduled(u, k))
    {
      hide SignalsAt, LatestSignal, Updates, Reasons, EligibleIndex, Fills;
      var barSignals, updates, reasons, latest := GenerateSignals(u, k, closeHistory);
      signals := signals + barSignals;
      if barSignals != [] {
        var executionIndex := EligibleExecutionIndex(u.market.times, k, latest, u.config.executionDelay);
        if executionIndex.Some? {
          pending := pending + [Pending(executionIndex.value, k, latest, updates, reasons)];
        }
      }
    }

    method RecordCloses(k: nat)
      requires Valid() && k < |u.market.times|
      requires closeHistory == Histories(u, k)
      modifies this`closeHistory
      ensures closeHistory == Histories(u, k + 1)
    {
      for i := 0 to u.n
        invariant |closeHistory| == u.n
        invariant forall j :: 0 <= j < u.n ==>
          closeHistory[j] == u.market.History(j, if j < i then k + 1 else k)
      {
        closeHistory := closeHistory[i := closeHistory[i] + [u.market.bars[k][i].close]];
      }
    }
  }

  lemma FireNone(u: Setup, k: nat, s: Sim)
    requires u.Valid() && k < |u.market.times| && s.Fits(u.n)
    ensures FireAll(u, k, s, []) == s
  {}

  /** Every symbol's closes over the first `k` bars. */
  ghost function Histories(u: Setup, k: nat): seq<seq<real>>
    requires u.Valid() && k <= |u.market.times|
  {
    seq(u.n, i requires 0 <= i < u.n => u.market.History(i, k))
  }

  /** The whole simulation: every bar's open, then its close. */
  method Run(u: Setup) returns (outcome: Outcome)
    requires u.Valid()
    ensures outcome.NotEnoughBars? <==> |u.market.times| < u.config.executionDelay + 2
    ensures outcome.Finished? ==> outcome.report == ReportOf(After(u, |u.market.times|))
  {
    hide TradePhase, ClosePhase, Fills, Distinct, Setup.Valid, Sim.Fits, Histories;
    if |u.market.times| < u.config.executionDelay + 2 {
      return NotEnoughBars;
    }
    var simulation := new Simulation(u);
    for index := 0 to |u.market.times|
      invariant simulation.Valid() && simulation.u == u && fresh(simulation.positions)
      invariant simulation.closeHistory == Histories(u, index)
      invariant simulation.State() == After(u, index)
    {
      simulation.TradeBar(index);
      simulation.CloseBar(index);
    }
    outcome := Finished(Report(simulation.fills, simulation.snapshots, simulation.signals, simulation.rejections));
  }

  method NewPositions(n: nat) returns (ps: seq<Position>)
    ensures |ps| == n && Distinct(ps) && fresh(ps)
    ensures forall i :: 0 <= i < n ==> ps[i].Value() == Holding(0.0, 0.0, 0)
  {
    ps := [];
    for i := 0 to n
      invariant |ps| == i && Distinct(ps) && fresh(ps)
      invariant forall j :: 0 <= j < i ==> ps[j].Value() == Holding(0.0, 0.0, 0)
    {
      var p := new Position();
      ps := ps + [p];
    }
  }
}
