/** What one run of the shared-cash backtest engine computes, as functions of the aligned
    market, the strategy and the configuration.  Symbols are numbered in the sorted order
    in which the engine trades them. */
module BacktestModel {
  import opened Options
  import opened Rounding

  const RISK_TARGET_BUFFER := 0.99
  const SMALLEST_OPEN := 0.000001

  datatype Config = Config(
    initialCash: real, commission: real, spreadBps: real, slippageBps: real,
    executionDelay: nat, maxPositionPct: real, maxTotalExposure: real)
  {
    predicate Valid() {
      && 0.0 < initialCash
      && 0.0 <= commission <= 1000.0
      && 0.0 <= spreadBps <= 500.0
      && 0.0 <= slippageBps <= 500.0
      && 1 <= executionDelay <= 20
      && 0.0 < maxPositionPct <= 1.0
      && 0.0 < maxTotalExposure <= 1.0
    }

    /** Cash amounts are whole micros, as two-decimal cash and ordinary commissions are. */
    ghost predicate OnGrid() {
      OnMoneyGrid(initialCash) && OnMoneyGrid(commission)
    }

    function PositionLimit(): real { maxPositionPct * RISK_TARGET_BUFFER }
    function ExposureLimit(): real { maxTotalExposure * RISK_TARGET_BUFFER }
  }

  datatype Bar = Bar(open: real, close: real, publicationTime: int, effectiveTime: int)

  datatype Market = Market(times: seq<int>, bars: seq<seq<Bar>>, benchmark: seq<real>) {
    /** Bars aligned on strictly increasing times for `n` symbols. */
    ghost predicate Valid(n: nat) {
      && |times| == |bars| == |benchmark|
      && (forall i, j :: 0 <= i < j < |times| ==> times[i] < times[j])
      && (forall k :: 0 <= k < |bars| ==> |bars[k]| == n)
      && (forall k, i :: 0 <= k < |bars| && 0 <= i < n ==> SMALLEST_OPEN <= bars[k][i].open)
      && (|benchmark| > 0 ==> benchmark[0] > 0.0)
    }

    function Opens(k: nat): seq<real>
      requires k < |bars|
    {
      seq(|bars[k]|, i requires 0 <= i < |bars[k]| => bars[k][i].open)
    }

    function Closes(k: nat): seq<real>
      requires k < |bars|
    {
      seq(|bars[k]|, i requires 0 <= i < |bars[k]| => bars[k][i].close)
    }

    /** The closes of one symbol at bars `0..k`. */
    function History(symbol: nat, k: nat): seq<real>
      requires k <= |bars| && forall j :: 0 <= j < k ==> symbol < |bars[j]|
    {
      seq(k, j requires 0 <= j < k => bars[j][symbol].close)
    }
  }

  datatype Decision = Decision(
    targetWeight: Option<real>, direction: string, strength: real, explanation: string)

  /** Any pure function of the closes so far and the bar index. */
  type Strategy = (seq<real>, nat) -> Decision

  datatype Side = Buy | Sell

  datatype Holding = Holding(quantity: real, averageCost: real, openedIndex: nat)

  datatype Trade = Trade(
    symbol: nat, side: Side, signalTime: int, executionTime: int, quantity: real, price: real,
    grossValue: real, fees: real, cashAfter: real, reason: string, realizedPnl: real,
    holdingDays: nat)

  /** A trade with the exact amounts the engine computes on the way and then rounds or drops:
      the unrounded realized profit, and the share remainder written off by a sell. */
  datatype Fill = Fill(trade: Trade, realized: real, residual: real, residualBasis: real)

  datatype Executed = Executed(fill: Fill, cash: real, holding: Holding)

  function Min(x: real, y: real): real { if x <= y then x else y }
  function Max(x: real, y: real): real { if x >= y then x else y }

  /** Half the spread plus slippage, added to a buy and taken from a sale. */
  function Multiplier(side: Side, c: Config): real {
    var friction := (c.spreadBps / 2.0 + c.slippageBps) / 10000.0;
    if side.Buy? then 1.0 + friction else 1.0 - friction
  }

  function Quote(base: real, multiplier: real): real { Price(base * multiplier) }

  function ExecutionPrice(base: real, side: Side, c: Config): real {
    Quote(base, Multiplier(side, c))
  }

  lemma ExecutionPricePositive(base: real, side: Side, c: Config)
    requires c.Valid() && SMALLEST_OPEN <= base
    ensures SHARE_TICK <= ExecutionPrice(base, side, c)
  {
    var multiplier := Multiplier(side, c);
    assert 0.5 <= multiplier;
    assert base * 0.5 <= base * multiplier;
    PricePositive(base * multiplier);
  }

  /** One rebalance's fixed inputs: when, at what opens, towards what, and why. */
  datatype Order = Order(
    index: nat, time: int, signalTime: int, opens: seq<real>, desired: seq<real>,
    reasons: map<nat, string>, config: Config)
  {
    predicate Valid() {
      && config.Valid()
      && |opens| == |desired|
      && forall i :: 0 <= i < |opens| ==> SMALLEST_OPEN <= opens[i]
    }

    function Reason(symbol: nat): string {
      if symbol in reasons then reasons[symbol] else "Portfolio rebalance"
    }
  }

  /** The effect of an execution at a known gross value, before the trade is recorded. */
  datatype Settlement = Settlement(
    cash: real, holding: Holding, realized: real, residual: real, residualBasis: real, days: nat)

  function Settle(o: Order, side: Side, quantity: real, gross: real, cash: real, h: Holding): Settlement
    requires side.Buy? ==> h.quantity + quantity != 0.0
  {
    var fee := o.config.commission;
    if side.Buy? then
      var held := h.quantity + quantity;
      var since := if h.quantity == 0.0 then o.index else h.openedIndex;
      Settlement(cash - (gross + fee),
                 Holding(held, (h.quantity * h.averageCost + gross + fee) / held, since),
                 0.0, 0.0, 0.0, 0)
    else
      var realized := gross - fee - quantity * h.averageCost;
      var days := if o.index >= h.openedIndex then o.index - h.openedIndex else 0;
      var left := h.quantity - quantity;
      if left <= SHARE_TICK
      then Settlement(cash + (gross - fee), Holding(0.0, 0.0, h.openedIndex), realized, left,
                      left * h.averageCost, days)
      else Settlement(cash + (gross - fee), h.(quantity := left), realized, 0.0, 0.0, days)
  }

  function Gross(quantity: real, price: real): real { Money(quantity * price) }

  function Execute(o: Order, symbol: nat, side: Side, quantity: real, cash: real, h: Holding): Executed
    requires symbol < |o.opens|
    requires side.Buy? ==> h.quantity + quantity != 0.0
  {
    var price := ExecutionPrice(o.opens[symbol], side, o.config);
    var gross := Gross(quantity, price);
    var s := Settle(o, side, quantity, gross, cash, h);
    Executed(
      Fill(Trade(symbol, side, o.signalTime, o.time, quantity, price, gross, o.config.commission,
                 Money(s.cash), o.Reason(symbol), Money(s.realized), s.days),
           s.realized, s.residual, s.residualBasis),
      s.cash, s.holding)
  }

  /** What a rebalance has done so far. */
  datatype Progress = Progress(
    cash: real, holdings: seq<Holding>, fills: seq<Fill>, rejections: seq<nat>)

  ghost predicate Long(hs: seq<Holding>) {
    forall i :: 0 <= i < |hs| ==> 0.0 <= hs[i].quantity
  }

  function Book(p: Progress, symbol: nat, e: Executed): Progress
    requires symbol < |p.holdings|
  {
    Progress(e.cash, p.holdings[symbol := e.holding], p.fills + [e.fill], p.rejections)
  }

  function SellStep(o: Order, symbol: nat, p: Progress): (p': Progress)
    requires o.Valid() && symbol < |o.opens| == |p.holdings| && Long(p.holdings)
    ensures |p'.holdings| == |p.holdings| && Long(p'.holdings)
  {
    var h := p.holdings[symbol];
    if o.desired[symbol] >= h.quantity then p
    else Book(p, symbol, Execute(o, symbol, Sell, h.quantity - o.desired[symbol], p.cash, h))
  }

  function Required(quantity: real, price: real, c: Config): real { quantity * price + c.commission }

  function Affordable(cash: real, price: real, c: Config): real
    requires price != 0.0
  {
    Shares(Max(cash - c.commission, 0.0) / price)
  }

  /** The quantity a buy step asks for, cut down to what cash covers. */
  function BuyQuantity(o: Order, symbol: nat, p: Progress): real
    requires o.Valid() && symbol < |o.opens| == |p.holdings|
  {
    var quantity := o.desired[symbol] - p.holdings[symbol].quantity;
    var price := ExecutionPrice(o.opens[symbol], Buy, o.config);
    ExecutionPricePositive(o.opens[symbol], Buy, o.config);
    if Required(quantity, price, o.config) > p.cash then Affordable(p.cash, price, o.config) else quantity
  }

  function BuyStep(o: Order, symbol: nat, p: Progress): (p': Progress)
    requires o.Valid() && symbol < |o.opens| == |p.holdings| && Long(p.holdings)
    ensures |p'.holdings| == |p.holdings| && Long(p'.holdings)
  {
    var h := p.holdings[symbol];
    if o.desired[symbol] <= h.quantity then p
    else
      var quantity := BuyQuantity(o, symbol, p);
      if quantity <= 0.0 then p.(rejections := p.rejections + [symbol])
      else Book(p, symbol, Execute(o, symbol, Buy, quantity, p.cash, h))
  }

  /** All sells among the first `k` symbols, in order. */
  function SellPass(o: Order, k: nat, p: Progress): (p': Progress)
    requires o.Valid() && k <= |o.opens| == |p.holdings| && Long(p.holdings)
    ensures |p'.holdings| == |p.holdings| && Long(p'.holdings)
  {
    if k == 0 then p else SellStep(o, k - 1, SellPass(o, k - 1, p))
  }

  function BuyPass(o: Order, k: nat, p: Progress): (p': Progress)
    requires o.Valid() && k <= |o.opens| == |p.holdings| && Long(p.holdings)
    ensures |p'.holdings| == |p.holdings| && Long(p'.holdings)
  {
    if k == 0 then p else BuyStep(o, k - 1, BuyPass(o, k - 1, p))
  }

  /** Value of the first `k` holdings at the given prices. */
  function Value(hs: seq<Holding>, prices: seq<real>, k: nat): real
    requires k <= |hs| == |prices|
  {
    if k == 0 then 0.0 else Value(hs, prices, k - 1) + hs[k - 1].quantity * prices[k - 1]
  }

  function Sum(xs: seq<real>, k: nat): real
    requires k <= |xs|
  {
    if k == 0 then 0.0 else Sum(xs, k - 1) + xs[k - 1]
  }

  /** Target weights after the position cap, before the exposure scale. */
  function Clipped(targets: seq<real>, c: Config): seq<real> {
    seq(|targets|, i requires 0 <= i < |targets| => Min(Max(targets[i], 0.0), c.PositionLimit()))
  }

  function Scaled(weight: real, scale: real): real { weight * scale }

  function Weights(targets: seq<real>, c: Config): (w: seq<real>)
    requires c.Valid()
    ensures |w| == |targets|
  {
    var capped := Clipped(targets, c);
    var total := Sum(capped, |capped|);
    if total > c.ExposureLimit() then
      var scale := c.ExposureLimit() / total;
      seq(|capped|, i requires 0 <= i < |capped| => Scaled(capped[i], scale))
    else capped
  }

  function SharesFor(equity: real, weight: real, open: real): real
    requires open != 0.0
  {
    Shares(equity * weight / open)
  }

  function Desired(equity: real, weights: seq<real>, opens: seq<real>): seq<real>
    requires |weights| == |opens|
    requires forall i :: 0 <= i < |opens| ==> SMALLEST_OPEN <= opens[i]
  {
    seq(|weights|, i requires 0 <= i < |weights| => SharesFor(equity, weights[i], opens[i]))
  }

  /** A whole rebalance: when it ran, from which account to which, and its fills. */
  datatype Rebalance = Rebalance(
    index: nat, time: int, signalTime: int, opens: seq<real>, equity: real, weights: seq<real>,
    cashBefore: real, before: seq<Holding>, after: Progress)

  function OrderFor(index: nat, time: int, signalTime: int, opens: seq<real>, equity: real,
                    weights: seq<real>, reasons: map<nat, string>, c: Config): (o: Order)
    requires c.Valid() && |weights| == |opens|
    requires forall i :: 0 <= i < |opens| ==> SMALLEST_OPEN <= opens[i]
    ensures o.Valid()
  {
    Order(index, time, signalTime, opens, Desired(equity, weights, opens), reasons, c)
  }

  function RunRebalance(index: nat, time: int, signalTime: int, opens: seq<real>, targets: seq<real>,
                        reasons: map<nat, string>, c: Config, cash: real, holdings: seq<Holding>)
    : (r: Rebalance)
    requires c.Valid() && |targets| == |opens| == |holdings| && Long(holdings)
    requires forall i :: 0 <= i < |opens| ==> SMALLEST_OPEN <= opens[i]
    ensures |r.after.holdings| == |holdings| && Long(r.after.holdings)
  {
    var equity := cash + Value(holdings, opens, |holdings|);
    var weights := Weights(targets, c);
    var o := OrderFor(index, time, signalTime, opens, equity, weights, reasons, c);
    var sold := SellPass(o, |opens|, Progress(cash, holdings, [], []));
    Rebalance(index, time, signalTime, opens, equity, weights, cash, holdings,
              BuyPass(o, |opens|, sold))
  }

  // ---------------------------------------------------------------- the bar loop

  datatype Pending = Pending(
    executionIndex: nat, signalIndex: nat, signalTime: int,
    updates: map<nat, real>, reasons: map<nat, string>)

  datatype PositionRow = PositionRow(quantity: real, averageCost: real, close: real, value: real)

  datatype Snapshot = Snapshot(
    eventTime: int, equity: real, cash: real, positions: map<nat, PositionRow>,
    cumulativeFees: real, exposure: real, drawdown: real, benchmarkValue: real)

  datatype Signal = Signal(symbol: nat, generatedAt: int, decision: Decision)

  /** The state of `run` between bars; `journal` lists its rebalances in order. */
  datatype Sim = Sim(
    cash: real, holdings: seq<Holding>, targets: seq<real>, pending: seq<Pending>,
    fees: real, peak: real, snapshots: seq<Snapshot>, signals: seq<Signal>,
    rejections: seq<nat>, journal: seq<Rebalance>)
  {
    ghost predicate Fits(n: nat) {
      |holdings| == |targets| == n && Long(holdings)
    }
  }

  /** The fixed inputs of a run over `n` symbols. */
  datatype Setup = Setup(n: nat, market: Market, strategy: Strategy, config: Config) {
    ghost predicate Valid() { config.Valid() && market.Valid(n) }
  }

  function Total(amount: Fill -> real, fills: seq<Fill>): real {
    if fills == [] then 0.0
    else Total(amount, fills[..|fills| - 1]) + amount(fills[|fills| - 1])
  }

  function Fee(f: Fill): real { f.trade.fees }

  function Filter<T(!new)>(keep: T -> bool, xs: seq<T>): (ys: seq<T>)
    ensures forall y :: y in ys <==> y in xs && keep(y)
  {
    if xs == [] then []
    else
      var last := xs[|xs| - 1];
      var front := Filter(keep, xs[..|xs| - 1]);
      assert xs == xs[..|xs| - 1] + [last];
      if keep(last) then front + [last] else front
  }

  function At(k: nat): Pending -> bool { (p: Pending) => p.executionIndex == k }

  function NotAt(k: nat): Pending -> bool { (p: Pending) => p.executionIndex != k }

  function Start(u: Setup): (s: Sim)
    ensures s.Fits(u.n)
  {
    Sim(u.config.initialCash, seq(u.n, _ => Holding(0.0, 0.0, 0)), seq(u.n, _ => 0.0), [],
        0.0, u.config.initialCash, [], [], [], [])
  }

  function RiskLimitBreached(snapshot: Snapshot, c: Config): bool {
    if snapshot.exposure > c.ExposureLimit() then true
    else if snapshot.equity == 0.0 then false
    else exists i :: i in snapshot.positions &&
           snapshot.positions[i].value / snapshot.equity > c.PositionLimit()
  }

  function WithRebalance(u: Setup, k: nat, s: Sim, signalTime: int, reasons: map<nat, string>): (s': Sim)
    requires u.Valid() && k < |u.market.times| && s.Fits(u.n)
    ensures s'.Fits(u.n)
  {
    var r := RunRebalance(k, u.market.times[k], signalTime, u.market.Opens(k), s.targets,
                          reasons, u.config, s.cash, s.holdings);
    s.(cash := r.after.cash, holdings := r.after.holdings, fees := s.fees + Total(Fee, r.after.fills),
       rejections := s.rejections + r.after.rejections, journal := s.journal + [r])
  }

  function Retarget(targets: seq<real>, updates: map<nat, real>): (t: seq<real>)
    ensures |t| == |targets|
  {
    seq(|targets|, i requires 0 <= i < |targets| => if i in updates then updates[i] else targets[i])
  }

  function Fire(u: Setup, k: nat, s: Sim, item: Pending): (s': Sim)
    requires u.Valid() && k < |u.market.times| && s.Fits(u.n)
    ensures s'.Fits(u.n)
  {
    WithRebalance(u, k, s.(targets := Retarget(s.targets, item.updates)), item.signalTime, item.reasons)
  }

  function FireAll(u: Setup, k: nat, s: Sim, due: seq<Pending>): (s': Sim)
    requires u.Valid() && k < |u.market.times| && s.Fits(u.n)
    ensures s'.Fits(u.n)
  {
    if due == [] then s
    else Fire(u, k, FireAll(u, k, s, due[..|due| - 1]), due[|due| - 1])
  }

  function RiskReasons(n: nat): map<nat, string> {
    if n == 0 then map[] else RiskReasons(n - 1)[n - 1 := "Risk-limit rebalance"]
  }

  /** What happens at the open of bar `k`. */
  function TradePhase(u: Setup, k: nat, s: Sim): (s': Sim)
    requires u.Valid() && k < |u.market.times| && s.Fits(u.n)
    ensures s'.Fits(u.n)
  {
    var due := Filter(At(k), s.pending);
    var traded :=
      if due != [] then FireAll(u, k, s, due)
      else if s.snapshots != [] && RiskLimitBreached(s.snapshots[|s.snapshots| - 1], u.config)
      then WithRebalance(u, k, s, s.snapshots[|s.snapshots| - 1].eventTime, RiskReasons(u.n))
      else s;
    traded.(pending := Filter(NotAt(k), s.pending))
  }

  function RowOf(h: Holding, close: real): PositionRow {
    PositionRow(h.quantity, h.averageCost, close, Gross(h.quantity, close))
  }

  /** The records of the open positions at the given closes. */
  function PositionRows(holdings: seq<Holding>, closes: seq<real>): map<nat, PositionRow>
    requires |holdings| == |closes|
  {
    map i | 0 <= i < |holdings| && holdings[i].quantity > 0.0 :: RowOf(holdings[i], closes[i])
  }

  /** The initial cash had it followed the benchmark. */
  function BenchmarkValue(initialCash: real, benchmark: real, start: real): real
    requires start != 0.0
  {
    Money(initialCash * benchmark / start)
  }

  function TakeSnapshot(time: int, cash: real, holdings: seq<Holding>, closes: seq<real>, fees: real,
                        priorPeak: real, initialCash: real, benchmark: real, benchmarkStart: real): Snapshot
    requires |holdings| == |closes| && benchmarkStart != 0.0
  {
    var marketValue := Value(holdings, closes, |closes|);
    var equity := Money(cash + marketValue);
    var peak := Max(priorPeak, equity);
    Snapshot(time, equity, Money(cash), PositionRows(holdings, closes), Money(fees),
             if equity != 0.0 then marketValue / equity else 0.0,
             if peak != 0.0 then equity / peak - 1.0 else 0.0,
             BenchmarkValue(initialCash, benchmark, benchmarkStart))
  }

  function SnapshotAt(u: Setup, k: nat, s: Sim): Snapshot
    requires u.Valid() && k < |u.market.times| && s.Fits(u.n)
  {
    TakeSnapshot(u.market.times[k], s.cash, s.holdings, u.market.Closes(k), s.fees, s.peak,
                 u.config.initialCash, u.market.benchmark[k], u.market.benchmark[0])
  }

  function DecisionAt(u: Setup, k: nat, symbol: nat): Decision
    requires u.Valid() && k < |u.market.times| && symbol < u.n
  {
    u.strategy(u.market.History(symbol, k + 1), k)
  }

  function SignalTime(u: Setup, k: nat, symbol: nat): int
    requires u.Valid() && k < |u.market.times| && symbol < u.n
  {
    var bar := u.market.bars[k][symbol];
    if bar.publicationTime >= bar.effectiveTime then bar.publicationTime else bar.effectiveTime
  }

  /** The signals of the first `i` symbols at bar `k`. */
  function SignalsAt(u: Setup, k: nat, i: nat): seq<Signal>
    requires u.Valid() && k < |u.market.times| && i <= u.n
  {
    if i == 0 then []
    else
      var d := DecisionAt(u, k, i - 1);
      SignalsAt(u, k, i - 1) +
      if d.targetWeight.Some? then [Signal(i - 1, SignalTime(u, k, i - 1), d)] else []
  }

  function LatestSignal(signals: seq<Signal>): int
    requires signals != []
  {
    var last := signals[|signals| - 1].generatedAt;
    if |signals| == 1 then last
    else
      var before := LatestSignal(signals[..|signals| - 1]);
      if before >= last then before else last
  }

  function Updates(signals: seq<Signal>): map<nat, real> {
    if signals == [] then map[]
    else
      var last := signals[|signals| - 1];
      var front := Updates(signals[..|signals| - 1]);
      if last.decision.targetWeight.Some?
      then front[last.symbol := last.decision.targetWeight.value] else front
  }

  function Reasons(signals: seq<Signal>): map<nat, string> {
    if signals == [] then map[]
    else
      var last := signals[|signals| - 1];
      Reasons(signals[..|signals| - 1])[last.symbol := last.decision.explanation]
  }

  /** The first bar at or after `candidate` that is later than the signal. */
  function EligibleIndex(times: seq<int>, candidate: nat, signalTime: int): Option<nat>
    decreases |times| - candidate
  {
    if candidate >= |times| then None
    else if times[candidate] <= signalTime then EligibleIndex(times, candidate + 1, signalTime)
    else Some(candidate)
  }

  /** What bar `k` schedules: at most one set of targets. */
  function Scheduled(u: Setup, k: nat): seq<Pending>
    requires u.Valid() && k < |u.market.times|
  {
    var signals := SignalsAt(u, k, u.n);
    if signals == [] then []
    else
      var time := LatestSignal(signals);
      match EligibleIndex(u.market.times, k + u.config.executionDelay, time)
      case None => []
      case Some(index) => [Pending(index, k, time, Updates(signals), Reasons(signals))]
  }

  /** What happens at the close of bar `k`. */
  function ClosePhase(u: Setup, k: nat, s: Sim): (s': Sim)
    requires u.Valid() && k < |u.market.times| && s.Fits(u.n)
    ensures s'.Fits(u.n)
  {
    var snapshot := SnapshotAt(u, k, s);
    s.(peak := Max(s.peak, snapshot.equity), snapshots := s.snapshots + [snapshot],
       signals := s.signals + SignalsAt(u, k, u.n), pending := s.pending + Scheduled(u, k))
  }

  /** The state after the first `k` bars. */
  function After(u: Setup, k: nat): (s: Sim)
    requires u.Valid() && k <= |u.market.times|
    ensures s.Fits(u.n)
  {
    if k == 0 then Start(u) else ClosePhase(u, k - 1, TradePhase(u, k - 1, After(u, k - 1)))
  }

  /** Every fill of a journal, in order. */
  function Fills(journal: seq<Rebalance>): seq<Fill> {
    if journal == [] then []
    else Fills(journal[..|journal| - 1]) + journal[|journal| - 1].after.fills
  }
}
