/** What a rebalance aims at: the weights the strategy asked for last, capped and scaled. */
module BacktestTargets {
  import opened Options
  import opened Rounding
  import opened BacktestModel
  import opened BacktestAccounts
  import opened BacktestRisk
  import opened BacktestTrades
  import opened BacktestRun
  import opened BacktestTiming

  // ---------------------------------------------------------------- weights

  /** A target after the position cap. */
  function Capping(target: real, limit: real): real {
    if target <= 0.0 then 0.0 else if target <= limit then target else limit
  }

  /** Capped targets that fit the exposure limit are the weights; otherwise the weights use the whole
      limit, in the proportions of the capped targets. */
  lemma WeightsExact(targets: seq<real>, c: Config)
    requires c.Valid()
    ensures var w, capped := Weights(targets, c),
          seq(|targets|, i requires 0 <= i < |targets| => Capping(targets[i], c.maxPositionPct * 0.99));
      if Sum(capped, |capped|) <= c.maxTotalExposure * 0.99 then w == capped
      else
        && |w| == |capped| && Sum(w, |w|) == c.maxTotalExposure * 0.99
        && forall i, j :: 0 <= i < |w| && 0 <= j < |w| ==> Scaled(w[i], capped[j]) == Scaled(w[j], capped[i])
  {
    hide Scaled;
    var w := Weights(targets, c);
    var capped := seq(|targets|, i requires 0 <= i < |targets| => Capping(targets[i], c.maxPositionPct * 0.99));
    assert Clipped(targets, c) == capped;
    SumBounds(capped, |capped|);
    var total := Sum(capped, |capped|);
    if total > c.ExposureLimit() {
      var scale := c.ExposureLimit() / total;
      ScaleDown(c.ExposureLimit(), total, scale);
      SumScaled(capped, w, scale, |w|);
      forall i, j | 0 <= i < |w| && 0 <= j < |w| ensures Scaled(w[i], capped[j]) == Scaled(w[j], capped[i]) {
        Proportional(capped[i], capped[j], scale);
      }
    }
  }

  lemma Proportional(x: real, y: real, scale: real)
    ensures Scaled(Scaled(x, scale), y) == Scaled(Scaled(y, scale), x)
  {
    assert (x * scale) * y == (y * scale) * x;
  }

  // ---------------------------------------------------------------- what was asked for

  /** The set names exactly the symbols whose decision at the bar has a weight, with that weight and
      explanation, and carries the latest of those symbols' publication and effective times. */
  ghost predicate Asks(u: Setup, k: nat, p: Pending)
    requires u.Valid() && k < |u.market.times|
  {
    && (forall i: nat | i < u.n :: AsksFor(u.strategy(u.market.History(i, k + 1), k), u.market.bars[k][i], p, i))
    && exists i: nat | i < u.n && i in p.updates :: p.signalTime == Later(u.market.bars[k][i])
  }

  ghost predicate AsksFor(decision: Decision, bar: Bar, p: Pending, i: nat) {
    match decision.targetWeight
    case None => i !in p.updates
    case Some(weight) =>
      && i in p.updates && p.updates[i] == weight
      && i in p.reasons && p.reasons[i] == decision.explanation
      && Later(bar) <= p.signalTime
  }

  function Later(bar: Bar): int {
    if bar.publicationTime < bar.effectiveTime then bar.effectiveTime else bar.publicationTime
  }

  /** Some symbol's decision at the bar has a weight. */
  ghost predicate Decides(u: Setup, k: nat)
    requires u.Valid() && k < |u.market.times|
  {
    exists i: nat | i < u.n :: Weighs(u, k, i)
  }

  ghost predicate Weighs(u: Setup, k: nat, i: nat)
    requires u.Valid() && k < |u.market.times| && i < u.n
  {
    u.strategy(u.market.History(i, k + 1), k).targetWeight.Some?
  }

  /** No bar past the delay is later than what symbol `i` decided on. */
  ghost predicate TooLate(u: Setup, k: nat, i: nat)
    requires u.Valid() && k < |u.market.times| && i < u.n
  {
    && Weighs(u, k, i)
    && forall j :: k + u.config.executionDelay <= j < |u.market.times| ==>
         u.market.times[j] <= Later(u.market.bars[k][i])
  }

  /** A bar schedules one set, unless no symbol has a weight or one of them comes too late. */
  lemma ScheduledUnlessLate(u: Setup, k: nat)
    requires u.Valid() && k < |u.market.times|
    ensures |Scheduled(u, k)| ==
      if Decides(u, k) && forall i: nat | i < u.n :: !TooLate(u, k, i) then 1 else 0
  {
    hide EligibleIndex, LatestSignal, Updates, Reasons, SignalsAt;
    var signals := SignalsAt(u, k, u.n);
    SignalsAsk(u, k, u.n);
    if signals == [] {
      forall i: nat | i < u.n ensures !Weighs(u, k, i) {
        assert u.strategy(u.market.History(i, k + 1), k) == DecisionAt(u, k, i);
        assert SignalOf(u, k, i) !in signals;
      }
    } else {
      assert signals[0] in signals && signals[0] == SignalOf(u, k, signals[0].symbol);
      assert Weighs(u, k, signals[0].symbol);
      LatestIs(signals);
      var time := LatestSignal(signals);
      var last :| last in signals && last.generatedAt == time;
      assert last == SignalOf(u, k, last.symbol) && time == Later(u.market.bars[k][last.symbol]);
      EligibleIndexFirst(u.market.times, k + u.config.executionDelay, time);
      var none := EligibleIndex(u.market.times, k + u.config.executionDelay, time).None?;
      assert none ==> TooLate(u, k, last.symbol);
      forall i: nat | i < u.n && TooLate(u, k, i) ensures none {
        assert SignalOf(u, k, i) in signals by {
          assert u.strategy(u.market.History(i, k + 1), k) == DecisionAt(u, k, i);
        }
      }
    }
  }

  lemma ScheduledAsks(u: Setup, k: nat)
    requires u.Valid() && k < |u.market.times|
    ensures forall p :: p in Scheduled(u, k) ==> Asks(u, k, p)
  {
    hide EligibleIndex, LatestSignal, Updates, Reasons, SignalsAt, AsksFor;
    var signals := SignalsAt(u, k, u.n);
    if signals != [] && Scheduled(u, k) != [] {
      var p := Scheduled(u, k)[0];
      SignalsAsk(u, k, u.n);
      LatestIs(signals);
      UpdatesAre(signals);
      assert Scheduled(u, k) == [p] && p.updates == Updates(signals) && p.reasons == Reasons(signals);
      forall i: nat | i < u.n
        ensures AsksFor(u.strategy(u.market.History(i, k + 1), k), u.market.bars[k][i], p, i)
      {
        SymbolAsks(u, k, p, signals, i);
      }
      var last :| last in signals && last.generatedAt == LatestSignal(signals);
      assert last.symbol in p.updates && p.signalTime == Later(u.market.bars[k][last.symbol]);
    }
  }

  lemma SymbolAsks(u: Setup, k: nat, p: Pending, signals: seq<Signal>, i: nat)
    requires u.Valid() && k < |u.market.times| && i < u.n
    requires forall s :: s in signals ==>
      s.symbol < u.n && s == SignalOf(u, k, s.symbol) && s.generatedAt <= p.signalTime
    requires DecisionAt(u, k, i).targetWeight.Some? ==> SignalOf(u, k, i) in signals
    requires Collects(signals, p.updates, p.reasons)
    ensures AsksFor(u.strategy(u.market.History(i, k + 1), k), u.market.bars[k][i], p, i)
  {
    assert u.strategy(u.market.History(i, k + 1), k) == DecisionAt(u, k, i);
    if i in p.updates {
      var s :| s in signals && s.symbol == i;
      assert s == SignalOf(u, k, i);
    } else {
      assert SignalOf(u, k, i) !in signals;
    }
  }

  function SignalOf(u: Setup, k: nat, i: nat): Signal
    requires u.Valid() && k < |u.market.times| && i < u.n
  {
    Signal(i, SignalTime(u, k, i), DecisionAt(u, k, i))
  }

  /** The signals of the first `m` symbols are the decisions with a weight. */
  lemma {:induction false} SignalsAsk(u: Setup, k: nat, m: nat)
    requires u.Valid() && k < |u.market.times| && m <= u.n
    ensures var signals := SignalsAt(u, k, m);
      && (forall a, b :: 0 <= a < b < |signals| ==> signals[a].symbol < signals[b].symbol)
      && (forall s :: s in signals ==> s.symbol < m && s == SignalOf(u, k, s.symbol) && s.decision.targetWeight.Some?)
      && (forall i: nat :: i < m && DecisionAt(u, k, i).targetWeight.Some? ==> SignalOf(u, k, i) in signals)
  {
    hide DecisionAt, SignalTime;
    if m > 0 { SignalsAsk(u, k, m - 1); }
  }

  lemma {:induction false} LatestIs(signals: seq<Signal>)
    requires signals != []
    ensures exists s :: s in signals && s.generatedAt == LatestSignal(signals)
    ensures forall s :: s in signals ==> s.generatedAt <= LatestSignal(signals)
  {
    var front, last := signals[..|signals| - 1], signals[|signals| - 1];
    assert last in signals && signals == front + [last];
    if |signals| > 1 {
      LatestIs(front);
      assert forall s :: s in front ==> s in signals;
    }
  }

  ghost predicate Collects(signals: seq<Signal>, updates: map<nat, real>, reasons: map<nat, string>) {
    && updates.Keys == reasons.Keys == (set s | s in signals :: s.symbol)
    && forall s :: s in signals ==> s.decision.targetWeight.Some? && updates[s.symbol] == s.decision.targetWeight.value
                                    && reasons[s.symbol] == s.decision.explanation
  }

  lemma {:induction false} UpdatesAre(signals: seq<Signal>)
    requires forall a, b :: 0 <= a < b < |signals| ==> signals[a].symbol < signals[b].symbol
    requires forall s :: s in signals ==> s.decision.targetWeight.Some?
    ensures Collects(signals, Updates(signals), Reasons(signals))
  {
    if signals != [] {
      var front, last := signals[..|signals| - 1], signals[|signals| - 1];
      UpdatesAre(front);
      UpdatesNext(front, last);
      assert signals == front + [last];
    }
  }

  lemma Appended(front: seq<Signal>, last: Signal)
    requires last.decision.targetWeight.Some?
    ensures Updates(front + [last]) == Updates(front)[last.symbol := last.decision.targetWeight.value]
    ensures Reasons(front + [last]) == Reasons(front)[last.symbol := last.decision.explanation]
  {
    assert (front + [last])[..|front|] == front;
  }

  lemma UpdatesNext(front: seq<Signal>, last: Signal)
    requires forall s :: s in front ==> s.decision.targetWeight.Some? && s.symbol < last.symbol
    requires last.decision.targetWeight.Some? && Collects(front, Updates(front), Reasons(front))
    ensures Collects(front + [last], Updates(front + [last]), Reasons(front + [last]))
  {
    hide Updates, Reasons;
    var updates, reasons := Updates(front), Reasons(front);
    var updates', reasons' := Updates(front + [last]), Reasons(front + [last]);
    assert updates' == updates[last.symbol := last.decision.targetWeight.value]
      && reasons' == reasons[last.symbol := last.decision.explanation] by { Appended(front, last); }
    assert forall s :: s in front + [last] <==> s in front || s == last;
  }

  // ---------------------------------------------------------------- what is aimed at

  /** Every target set that fired before bar `k`, in the order it fired. */
  function FiredBefore(u: Setup, k: nat): seq<Pending>
    requires u.Valid() && k <= |u.market.times|
  {
    if k == 0 then [] else FiredBefore(u, k - 1) + Filter(At(k - 1), AllScheduled(u, |u.market.times|))
  }

  /** The last set naming the symbol asked for `weight`; none naming it means nothing is wanted. */
  ghost predicate LastAsked(symbol: nat, fired: seq<Pending>, weight: real) {
    || (weight == 0.0 && forall m :: 0 <= m < |fired| ==> symbol !in fired[m].updates)
    || exists m :: 0 <= m < |fired| && symbol in fired[m].updates && weight == fired[m].updates[symbol]
         && forall later :: m < later < |fired| ==> symbol !in fired[later].updates
  }

  ghost predicate Aims(fired: seq<Pending>, targets: seq<real>) {
    forall i :: 0 <= i < |targets| ==> LastAsked(i, fired, targets[i])
  }

  lemma AimsNext(fired: seq<Pending>, targets: seq<real>, item: Pending)
    requires Aims(fired, targets)
    ensures Aims(fired + [item], Retarget(targets, item.updates))
  {
    var more, targets' := fired + [item], Retarget(targets, item.updates);
    forall i | 0 <= i < |targets'| ensures LastAsked(i, more, targets'[i]) {
      if i in item.updates {
        assert more[|fired|] == item;
      } else {
        assert LastAsked(i, fired, targets[i]);
        assert forall m :: 0 <= m < |fired| ==> more[m] == fired[m];
      }
    }
  }

  function ReasonFor(reasons: map<nat, string>, symbol: nat): string {
    if symbol in reasons then reasons[symbol] else "Portfolio rebalance"
  }

  /** A market's columns: opens and closes of one bar by symbol, closes of one symbol by bar. */
  lemma ColumnsAre(u: Setup, k: nat)
    requires u.Valid() && k < |u.market.times|
    ensures |u.market.Opens(k)| == |u.market.Closes(k)| == u.n
    ensures forall i :: 0 <= i < u.n ==>
      && u.market.Opens(k)[i] == u.market.bars[k][i].open && u.market.Closes(k)[i] == u.market.bars[k][i].close
      && |u.market.History(i, k)| == k
      && forall j :: 0 <= j < k ==> u.market.History(i, k)[j] == u.market.bars[j][i].close
  {}

  /** The rebalance traded at the opens of its bar. */
  ghost predicate AtOpens(u: Setup, r: Rebalance)
    requires u.Valid()
  {
    && r.index < |u.market.times| && |r.opens| == u.n
    && forall i :: 0 <= i < u.n ==> r.opens[i] == u.market.bars[r.index][i].open
  }

  /** A rebalance aimed at what the sets fired so far last asked for and carried out what its weights
      come to, each of its trades giving the reason stated for its symbol. */
  ghost predicate AimedAt(u: Setup, r: Rebalance, fired: seq<Pending>, reasons: map<nat, string>)
    requires u.Valid()
  {
    && (exists targets :: |targets| == u.n && Aims(fired, targets) && r.weights == Weights(targets, u.config))
    && CarriedOut(r, u.config) && AtOpens(u, r)
    && forall f :: f in r.after.fills ==> f.trade.reason == ReasonFor(reasons, f.trade.symbol)
  }

  ghost predicate Reasoned(o: Order, p: Progress) {
    forall f :: f in p.fills ==> f.trade.reason == ReasonFor(o.reasons, f.trade.symbol)
  }

  lemma {:induction false} SellsReasoned(o: Order, k: nat, p: Progress)
    requires o.Valid() && k <= |o.opens| == |p.holdings| && Long(p.holdings) && Reasoned(o, p)
    ensures Reasoned(o, SellPass(o, k, p))
  {
    hide ExecutionPrice, Gross, Money;
    if k > 0 { SellsReasoned(o, k - 1, p); }
  }

  lemma {:induction false} BuysReasoned(o: Order, k: nat, p: Progress)
    requires o.Valid() && k <= |o.opens| == |p.holdings| && Long(p.holdings) && Reasoned(o, p)
    ensures Reasoned(o, BuyPass(o, k, p))
  {
    hide ExecutionPrice, Gross, Money, BuyQuantity;
    if k > 0 { BuysReasoned(o, k - 1, p); }
  }

  lemma RebalanceReasoned(u: Setup, k: nat, s: Sim, signalTime: int, reasons: map<nat, string>)
    requires u.Valid() && k < |u.market.times| && s.Fits(u.n)
    ensures var r := RunRebalance(k, u.market.times[k], signalTime, u.market.Opens(k), s.targets, reasons, u.config,
                                  s.cash, s.holdings);
      forall f :: f in r.after.fills ==> f.trade.reason == ReasonFor(reasons, f.trade.symbol)
  {
    hide Weights, SellPass, BuyPass, Desired;
    var opens := u.market.Opens(k);
    var equity, weights := s.cash + Value(s.holdings, opens, u.n), Weights(s.targets, u.config);
    var o := OrderFor(k, u.market.times[k], signalTime, opens, equity, weights, reasons, u.config);
    var p := Progress(s.cash, s.holdings, [], []);
    SellsReasoned(o, u.n, p);
    BuysReasoned(o, u.n, SellPass(o, u.n, p));
  }

  /** The entries take the account from the first state to the second, each starting where the one
      before it ended. */
  ghost predicate Chained(cash: real, hs: seq<Holding>, entries: seq<Rebalance>, cash': real, hs': seq<Holding>) {
    if entries == [] then cash' == cash && hs' == hs
    else
      var last := entries[|entries| - 1];
      && last.after.cash == cash' && last.after.holdings == hs'
      && Chained(cash, hs, entries[..|entries| - 1], last.cashBefore, last.before)
  }

  /** What the entries rejected, in order. */
  function Rejected(entries: seq<Rebalance>): seq<nat> {
    if entries == [] then []
    else Rejected(entries[..|entries| - 1]) + entries[|entries| - 1].after.rejections
  }

  lemma ChainedNext(cash: real, hs: seq<Holding>, entries: seq<Rebalance>, r: Rebalance)
    requires Chained(cash, hs, entries, r.cashBefore, r.before)
    ensures Chained(cash, hs, entries + [r], r.after.cash, r.after.holdings)
    ensures Rejected(entries + [r]) == Rejected(entries) + r.after.rejections
  {
    assert (entries + [r])[..|entries|] == entries;
  }

  lemma RebalanceAims(u: Setup, k: nat, s: Sim, signalTime: int, reasons: map<nat, string>, fired: seq<Pending>)
    returns (r: Rebalance)
    requires u.Valid() && k < |u.market.times| && s.Fits(u.n) && Aims(fired, s.targets)
    ensures var s' := WithRebalance(u, k, s, signalTime, reasons);
      && s'.journal == s.journal + [r] && AimedAt(u, r, fired, reasons)
      && r.cashBefore == s.cash && r.before == s.holdings
      && r.after.cash == s'.cash && r.after.holdings == s'.holdings
      && s'.rejections == s.rejections + r.after.rejections
  {
    hide Weights, SellPass, BuyPass, OrderFor, Value, Total, Aims, ReasonFor, CarriedOut;
    r := RunRebalance(k, u.market.times[k], signalTime, u.market.Opens(k), s.targets, reasons, u.config,
                      s.cash, s.holdings);
    RebalanceReasoned(u, k, s, signalTime, reasons);
    RebalanceCarriedOut(k, u.market.times[k], signalTime, u.market.Opens(k), s.targets, reasons, u.config,
                        s.cash, s.holdings);
  }

  /** One entry for each firing, aimed at what had been asked for when it fired. */
  ghost predicate AimedInOrder(u: Setup, entries: seq<Rebalance>, fired: seq<Pending>, due: seq<Pending>)
    requires u.Valid()
  {
    && |entries| == |due|
    && forall j :: 0 <= j < |due| ==> AimedAt(u, entries[j], fired + due[..j + 1], due[j].reasons)
  }

  lemma FireAims(u: Setup, k: nat, s: Sim, fired: seq<Pending>, item: Pending) returns (r: Rebalance)
    requires u.Valid() && k < |u.market.times| && s.Fits(u.n) && Aims(fired, s.targets)
    ensures var s' := Fire(u, k, s, item);
      && s'.journal == s.journal + [r] && Aims(fired + [item], s'.targets)
      && AimedAt(u, r, fired + [item], item.reasons)
      && r.cashBefore == s.cash && r.before == s.holdings
      && r.after.cash == s'.cash && r.after.holdings == s'.holdings
      && s'.rejections == s.rejections + r.after.rejections
  {
    hide RunRebalance, Retarget, Aims, AimedAt;
    AimsNext(fired, s.targets, item);
    r := RebalanceAims(u, k, s.(targets := Retarget(s.targets, item.updates)), item.signalTime, item.reasons,
                       fired + [item]);
  }

  lemma {:induction false} FireAllAims(u: Setup, k: nat, s: Sim, fired: seq<Pending>, due: seq<Pending>)
    returns (entries: seq<Rebalance>)
    requires u.Valid() && k < |u.market.times| && s.Fits(u.n) && Aims(fired, s.targets)
    ensures var s' := FireAll(u, k, s, due);
      && s'.journal == s.journal + entries && Aims(fired + due, s'.targets) && AimedInOrder(u, entries, fired, due)
      && Chained(s.cash, s.holdings, entries, s'.cash, s'.holdings)
      && s'.rejections == s.rejections + Rejected(entries)
  {
    hide Fire, Aims, AimedAt, Chained, Rejected;
    if due == [] {
      entries := [];
      assert fired + due == fired;
      NothingTraded(s.cash, s.holdings);
    } else {
      var front, item := due[..|due| - 1], due[|due| - 1];
      entries := FireAllAims(u, k, s, fired, front);
      assert fired + front + [item] == fired + due == fired + due[..|due|];
      var r := FireAims(u, k, FireAll(u, k, s, front), fired + front, item);
      forall j | 0 <= j < |front| ensures AimedAt(u, entries[j], fired + due[..j + 1], due[j].reasons) {
        assert due[..j + 1] == front[..j + 1];
      }
      ChainedNext(s.cash, s.holdings, entries, r);
      entries := entries + [r];
    }
  }

  lemma NothingTraded(cash: real, hs: seq<Holding>)
    ensures Chained(cash, hs, [], cash, hs) && Rejected([]) == []
  {}

  /** Before every bar of every run, a symbol's target is the weight that the last fired set naming it
      asked for. */
  lemma {:induction false} TargetsOverRuns(u: Setup, k: nat)
    requires u.Valid() && k <= |u.market.times|
    ensures |After(u, k).targets| == u.n && Aims(FiredBefore(u, k), After(u, k).targets)
  {
    hide TradePhase, SnapshotAt, SignalsAt, Scheduled, AllScheduled, Aims, Filter;
    if k == 0 {
      StartAims(u);
    } else {
      TargetsOverRuns(u, k - 1);
      FiresExactlyOnce(u, k - 1);
      TradePhaseTargets(u, k - 1, After(u, k - 1), FiredBefore(u, k - 1));
    }
  }

  lemma TradePhaseTargets(u: Setup, k: nat, s: Sim, fired: seq<Pending>)
    requires u.Valid() && k < |u.market.times| && s.Fits(u.n) && Aims(fired, s.targets)
    ensures Aims(fired + Filter(At(k), s.pending), TradePhase(u, k, s).targets)
  {
    hide RunRebalance, FireAll, Aims, Filter, RiskLimitBreached, AimedInOrder, Chained, Rejected;
    var entries := FireAllAims(u, k, s, fired, Filter(At(k), s.pending));
    assert fired + [] == fired;
  }

  lemma StartAims(u: Setup)
    requires u.Valid()
    ensures |After(u, 0).targets| == u.n && Aims([], After(u, 0).targets) && FiredBefore(u, 0) == []
  {}

  // ---------------------------------------------------------------- when the limits trade

  /** At its close the bar left more exposure, or a larger position, than the buffered limits. */
  ghost predicate OverLimits(u: Setup, snapshot: Snapshot) {
    || snapshot.exposure > u.config.maxTotalExposure * 0.99
    || exists i | i in snapshot.positions :: Oversized(u, snapshot.positions[i].value, snapshot.equity)
  }

  ghost predicate Oversized(u: Setup, value: real, equity: real) {
    equity != 0.0 && value / equity > u.config.maxPositionPct * 0.99
  }

  /** What the open of bar `k` adds to the journal, given what fired before it: one rebalance for
      each set due, aimed at what had been asked for by then; or, with none due, one rebalance towards
      the standing targets exactly when the last close was over the limits. */
  ghost predicate TradesAimed(u: Setup, k: nat, last: Option<Snapshot>, fired: seq<Pending>, entries: seq<Rebalance>)
    requires u.Valid()
  {
    var due := Filter(At(k), AllScheduled(u, |u.market.times|));
    if due != [] then AimedInOrder(u, entries, fired, due)
    else if last.Some? && OverLimits(u, last.value) then
      |entries| == 1 && AimedAt(u, entries[0], fired, RiskReasons(u.n))
    else entries == []
  }

  function LastSnapshot(s: Sim): Option<Snapshot> {
    if s.snapshots == [] then None else Some(s.snapshots[|s.snapshots| - 1])
  }

  lemma BreachedIff(u: Setup, snapshot: Snapshot)
    ensures RiskLimitBreached(snapshot, u.config) <==> OverLimits(u, snapshot)
  {}

  lemma TradePhaseAims(u: Setup, k: nat, s: Sim, fired: seq<Pending>) returns (entries: seq<Rebalance>)
    requires u.Valid() && k < |u.market.times| && s.Fits(u.n) && Aims(fired, s.targets)
    requires Filter(At(k), s.pending) == Filter(At(k), AllScheduled(u, |u.market.times|))
    ensures var s' := TradePhase(u, k, s);
      && s'.journal == s.journal + entries && Chained(s.cash, s.holdings, entries, s'.cash, s'.holdings)
      && s'.rejections == s.rejections + Rejected(entries)
    ensures TradesAimed(u, k, LastSnapshot(s), fired, entries)
  {
    hide RunRebalance, AllScheduled, FireAll, Aims, Filter, AimedAt, RiskLimitBreached, OverLimits, WithRebalance;
    hide Chained, Rejected;
    entries := [];
    NothingTraded(s.cash, s.holdings);
    if Filter(At(k), s.pending) != [] {
      entries := FireAllAims(u, k, s, fired, Filter(At(k), s.pending));
    } else if s.snapshots != [] {
      var last := s.snapshots[|s.snapshots| - 1];
      BreachedIff(u, last);
      if OverLimits(u, last) {
        var r := RebalanceAims(u, k, s, last.eventTime, RiskReasons(u.n), fired);
        ChainedNext(s.cash, s.holdings, [], r);
        entries := [] + [r];
        assert entries == [r];
      }
    }
  }

  /** So it is at every bar of every run. */
  lemma BarAims(u: Setup, k: nat) returns (entries: seq<Rebalance>)
    requires u.Valid() && k < |u.market.times|
    ensures var s, s' := After(u, k), After(u, k + 1);
      && s'.journal == s.journal + entries && Chained(s.cash, s.holdings, entries, s'.cash, s'.holdings)
      && s'.rejections == s.rejections + Rejected(entries)
    ensures TradesAimed(u, k, LastSnapshot(After(u, k)), FiredBefore(u, k), entries)
  {
    hide TradePhase, SnapshotAt, SignalsAt, Scheduled, AllScheduled, Filter, Aims, FiredBefore;
    hide Chained, Rejected, TradesAimed;
    TargetsOverRuns(u, k);
    FiresExactlyOnce(u, k);
    entries := TradePhaseAims(u, k, After(u, k), FiredBefore(u, k));
  }

  lemma {:induction false} RiskReasonsAll(n: nat)
    ensures forall i: nat :: i < n ==> i in RiskReasons(n) && RiskReasons(n)[i] == "Risk-limit rebalance"
  {
    if n > 0 { RiskReasonsAll(n - 1); }
  }
}
