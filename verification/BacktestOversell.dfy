/** A run in which the engine, which records itself as long-only, sells shares it does not hold: a
    sale worth less than its commission puts cash below zero, and the next rebalance aims at a
    negative quantity. */
module BacktestOversell {
  import opened Options
  import opened Rounding
  import opened BacktestModel
  import opened BacktestRisk

  function DearCommission(): Config {
    Config(1001.0, 1000.0, 0.0, 0.0, 1, 1.0, 1.0)
  }

  function Why(): map<nat, string> { map[0 := "half"] }

  function Towards(index: nat, open: real, cash: real, h: Holding): Rebalance
    requires SMALLEST_OPEN <= open && 0.0 <= h.quantity
  {
    RunRebalance(index, index, index - 1, [open], [0.5], Why(), DearCommission(), cash, [h])
  }

  lemma ConcreteWeights()
    ensures Weights([0.5], DearCommission()) == [0.5]
  {
    assert Clipped([0.5], DearCommission()) == [0.5];
    assert Sum([0.5], 1) == Sum([0.5], 0) + 0.5;
  }

  lemma ExactMoney(x: real, micros: int)
    requires x * MICRO == micros as real
    ensures Money(x) == x
  {
    HalfEvenOfInteger(micros);
  }

  lemma ExactPrice(open: real, ticks: int, side: Side)
    requires open * TICKS == ticks as real
    ensures ExecutionPrice(open, side, DearCommission()) == open
  {
    HalfEvenOfInteger(ticks);
    assert Multiplier(side, DearCommission()) == 1.0;
    assert open * 1.0 == open;
  }

  /** One rebalance of one symbol towards weight one half, unfolded. */
  lemma Unfold(index: nat, open: real, cash: real, h: Holding)
    requires SMALLEST_OPEN <= open && 0.0 <= h.quantity
    ensures var r := Towards(index, open, cash, h);
      var o := OrderFor(index, index, index - 1, [open], r.equity, [0.5], Why(), DearCommission());
      && r.equity == cash + h.quantity * open
      && r.weights == [0.5]
      && o.desired == [SharesFor(r.equity, 0.5, open)]
      && r.after == BuyStep(o, 0, SellStep(o, 0, Progress(cash, [h], [], [])))
  {
    hide SellStep, BuyStep, SharesFor, Weights;
    ConcreteWeights();
    assert Value([h], [open], 1) == Value([h], [open], 0) + h.quantity * open;
    var r := Towards(index, open, cash, h);
    var o := OrderFor(index, index, index - 1, [open], r.equity, [0.5], Why(), DearCommission());
    var p := Progress(cash, [h], [], []);
    assert SellPass(o, 1, p) == SellStep(o, 0, SellPass(o, 0, p));
    assert BuyPass(o, 1, SellPass(o, 1, p)) == BuyStep(o, 0, BuyPass(o, 0, SellPass(o, 1, p)));
  }

  /** 1001 in cash buys one share at 1 and pays 1000 commission. */
  lemma FirstBuy(h: Holding)
    requires h == Holding(0.0, 0.0, 0)
    ensures var r := Towards(1, 1.0, 1001.0, h);
      r.after.cash == 0.0 && r.after.holdings == [Holding(1.0, 1001.0, 1)]
  {
    hide Money, ExecutionPrice, Shares;
    Unfold(1, 1.0, 1001.0, h);
    ExactPrice(1.0, 100000000, Buy);
    ExactMoney(1.0, 1000000);
    WholeShares(500.5, 50050000000);
    WholeShares(1.0, 100000000);
  }

  lemma WholeShares(x: real, ticks: int)
    requires x * TICKS == ticks as real
    ensures Shares(x) == x
  {
    if x >= 0.0 { assert (x * TICKS).Floor == ticks; } else { assert (-(x * TICKS)).Floor == -ticks; }
  }

  /** At half the price, selling half a share brings in 0.25 and costs 1000. */
  lemma CostlySale(h: Holding)
    requires h == Holding(1.0, 1001.0, 1)
    ensures var r := Towards(2, 0.5, 0.0, h);
      r.after.cash == -999.75 && r.after.holdings == [Holding(0.5, 1001.0, 1)]
  {
    hide Money, ExecutionPrice, Shares;
    Unfold(2, 0.5, 0.0, h);
    ExactPrice(0.5, 50000000, Sell);
    ExactMoney(0.25, 250000);
    WholeShares(0.5, 50000000);
  }

  lemma ThirdOversells(h: Holding)
    requires h == Holding(0.5, 1001.0, 1)
    ensures var r := Towards(3, 0.5, -999.75, h); r.equity == -999.5 && Oversold(r.after.fills)
  {
    hide RunRebalance;
    var r := Towards(3, 0.5, -999.75, h);
    Unfold(3, 0.5, -999.75, h);
    OversellsIff(3, 3, 2, [0.5], [0.5], Why(), DearCommission(), -999.75, [h]);
    assert Part(r.equity, r.weights[0]) <= -SHARE_TICK * [0.5][0];
  }

  // ---------------------------------------------------------------- the run

  function HalfAlways(): Decision { Decision(Some(0.5), "long", 1.0, "half") }

  function BarAt(k: nat): Bar {
    var price := if k < 2 then 1.0 else 0.5;
    Bar(price, price, k, k)
  }

  /** One symbol over four bars that open at 1, 1, 0.5 and 0.5; the strategy always wants half. */
  function DearRun(): Setup {
    Setup(1, Market([0, 1, 2, 3], [[BarAt(0)], [BarAt(1)], [BarAt(2)], [BarAt(3)]], [1.0, 1.0, 1.0, 1.0]),
          (history, k) => HalfAlways(), DearCommission())
  }

  function Half(k: nat): Pending
    requires 0 < k
  {
    Pending(k, k - 1, k - 1, map[0 := 0.5], Why())
  }

  lemma DearRunValid()
    ensures DearRun().Valid()
  {}

  lemma BarOf(k: nat)
    requires k < 4
    ensures var m := DearRun().market; m.times[k] == k && m.bars[k] == [BarAt(k)] && m.Opens(k) == [BarAt(k).open]
  {}

  lemma SignalsOf(k: nat)
    requires k < 4
    ensures DearRun().Valid() && SignalsAt(DearRun(), k, 1) == [Signal(0, k, HalfAlways())]
  {
    DearRunValid();
    BarOf(k);
    var u := DearRun();
    assert DecisionAt(u, k, 0) == HalfAlways();
    assert SignalTime(u, k, 0) == k;
    assert SignalsAt(u, k, 0) == [];
  }

  lemma SchedulesHalf(k: nat)
    requires k < 3
    ensures DearRun().Valid() && Scheduled(DearRun(), k) == [Half(k + 1)]
  {
    hide SignalsAt;
    SignalsOf(k);
    BarOf(k + 1);
    var signals := [Signal(0, k, HalfAlways())];
    assert signals[..0] == [];
    assert Updates([]) == map[] && Reasons([]) == map[];
    assert Updates(signals) == map[0 := 0.5];
    assert Reasons(signals) == map[0 := "half"] == Why();
    assert EligibleIndex(DearRun().market.times, k + 1, k) == Some(k + 1);
  }

  /** The first bar trades nothing and schedules the first half. */
  lemma FirstBar()
    ensures DearRun().Valid()
    ensures var s := After(DearRun(), 1);
      s.cash == 1001.0 && s.holdings == [Holding(0.0, 0.0, 0)] && s.pending == [Half(1)] && s.journal == []
  {
    hide SnapshotAt, Scheduled, SignalsAt;
    DearRunValid();
    SchedulesHalf(0);
    var u := DearRun();
    assert After(u, 0) == Start(u);
    assert Filter(At(0), []) == [] && Filter(NotAt(0), []) == [];
    assert Start(u).holdings == [Holding(0.0, 0.0, 0)];
    assert TradePhase(u, 0, Start(u)) == Start(u);
  }

  /** A later bar fires the half that is due, towards which it rebalances, and nothing else. */
  lemma LaterBar(k: nat, cash: real, h: Holding)
    requires 1 <= k <= 3 && 0.0 <= h.quantity && DearRun().Valid()
    requires var s := After(DearRun(), k); s.cash == cash && s.holdings == [h] && s.pending == [Half(k)]
    ensures var s, s', r := After(DearRun(), k), After(DearRun(), k + 1), Towards(k, BarAt(k).open, cash, h);
      && s'.journal == s.journal + [r] && s'.cash == r.after.cash && s'.holdings == r.after.holdings
      && (k < 3 ==> s'.pending == [Half(k + 1)])
  {
    hide SnapshotAt, Scheduled, SignalsAt, TradePhase, Towards;
    TradesHalf(k, After(DearRun(), k), h);
    if k < 3 { SchedulesHalf(k); }
  }

  lemma TradesHalf(k: nat, s: Sim, h: Holding)
    requires 1 <= k <= 3 && 0.0 <= h.quantity && DearRun().Valid()
    requires s.Fits(1) && s.holdings == [h] && s.pending == [Half(k)]
    ensures var s', r := TradePhase(DearRun(), k, s), Towards(k, BarAt(k).open, s.cash, h);
      && s'.journal == s.journal + [r] && s'.cash == r.after.cash && s'.holdings == r.after.holdings && s'.pending == []
  {
    hide RunRebalance, Filter;
    var u := DearRun();
    BarOf(k);
    OnlyDue(k);
    assert FireAll(u, k, s, []) == s && [Half(k)][..0] == [];
    assert FireAll(u, k, s, [Half(k)]) == Fire(u, k, s, Half(k));
    assert Retarget(s.targets, Half(k).updates) == [0.5];
  }

  lemma OnlyDue(k: nat)
    requires 1 <= k
    ensures Filter(At(k), [Half(k)]) == [Half(k)] && Filter(NotAt(k), [Half(k)]) == []
  {
    assert [Half(k)][..0] == [];
    assert Filter(At(k), []) == [] && Filter(NotAt(k), []) == [];
  }

  /** A valid run, from the initial cash, whose fourth bar sells shares that are not held. */
  lemma OversellReachable()
    ensures DearRun().Valid()
    ensures exists r :: r in After(DearRun(), 4).journal && r.equity < 0.0 && Oversold(r.after.fills)
  {
    hide After, Towards;
    FirstBar();
    var h0, h1, h2 := Holding(0.0, 0.0, 0), Holding(1.0, 1001.0, 1), Holding(0.5, 1001.0, 1);
    FirstBuy(h0);
    LaterBar(1, 1001.0, h0);
    CostlySale(h1);
    LaterBar(2, 0.0, h1);
    ThirdOversells(h2);
    LaterBar(3, -999.75, h2);
    var r := Towards(3, 0.5, -999.75, h2);
    assert r in After(DearRun(), 4).journal;
  }
}
