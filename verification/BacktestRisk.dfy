/** What a rebalance does to risk: exposure caps, no sale of shares not held, and no value
    created, whenever equity at the open is nonnegative; and exactly when it oversells. */
module BacktestRisk {
  import opened Rounding
  import opened BacktestModel
  import opened BacktestAccounts

  // ---------------------------------------------------------------- target weights

  lemma {:induction false} SumBounds(xs: seq<real>, k: nat)
    requires k <= |xs| && forall i :: 0 <= i < |xs| ==> 0.0 <= xs[i]
    ensures 0.0 <= Sum(xs, k)
  {
    if k > 0 { SumBounds(xs, k - 1); }
  }

  lemma {:induction false} SumScaled(xs: seq<real>, ys: seq<real>, scale: real, k: nat)
    requires k <= |xs| == |ys| && forall i :: 0 <= i < |xs| ==> ys[i] == Scaled(xs[i], scale)
    ensures Sum(ys, k) == Scaled(Sum(xs, k), scale)
  {
    hide Scaled;
    if k == 0 {
      ScaledSum(0.0, 0.0, scale);
    } else {
      SumScaled(xs, ys, scale, k - 1);
      ScaledSum(Sum(xs, k - 1), xs[k - 1], scale);
    }
  }

  lemma ScaledSum(x: real, y: real, scale: real)
    ensures Scaled(x + y, scale) == Scaled(x, scale) + Scaled(y, scale)
    ensures Scaled(0.0, scale) == 0.0
  {}

  /** Capping and scaling keep every weight within the buffered position limit and their sum
      within the buffered exposure limit, whatever the strategy asked for. */
  lemma WeightsWithinLimits(targets: seq<real>, c: Config)
    requires c.Valid()
    ensures var w := Weights(targets, c);
      && (forall i :: 0 <= i < |w| ==> 0.0 <= w[i] <= c.PositionLimit())
      && Sum(w, |w|) <= c.ExposureLimit()
  {
    hide Scaled;
    var capped := Clipped(targets, c);
    var total := Sum(capped, |capped|);
    SumBounds(capped, |capped|);
    if total > c.ExposureLimit() {
      var w := Weights(targets, c);
      var scale := c.ExposureLimit() / total;
      ScaleDown(c.ExposureLimit(), total, scale);
      SumScaled(capped, w, scale, |w|);
      forall i | 0 <= i < |w| ensures 0.0 <= w[i] <= c.PositionLimit() { Shrink(capped[i], scale); }
    }
  }

  lemma ScaleDown(limit: real, total: real, scale: real)
    requires 0.0 <= limit < total && scale == limit / total
    ensures 0.0 <= scale <= 1.0 && Scaled(total, scale) == limit
  {}

  lemma Shrink(x: real, scale: real)
    requires 0.0 <= x && 0.0 <= scale <= 1.0
    ensures 0.0 <= Scaled(x, scale) <= x
  {}

  // ---------------------------------------------------------------- one execution

  /** At worst rounding gives back half a micro of what friction took. */
  lemma GrossAdverse(o: Order, symbol: nat, side: Side, quantity: real)
    requires o.Valid() && symbol < |o.opens| && OnMoneyGrid(o.opens[symbol]) && 0.0 <= quantity
    ensures var gross := Gross(quantity, ExecutionPrice(o.opens[symbol], side, o.config));
      if side.Buy? then quantity * o.opens[symbol] - HALF_MICRO <= gross
      else gross <= quantity * o.opens[symbol] + HALF_MICRO
  {
    hide Gross, ExecutionPrice;
    var open := o.opens[symbol];
    var price := ExecutionPrice(open, side, o.config);
    PriceAdverse(open, side, o.config);
    GrossBetween(quantity, open, price);
  }

  lemma GrossNearest(quantity: real, price: real)
    ensures quantity * price - HALF_MICRO <= Gross(quantity, price) <= quantity * price + HALF_MICRO
  {
    MoneyNearest(quantity * price);
  }

  lemma GrossBetween(quantity: real, open: real, price: real)
    requires 0.0 <= quantity
    ensures open <= price ==> quantity * open - HALF_MICRO <= Gross(quantity, price)
    ensures price <= open ==> Gross(quantity, price) <= quantity * open + HALF_MICRO
  {
    hide Gross;
    GrossNearest(quantity, price);
    assert open <= price ==> quantity * open <= quantity * price by {
      if open <= price { Scale(quantity, open, price); }
    }
    assert price <= open ==> quantity * price <= quantity * open by {
      if price <= open { Scale(quantity, price, open); }
    }
  }

  lemma PriceAdverse(open: real, side: Side, c: Config)
    requires c.Valid() && OnMoneyGrid(open) && 0.0 <= open
    ensures if side.Buy? then open <= ExecutionPrice(open, side, c) else ExecutionPrice(open, side, c) <= open
  {
    QuoteAdverse(open, Multiplier(side, c));
  }

  lemma QuoteAdverse(open: real, multiplier: real)
    requires OnMoneyGrid(open) && 0.0 <= open
    ensures 1.0 <= multiplier ==> open <= Quote(open, multiplier)
    ensures multiplier <= 1.0 ==> Quote(open, multiplier) <= open
  {
    hide Price;
    PriceBounds(open * multiplier, open);
    if 1.0 <= multiplier { Scale(open, 1.0, multiplier); }
    if multiplier <= 1.0 { Scale(open, multiplier, 1.0); }
  }

  lemma Scale(x: real, y: real, z: real)
    requires 0.0 <= x && y <= z
    ensures x * y <= x * z
  {}

  // ---------------------------------------------------------------- orderly rebalances

  /** Every fill so far was for shares that could be traded, and left at most a tick behind. */
  ghost predicate Orderly(o: Order, p: Progress) {
    forall f :: f in p.fills ==>
      && 0.0 < f.trade.quantity
      && 0.0 <= f.residual <= SHARE_TICK
  }

  /** Marked at the open, nothing was gained beyond rounding, and fees were lost. */
  ghost predicate NoGain(o: Order, p0: Progress, p: Progress)
    requires |p0.holdings| == |p.holdings| == |o.opens|
  {
    p.cash + Value(p.holdings, o.opens, |o.opens|)
      <= p0.cash + Value(p0.holdings, o.opens, |o.opens|) - Total(Fee, p.fills) + HALF_MICRO * |p.fills| as real
  }

  ghost predicate Sound(o: Order, p0: Progress, p: Progress)
    requires |p0.holdings| == |p.holdings| == |o.opens|
  {
    Orderly(o, p) && ((forall i :: 0 <= i < |o.opens| ==> OnMoneyGrid(o.opens[i])) ==> NoGain(o, p0, p))
  }

  lemma StepSound(o: Order, symbol: nat, side: Side, quantity: real, p0: Progress, p: Progress,
                  p': Progress, e: Executed)
    requires o.Valid() && |p0.holdings| == |p.holdings| == |o.opens|
    requires Step(o, symbol, side, quantity, p, p', e) && Sound(o, p0, p)
    requires side.Sell? ==> quantity <= p.holdings[symbol].quantity
    requires e.fill.residual == 0.0 || e.fill.residual == p.holdings[symbol].quantity - quantity
    requires e.fill.trade.grossValue == Gross(quantity, ExecutionPrice(o.opens[symbol], side, o.config))
    ensures Sound(o, p0, p')
  {
    hide Gross, ExecutionPrice, Conserves, Total, Value, NoGain, OnMoneyGrid;
    if forall i :: 0 <= i < |o.opens| ==> OnMoneyGrid(o.opens[i]) {
      StepNoGain(o, symbol, side, quantity, p0, p, p', e);
    }
  }

  lemma StepNoGain(o: Order, symbol: nat, side: Side, quantity: real, p0: Progress, p: Progress,
                   p': Progress, e: Executed)
    requires o.Valid() && |p0.holdings| == |p.holdings| == |o.opens|
    requires Step(o, symbol, side, quantity, p, p', e) && NoGain(o, p0, p) && OnMoneyGrid(o.opens[symbol])
    requires 0.0 <= e.fill.residual
    requires e.fill.trade.grossValue == Gross(quantity, ExecutionPrice(o.opens[symbol], side, o.config))
    ensures NoGain(o, p0, p')
  {
    hide Gross, ExecutionPrice, Conserves, Total, Value, OnMoneyGrid, Marked, Worth;
    var open := o.opens[symbol];
    GrossMarked(o, symbol, side, quantity);
    HoldingWorth(side, p.holdings[symbol].quantity, quantity, e.fill.residual, open);
    ValueWorth(p.holdings, o.opens, symbol, e.holding);
    TotalSnoc(Fee, p.fills, e.fill);
    NoGainAfter(side, p.cash, Worth(p.holdings, o.opens), Worth(p0.holdings, o.opens) + p0.cash,
                Total(Fee, p.fills), |p.fills|, e.fill.trade.grossValue, e.fill.trade.fees,
                Marked(quantity, open), Worth(p'.holdings, o.opens));
    assert |p'.fills| == |p.fills| + 1;
  }

  /** A quantity at a price, kept as one term. */
  ghost function Marked(quantity: real, open: real): real { quantity * open }

  ghost function Worth(hs: seq<Holding>, opens: seq<real>): (v: real)
    requires |hs| == |opens|
    ensures v == Value(hs, opens, |opens|)
  {
    Value(hs, opens, |opens|)
  }

  lemma GrossMarked(o: Order, symbol: nat, side: Side, quantity: real)
    requires o.Valid() && symbol < |o.opens| && OnMoneyGrid(o.opens[symbol]) && 0.0 <= quantity
    ensures var gross := Gross(quantity, ExecutionPrice(o.opens[symbol], side, o.config));
      if side.Buy? then Marked(quantity, o.opens[symbol]) - HALF_MICRO <= gross
      else gross <= Marked(quantity, o.opens[symbol]) + HALF_MICRO
  {
    hide Gross, ExecutionPrice;
    GrossAdverse(o, symbol, side, quantity);
  }

  lemma HoldingWorth(side: Side, held: real, quantity: real, residual: real, open: real)
    requires 0.0 <= open && 0.0 <= residual
    ensures side.Buy? ==> Marked(held + quantity, open) == Marked(held, open) + Marked(quantity, open)
    ensures side.Sell? ==> Marked(held - quantity - residual, open) <= Marked(held, open) - Marked(quantity, open)
  {
    assert 0.0 <= residual * open;
  }

  lemma ValueWorth(hs: seq<Holding>, opens: seq<real>, i: nat, h: Holding)
    requires i < |hs| == |opens|
    ensures Worth(hs[i := h], opens) == Worth(hs, opens)
      + Marked(h.quantity, opens[i]) - Marked(hs[i].quantity, opens[i])
  {
    ValueUpdate(hs, opens, i, h, |opens|);
  }

  lemma NoGainAfter(side: Side, cash: real, value: real, start: real, fees: real, n: nat, gross: real, fee: real,
                    moved: real, value': real)
    requires cash + value <= start - fees + HALF_MICRO * n as real
    requires if side.Buy? then moved - HALF_MICRO <= gross else gross <= moved + HALF_MICRO
    requires if side.Buy? then value' <= value + moved else value' <= value - moved
    ensures (if side.Buy? then cash - (gross + fee) else cash + (gross - fee)) + value'
         <= start - (fees + fee) + HALF_MICRO * (n + 1) as real
  {}

  /** The first `k` symbols hold at most what is desired. */
  ghost predicate AtMostDesired(o: Order, k: nat, p: Progress)
    requires k <= |o.opens| == |o.desired| == |p.holdings|
  {
    forall i :: 0 <= i < k ==> p.holdings[i].quantity <= o.desired[i]
  }

  lemma SellStepSound(o: Order, symbol: nat, p0: Progress, p: Progress)
    requires o.Valid() && symbol < |o.opens| == |p0.holdings| == |p.holdings| && Long(p.holdings)
    requires 0.0 <= o.desired[symbol] && Sound(o, p0, p)
    ensures var p' := SellStep(o, symbol, p);
      && Sound(o, p0, p') && p'.holdings[symbol].quantity <= o.desired[symbol]
      && forall i :: 0 <= i < |o.opens| && i != symbol ==> p'.holdings[i] == p.holdings[i]
  {
    hide Gross, ExecutionPrice, Money, Conserves, NoGain, Orderly;
    var e := SellStepKind(o, symbol, p);
    var quantity := p.holdings[symbol].quantity - o.desired[symbol];
    if 0.0 < quantity {
      StepSound(o, symbol, Sell, quantity, p0, p, SellStep(o, symbol, p), e);
    }
  }

  lemma {:induction false} SellPassSound(o: Order, k: nat, p0: Progress)
    requires o.Valid() && k <= |o.opens| == |p0.holdings| && Long(p0.holdings) && p0.fills == []
    requires forall i :: 0 <= i < |o.desired| ==> 0.0 <= o.desired[i]
    ensures var p := SellPass(o, k, p0);
      && Sound(o, p0, p) && AtMostDesired(o, k, p)
      && forall i :: k <= i < |o.opens| ==> p.holdings[i] == p0.holdings[i]
  {
    hide SellStep;
    if k > 0 {
      SellPassSound(o, k - 1, p0);
      SellStepSound(o, k - 1, p0, SellPass(o, k - 1, p0));
    }
  }

  lemma BuyAtMostWanted(o: Order, symbol: nat, p: Progress)
    requires o.Valid() && symbol < |o.opens| == |p.holdings|
    requires p.holdings[symbol].quantity < o.desired[symbol]
    ensures BuyQuantity(o, symbol, p) <= o.desired[symbol] - p.holdings[symbol].quantity
  {
    hide Shares, ExecutionPrice;
    var price := ExecutionPrice(o.opens[symbol], Buy, o.config);
    var wanted := o.desired[symbol] - p.holdings[symbol].quantity;
    ExecutionPricePositive(o.opens[symbol], Buy, o.config);
    var affordable := Max(p.cash - o.config.commission, 0.0) / price;
    SharesBounds(affordable);
    if wanted * price + o.config.commission > p.cash {
      assert affordable * price <= wanted * price;
    }
  }

  lemma BuyStepSound(o: Order, symbol: nat, p0: Progress, p: Progress)
    requires o.Valid() && symbol < |o.opens| == |p0.holdings| == |p.holdings| && Long(p.holdings)
    requires Sound(o, p0, p) && p.holdings[symbol].quantity <= o.desired[symbol]
    ensures var p' := BuyStep(o, symbol, p);
      && Sound(o, p0, p') && p'.holdings[symbol].quantity <= o.desired[symbol]
      && forall i :: 0 <= i < |o.opens| && i != symbol ==> p'.holdings[i] == p.holdings[i]
  {
    hide Gross, ExecutionPrice, Money, BuyQuantity, Conserves, NoGain, Orderly;
    var e := BuyStepKind(o, symbol, p);
    var quantity := BuyQuantity(o, symbol, p);
    if p.holdings[symbol].quantity < o.desired[symbol] && 0.0 < quantity {
      BuyAtMostWanted(o, symbol, p);
      StepSound(o, symbol, Buy, quantity, p0, p, BuyStep(o, symbol, p), e);
    } else {
      IdleSound(o, p0, p, BuyStep(o, symbol, p));
    }
  }

  lemma IdleSound(o: Order, p0: Progress, p: Progress, p': Progress)
    requires |p0.holdings| == |p.holdings| == |o.opens| && Idle(p, p') && Sound(o, p0, p)
    ensures Sound(o, p0, p')
  {}

  lemma {:induction false} BuyPassSound(o: Order, k: nat, p0: Progress, sold: Progress)
    requires o.Valid() && k <= |o.opens| == |p0.holdings| == |sold.holdings| && Long(sold.holdings)
    requires Sound(o, p0, sold) && AtMostDesired(o, |o.opens|, sold)
    ensures var p := BuyPass(o, k, sold);
      Sound(o, p0, p) && AtMostDesired(o, |o.opens|, p)
  {
    hide BuyStep, Sound;
    if k > 0 {
      BuyPassSound(o, k - 1, p0, sold);
      BuyStepSound(o, k - 1, p0, BuyPass(o, k - 1, sold));
    }
  }

  // ---------------------------------------------------------------- whole rebalances

  /** `quantity` shares at `open` cost at most the fraction `part` of `equity`. */
  ghost predicate WithinPart(quantity: real, open: real, equity: real, part: real) {
    quantity * open <= Part(equity, part)
  }

  ghost function Part(equity: real, part: real): real { equity * part }

  /** What is desired costs at most the weight's part of equity, and is negative exactly when
      that part is at least one share tick's worth below zero. */
  lemma SharesForBounds(equity: real, weight: real, open: real)
    requires 0.0 < open
    ensures 0.0 <= equity && 0.0 <= weight ==>
      && 0.0 <= SharesFor(equity, weight, open) && WithinPart(SharesFor(equity, weight, open), open, equity, weight)
      && !WithinPart(SharesFor(equity, weight, open) + SHARE_TICK, open, equity, weight)
    ensures SharesFor(equity, weight, open) < 0.0 <==> Part(equity, weight) <= -SHARE_TICK * open
  {
    var money := equity * weight;
    if 0.0 <= equity && 0.0 <= weight { assert 0.0 <= money; }
    AffordableBounds(money, open);
  }

  lemma AffordableBounds(money: real, open: real)
    requires 0.0 < open
    ensures 0.0 <= money ==>
      0.0 <= Shares(money / open) && Shares(money / open) * open <= money < (Shares(money / open) + SHARE_TICK) * open
    ensures Shares(money / open) < 0.0 <==> money <= -SHARE_TICK * open
  {
    hide Shares;
    var ratio := money / open;
    assert ratio * open == money;
    SharesBounds(ratio);
    if 0.0 <= money {
      assert 0.0 <= ratio;
      Quotient(money, open, Shares(ratio));
      Above(money, open, Shares(ratio) + SHARE_TICK);
    }
    BelowTick(ratio, money, open);
  }

  lemma Above(x: real, y: real, q: real)
    requires 0.0 < y && x / y < q
    ensures x < q * y
  {
    assert x / y * y == x;
    assert (q - x / y) * y > 0.0;
  }

  lemma BelowTick(ratio: real, money: real, open: real)
    requires 0.0 < open && ratio * open == money
    ensures ratio <= -SHARE_TICK <==> money <= -SHARE_TICK * open
  {
    var gap := ratio + SHARE_TICK;
    assert gap * open == money + SHARE_TICK * open;
    assert gap <= 0.0 <==> gap * open <= 0.0;
  }

  lemma {:induction false} ValueWithin(hs: seq<Holding>, opens: seq<real>, weights: seq<real>, equity: real, k: nat)
    requires k <= |hs| == |opens| == |weights|
    requires forall i :: 0 <= i < |hs| ==> WithinPart(hs[i].quantity, opens[i], equity, weights[i])
    ensures Value(hs, opens, k) <= Part(equity, Sum(weights, k))
  {
    if k > 0 {
      ValueWithin(hs, opens, weights, equity, k - 1);
      assert WithinPart(hs[k - 1].quantity, opens[k - 1], equity, weights[k - 1]);
      assert equity * (Sum(weights, k - 1) + weights[k - 1])
          == equity * Sum(weights, k - 1) + equity * weights[k - 1];
    }
  }

  ghost predicate WellFormed(r: Rebalance) {
    && |r.opens| == |r.weights| == |r.before| == |r.after.holdings|
    && r.equity == r.cashBefore + Value(r.before, r.opens, |r.opens|)
  }

  /** At the opens it traded at, no position and no portfolio exceeds its buffered limit. */
  ghost predicate Capped(r: Rebalance, c: Config)
    requires WellFormed(r)
  {
    && (forall i :: 0 <= i < |r.opens| ==>
          WithinPart(r.after.holdings[i].quantity, r.opens[i], r.equity, c.PositionLimit()))
    && Value(r.after.holdings, r.opens, |r.opens|) <= Part(r.equity, c.ExposureLimit())
  }

  /** A rebalance with nonnegative equity at the open respects the caps, sells only shares it
      holds, leaves at most a tick behind, and creates no value. */
  ghost predicate Prudent(r: Rebalance, c: Config) {
    && WellFormed(r)
    && (r.equity >= 0.0 ==>
          && Capped(r, c)
          && (forall f :: f in r.after.fills ==> 0.0 < f.trade.quantity && 0.0 <= f.residual <= SHARE_TICK)
          && ((forall i :: 0 <= i < |r.opens| ==> OnMoneyGrid(r.opens[i])) ==>
                r.after.cash + Value(r.after.holdings, r.opens, |r.opens|)
                  <= r.equity - Total(Fee, r.after.fills) + HALF_MICRO * |r.after.fills| as real))
  }

  lemma RebalancePrudent(index: nat, time: int, signalTime: int, opens: seq<real>, targets: seq<real>,
                         reasons: map<nat, string>, c: Config, cash: real, holdings: seq<Holding>)
    requires c.Valid() && |targets| == |opens| == |holdings| && Long(holdings)
    requires forall i :: 0 <= i < |opens| ==> SMALLEST_OPEN <= opens[i]
    ensures Prudent(RunRebalance(index, time, signalTime, opens, targets, reasons, c, cash, holdings), c)
  {
    hide WithinPart, Part, SharesFor, Weights, SellPass, BuyPass, Sound, Capped, Prudent;
    var r := RunRebalance(index, time, signalTime, opens, targets, reasons, c, cash, holdings);
    var o := OrderFor(index, time, signalTime, opens, r.equity, r.weights, reasons, c);
    var p0 := Progress(cash, holdings, [], []);
    if r.equity >= 0.0 {
      WeightsWithinLimits(targets, c);
      forall i | 0 <= i < |opens|
        ensures 0.0 <= o.desired[i] && WithinPart(o.desired[i], opens[i], r.equity, r.weights[i])
      {
        SharesForBounds(r.equity, r.weights[i], opens[i]);
      }
      NothingSound(o, p0);
      SellPassSound(o, |opens|, p0);
      BuyPassSound(o, |opens|, p0, SellPass(o, |opens|, p0));
      HeldWithinCaps(r, o.desired, c);
    }
    PrudentFrom(o, p0, r, c);
  }

  lemma NothingSound(o: Order, p0: Progress)
    requires |p0.holdings| == |o.opens| && p0.fills == []
    ensures Sound(o, p0, p0)
  {}

  lemma PrudentFrom(o: Order, p0: Progress, r: Rebalance, c: Config)
    requires WellFormed(r) && o.opens == r.opens && |p0.holdings| == |r.opens|
    requires p0.cash == r.cashBefore && p0.holdings == r.before
    requires r.equity >= 0.0 ==> Sound(o, p0, r.after) && Capped(r, c)
    ensures Prudent(r, c)
  {
    hide Capped, Total, Value;
  }

  lemma HeldWithinCaps(r: Rebalance, desired: seq<real>, c: Config)
    requires WellFormed(r) && |desired| == |r.opens| && 0.0 <= r.equity
    requires forall i :: 0 <= i < |desired| ==> 0.0 < r.opens[i] && r.after.holdings[i].quantity <= desired[i]
    requires forall i :: 0 <= i < |desired| ==> WithinPart(desired[i], r.opens[i], r.equity, r.weights[i])
    requires forall i :: 0 <= i < |desired| ==> 0.0 <= r.weights[i] <= c.PositionLimit()
    requires Sum(r.weights, |r.weights|) <= c.ExposureLimit()
    ensures Capped(r, c)
  {
    hide WithinPart, Part;
    forall i | 0 <= i < |desired|
      ensures WithinPart(r.after.holdings[i].quantity, r.opens[i], r.equity, r.weights[i])
      ensures WithinPart(r.after.holdings[i].quantity, r.opens[i], r.equity, c.PositionLimit())
    {
      PositionWithin(r.after.holdings[i].quantity, desired[i], r.opens[i], r.equity, r.weights[i], c.PositionLimit());
    }
    ValueWithin(r.after.holdings, r.opens, r.weights, r.equity, |r.opens|);
    PartMonotone(r.equity, Sum(r.weights, |r.weights|), c.ExposureLimit());
  }

  lemma PartMonotone(equity: real, x: real, y: real)
    requires 0.0 <= equity && x <= y
    ensures Part(equity, x) <= Part(equity, y)
  {
    Scale(equity, x, y);
  }

  lemma PositionWithin(held: real, desired: real, open: real, equity: real, weight: real, limit: real)
    requires held <= desired && 0.0 < open && WithinPart(desired, open, equity, weight)
    requires 0.0 <= equity && weight <= limit
    ensures WithinPart(held, open, equity, weight) && WithinPart(held, open, equity, limit)
  {
    Scale(open, held, desired);
    Scale(equity, weight, limit);
  }

  // ---------------------------------------------------------------- overselling

  ghost predicate Oversold(fills: seq<Fill>) {
    exists f :: f in fills && f.residual < 0.0
  }

  lemma {:induction false} SellPassOversells(o: Order, k: nat, p0: Progress)
    requires o.Valid() && k <= |o.opens| == |p0.holdings| && Long(p0.holdings) && p0.fills == []
    ensures var p := SellPass(o, k, p0);
      && (Oversold(p.fills) <==> exists i :: 0 <= i < k && o.desired[i] < 0.0)
      && forall i :: k <= i < |o.opens| ==> p.holdings[i] == p0.holdings[i]
  {
    hide Gross, ExecutionPrice, Money;
    if k > 0 {
      SellPassOversells(o, k - 1, p0);
      var p := SellPass(o, k - 1, p0);
      var p' := SellStep(o, k - 1, p);
      if o.desired[k - 1] < p.holdings[k - 1].quantity {
        var quantity := p.holdings[k - 1].quantity - o.desired[k - 1];
        var e := Execute(o, k - 1, Sell, quantity, p.cash, p.holdings[k - 1]);
        assert p'.fills == p.fills + [e.fill];
        assert e.fill.residual < 0.0 <==> o.desired[k - 1] < 0.0;
        assert e.fill in p'.fills;
      }
    }
  }

  lemma {:induction false} BuyPassNeverOversells(o: Order, k: nat, sold: Progress)
    requires o.Valid() && k <= |o.opens| == |sold.holdings| && Long(sold.holdings)
    ensures Oversold(BuyPass(o, k, sold).fills) <==> Oversold(sold.fills)
  {
    hide Gross, ExecutionPrice, Money, BuyQuantity;
    if k > 0 {
      BuyPassNeverOversells(o, k - 1, sold);
      var p := BuyPass(o, k - 1, sold);
      var p' := BuyStep(o, k - 1, p);
      if p'.fills != p.fills {
        var e := Execute(o, k - 1, Buy, BuyQuantity(o, k - 1, p), p.cash, p.holdings[k - 1]);
        assert p'.fills == p.fills + [e.fill];
        assert forall f :: f in p.fills ==> f in p'.fills;
      }
    }
  }

  /** The engine calls itself long-only.  It sells shares it does not hold exactly when equity
      at the open, times some target weight, is at least one share tick below zero. */
  lemma OversellsIff(index: nat, time: int, signalTime: int, opens: seq<real>, targets: seq<real>,
                     reasons: map<nat, string>, c: Config, cash: real, holdings: seq<Holding>)
    requires c.Valid() && |targets| == |opens| == |holdings| && Long(holdings)
    requires forall i :: 0 <= i < |opens| ==> SMALLEST_OPEN <= opens[i]
    ensures var r := RunRebalance(index, time, signalTime, opens, targets, reasons, c, cash, holdings);
      Oversold(r.after.fills) <==>
      exists i :: 0 <= i < |opens| && Part(r.equity, r.weights[i]) <= -SHARE_TICK * opens[i]
  {
    hide WithinPart, Part, SharesFor, Weights, Money, Gross, ExecutionPrice, BuyQuantity;
    var r := RunRebalance(index, time, signalTime, opens, targets, reasons, c, cash, holdings);
    var o := OrderFor(index, time, signalTime, opens, r.equity, r.weights, reasons, c);
    var p0 := Progress(cash, holdings, [], []);
    SellPassOversells(o, |opens|, p0);
    BuyPassNeverOversells(o, |opens|, SellPass(o, |opens|, p0));
    forall i | 0 <= i < |opens|
      ensures o.desired[i] < 0.0 <==> Part(r.equity, r.weights[i]) <= -SHARE_TICK * opens[i]
    {
      SharesForBounds(r.equity, r.weights[i], opens[i]);
    }
  }
}
