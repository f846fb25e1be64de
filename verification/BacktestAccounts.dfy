/** Accounting laws of the engine: what one execution, one rebalance and a whole run do to
    cash, shares and cost basis. */
module BacktestAccounts {
  import opened Rounding
  import opened BacktestModel

  // ---------------------------------------------------------------- amounts of a fill

  function Realized(f: Fill): real { f.realized }

  function WrittenBasis(f: Fill): real { f.residualBasis }

  /** How far a sale's fee exceeds its proceeds. */
  function Shortfall(f: Fill): real {
    if f.trade.side.Sell? then Max(0.0, f.trade.fees - f.trade.grossValue) else 0.0
  }

  function Bought(symbol: nat): Fill -> real {
    (f: Fill) => if f.trade.symbol == symbol && f.trade.side.Buy? then f.trade.quantity else 0.0
  }

  function Sold(symbol: nat): Fill -> real {
    (f: Fill) => if f.trade.symbol == symbol && f.trade.side.Sell? then f.trade.quantity else 0.0
  }

  function WrittenOff(symbol: nat): Fill -> real {
    (f: Fill) => if f.trade.symbol == symbol then f.residual else 0.0
  }

  lemma {:induction false} TotalConcat(amount: Fill -> real, xs: seq<Fill>, ys: seq<Fill>)
    ensures Total(amount, xs + ys) == Total(amount, xs) + Total(amount, ys)
  {
    if ys == [] {
      assert xs + ys == xs;
    } else {
      var front := ys[..|ys| - 1];
      assert (xs + ys)[..|xs + ys| - 1] == xs + front;
      TotalConcat(amount, xs, front);
    }
  }

  lemma TotalSnoc(amount: Fill -> real, xs: seq<Fill>, f: Fill)
    ensures Total(amount, xs + [f]) == Total(amount, xs) + amount(f)
  {
    assert (xs + [f])[..|xs|] == xs;
  }

  /** Cost basis of the first `k` holdings. */
  function Basis(hs: seq<Holding>, k: nat): real
    requires k <= |hs|
  {
    if k == 0 then 0.0 else Basis(hs, k - 1) + hs[k - 1].quantity * hs[k - 1].averageCost
  }

  lemma {:induction false} BasisUpdate(hs: seq<Holding>, i: nat, h: Holding, k: nat)
    requires i < |hs| && k <= |hs|
    ensures Basis(hs[i := h], k) == Basis(hs, k) +
      if i < k then h.quantity * h.averageCost - hs[i].quantity * hs[i].averageCost else 0.0
  {
    if k > 0 { BasisUpdate(hs, i, h, k - 1); }
  }

  lemma {:induction false} ValueUpdate(hs: seq<Holding>, prices: seq<real>, i: nat, h: Holding, k: nat)
    requires i < |hs| == |prices| && k <= |hs|
    ensures Value(hs[i := h], prices, k) == Value(hs, prices, k) +
      if i < k then h.quantity * prices[i] - hs[i].quantity * prices[i] else 0.0
  {
    if k > 0 { ValueUpdate(hs, prices, i, h, k - 1); }
  }

  // ---------------------------------------------------------------- one execution

  /** What every execution guarantees, whatever its price: its record names the order, cash
      moves by gross and fee, and shares are conserved up to the written-off remainder. */
  ghost predicate Settles(o: Order, symbol: nat, side: Side, quantity: real, cash: real, h: Holding, e: Executed) {
    var t := e.fill.trade;
    && t.symbol == symbol && t.side == side && t.quantity == quantity
    && t.fees == o.config.commission
    && t.signalTime == o.signalTime && t.executionTime == o.time
    && OnMoneyGrid(t.grossValue)
    && (o.Valid() && 0.0 <= quantity ==> 0.0 <= t.grossValue)
    && e.cash == (if side.Buy? then cash - (t.grossValue + t.fees) else cash + (t.grossValue - t.fees))
    && e.holding.quantity
         == (if side.Buy? then h.quantity + quantity else h.quantity - quantity - e.fill.residual)
    && (e.fill.residual != 0.0 ==> side.Sell? && e.fill.residual <= SHARE_TICK && e.holding.quantity == 0.0)
  }

  /** Cash plus cost basis changes by exactly the realized profit less the written-off basis. */
  ghost predicate Conserves(cash: real, h: Holding, e: Executed) {
    e.cash + e.holding.quantity * e.holding.averageCost + e.fill.residualBasis
      == cash + h.quantity * h.averageCost + e.fill.realized
  }

  lemma SettleConserves(o: Order, side: Side, quantity: real, gross: real, cash: real, h: Holding)
    requires side.Buy? ==> h.quantity + quantity != 0.0
    ensures var s := Settle(o, side, quantity, gross, cash, h);
      s.cash + s.holding.quantity * s.holding.averageCost + s.residualBasis
        == cash + h.quantity * h.averageCost + s.realized
  {
    if side.Buy? {
      Spread(h.quantity + quantity, h.quantity * h.averageCost + gross + o.config.commission);
    } else {
      assert (h.quantity - quantity) * h.averageCost
          == h.quantity * h.averageCost - quantity * h.averageCost;
    }
  }

  lemma ExecuteSettles(o: Order, symbol: nat, side: Side, quantity: real, cash: real, h: Holding)
    requires symbol < |o.opens|
    requires side.Buy? ==> h.quantity + quantity != 0.0
    ensures Settles(o, symbol, side, quantity, cash, h, Execute(o, symbol, side, quantity, cash, h))
    ensures Conserves(cash, h, Execute(o, symbol, side, quantity, cash, h))
  {
    hide Money, Gross, ExecutionPrice;
    var price := ExecutionPrice(o.opens[symbol], side, o.config);
    GrossOnGrid(quantity, price);
    if o.Valid() && 0.0 <= quantity {
      ExecutionPricePositive(o.opens[symbol], side, o.config);
      GrossNonnegative(quantity, price);
    }
    SettleConserves(o, side, quantity, Gross(quantity, price), cash, h);
  }

  lemma GrossOnGrid(quantity: real, price: real)
    ensures OnMoneyGrid(Gross(quantity, price))
  {
    MoneyNearest(quantity * price);
  }

  lemma GrossNonnegative(quantity: real, price: real)
    requires 0.0 <= quantity && 0.0 <= price
    ensures 0.0 <= Gross(quantity, price)
  {
    assert 0.0 <= quantity * price;
    MoneyNonnegative(quantity * price);
  }

  lemma GrossWithinBudget(quantity: real, price: real, budget: real)
    requires quantity * price <= budget && OnMoneyGrid(budget)
    ensures Gross(quantity, price) <= budget
  {
    MoneyWithinBudget(quantity * price, budget);
  }

  lemma Spread(shares: real, cost: real)
    requires shares != 0.0
    ensures shares * (cost / shares) == cost
  {}

  /** A buy only spends cash it has. */
  lemma BuyAffordable(o: Order, symbol: nat, p: Progress)
    requires o.Valid() && symbol < |o.opens| == |p.holdings|
    requires OnMoneyGrid(o.config.commission) && OnMoneyGrid(p.cash)
    requires 0.0 < BuyQuantity(o, symbol, p)
    ensures var price := ExecutionPrice(o.opens[symbol], Buy, o.config);
      0.0 <= p.cash - (Gross(BuyQuantity(o, symbol, p), price) + o.config.commission)
  {
    hide Gross, ExecutionPrice, Required, Affordable, OnMoneyGrid;
    var price := ExecutionPrice(o.opens[symbol], Buy, o.config);
    var wanted := o.desired[symbol] - p.holdings[symbol].quantity;
    ExecutionPricePositive(o.opens[symbol], Buy, o.config);
    if Required(wanted, price, o.config) > p.cash {
      AffordableFits(p.cash, price, o.config);
    } else {
      RequiredFits(p.cash, wanted, price, o.config);
    }
  }

  lemma RequiredFits(cash: real, quantity: real, price: real, c: Config)
    requires Required(quantity, price, c) <= cash && OnMoneyGrid(cash) && OnMoneyGrid(c.commission)
    ensures Gross(quantity, price) <= cash - c.commission
  {
    hide Gross;
    GridSum(cash, c.commission);
    GrossWithinBudget(quantity, price, cash - c.commission);
  }

  lemma AffordableFits(cash: real, price: real, c: Config)
    requires 0.0 < price && OnMoneyGrid(cash) && OnMoneyGrid(c.commission) && 0.0 < Affordable(cash, price, c)
    ensures Gross(Affordable(cash, price, c), price) <= cash - c.commission
  {
    hide Gross, Shares;
    GridSum(cash, c.commission);
    CutToBudget(cash - c.commission, price);
    GrossWithinBudget(Affordable(cash, price, c), price, cash - c.commission);
  }

  lemma CutToBudget(budget: real, price: real)
    requires 0.0 < price
    ensures var quantity := Shares(Max(budget, 0.0) / price);
      0.0 < quantity ==> quantity * price <= budget
  {
    var affordable := Max(budget, 0.0) / price;
    SharesBounds(affordable);
    Quotient(Max(budget, 0.0), price, Shares(affordable));
  }

  lemma Quotient(x: real, y: real, q: real)
    requires 0.0 < y && q <= x / y
    ensures q * y <= x
  {
    assert x / y * y == x;
    assert q * y <= x / y * y;
  }

  // ---------------------------------------------------------------- one rebalance step

  /** `p'` books the execution `e` of an order for a positive quantity. */
  ghost predicate Step(o: Order, symbol: nat, side: Side, quantity: real, p: Progress, p': Progress, e: Executed)
  {
    && symbol < |p.holdings|
    && 0.0 < quantity
    && Settles(o, symbol, side, quantity, p.cash, p.holdings[symbol], e)
    && Conserves(p.cash, p.holdings[symbol], e)
    && p' == Book(p, symbol, e)
  }

  ghost predicate Idle(p: Progress, p': Progress) {
    p' == p.(rejections := p'.rejections)
  }

  lemma SellStepKind(o: Order, symbol: nat, p: Progress) returns (e: Executed)
    requires o.Valid() && symbol < |o.opens| == |p.holdings| && Long(p.holdings)
    ensures var p' := SellStep(o, symbol, p);
      if o.desired[symbol] >= p.holdings[symbol].quantity then Idle(p, p')
      else
        && e == Execute(o, symbol, Sell, p.holdings[symbol].quantity - o.desired[symbol], p.cash, p.holdings[symbol])
        && Step(o, symbol, Sell, p.holdings[symbol].quantity - o.desired[symbol], p, p', e)
  {
    hide Money, Gross, ExecutionPrice;
    var h := p.holdings[symbol];
    e := Execute(o, symbol, Sell, h.quantity - o.desired[symbol], p.cash, h);
    ExecuteSettles(o, symbol, Sell, h.quantity - o.desired[symbol], p.cash, h);
  }

  lemma BuyStepKind(o: Order, symbol: nat, p: Progress) returns (e: Executed)
    requires o.Valid() && symbol < |o.opens| == |p.holdings| && Long(p.holdings)
    ensures var p' := BuyStep(o, symbol, p);
      if o.desired[symbol] <= p.holdings[symbol].quantity || BuyQuantity(o, symbol, p) <= 0.0
      then Idle(p, p')
      else
        && e == Execute(o, symbol, Buy, BuyQuantity(o, symbol, p), p.cash, p.holdings[symbol])
        && Step(o, symbol, Buy, BuyQuantity(o, symbol, p), p, p', e)
        && (OnMoneyGrid(o.config.commission) && OnMoneyGrid(p.cash) ==> 0.0 <= e.cash)
  {
    hide Money, Gross, ExecutionPrice;
    var h := p.holdings[symbol];
    var quantity := BuyQuantity(o, symbol, p);
    e := Execute(o, symbol, Buy, if 0.0 < quantity then quantity else 1.0, p.cash, h);
    ExecuteSettles(o, symbol, Buy, if 0.0 < quantity then quantity else 1.0, p.cash, h);
    if 0.0 < quantity && OnMoneyGrid(o.config.commission) && OnMoneyGrid(p.cash) { BuyAffordable(o, symbol, p); }
  }

  /** The accounts after a rebalance has got as far as `p`, starting from `p0` without fills:
      cash and basis conserve, every symbol's shares are accounted for, and cash has not
      fallen below zero by more than earlier debts and the fees that sales did not cover. */
  ghost predicate Balanced(p0: Progress, p: Progress) {
    && |p.holdings| == |p0.holdings|
    && p.cash + Basis(p.holdings, |p.holdings|) + Total(WrittenBasis, p.fills)
         == p0.cash + Basis(p0.holdings, |p0.holdings|) + Total(Realized, p.fills)
    && (forall i: nat :: i < |p.holdings| ==> SharesTally(p0, p, i))
  }

  ghost predicate SharesTally(p0: Progress, p: Progress, i: nat)
    requires i < |p.holdings| == |p0.holdings|
  {
    p.holdings[i].quantity == p0.holdings[i].quantity
      + Total(Bought(i), p.fills) - Total(Sold(i), p.fills) - Total(WrittenOff(i), p.fills)
  }

  ghost predicate CashCovered(debt: real, p: Progress) {
    OnMoneyGrid(p.cash) && 0.0 <= p.cash + debt + Total(Shortfall, p.fills)
  }

  lemma StepBalanced(o: Order, symbol: nat, side: Side, quantity: real, p0: Progress, p: Progress,
                     p': Progress, e: Executed)
    requires Step(o, symbol, side, quantity, p, p', e) && Balanced(p0, p)
    ensures Balanced(p0, p')
  {
    BasisUpdate(p.holdings, symbol, e.holding, |p.holdings|);
    TotalSnoc(WrittenBasis, p.fills, e.fill);
    TotalSnoc(Realized, p.fills, e.fill);
    forall i: nat | i < |p.holdings| ensures SharesTally(p0, p', i) {
      assert SharesTally(p0, p, i);
      TotalSnoc(Bought(i), p.fills, e.fill);
      TotalSnoc(Sold(i), p.fills, e.fill);
      TotalSnoc(WrittenOff(i), p.fills, e.fill);
    }
  }

  lemma StepCovered(o: Order, symbol: nat, side: Side, quantity: real, debt: real, p: Progress,
                    p': Progress, e: Executed)
    requires Step(o, symbol, side, quantity, p, p', e) && CashCovered(debt, p) && 0.0 <= debt
    requires OnMoneyGrid(o.config.commission)
    requires side.Buy? ==> 0.0 <= e.cash
    ensures CashCovered(debt, p')
  {
    hide Conserves, Total;
    TotalSnoc(Shortfall, p.fills, e.fill);
    ShortfallNonnegative(p.fills);
    var gross := e.fill.trade.grossValue;
    GridSum(gross, o.config.commission);
    GridSum(p.cash, gross - o.config.commission);
    GridSum(p.cash, gross + o.config.commission);
  }

  lemma ShortfallNonnegative(fills: seq<Fill>)
    ensures 0.0 <= Total(Shortfall, fills)
  {
    if fills != [] { ShortfallNonnegative(fills[..|fills| - 1]); }
  }

  // ---------------------------------------------------------------- passes

  ghost predicate Accounted(o: Order, debt: real, p0: Progress, p: Progress) {
    Balanced(p0, p) && (Solvent(o, debt, p0) ==> CashCovered(debt, p))
  }

  ghost predicate Solvent(o: Order, debt: real, p0: Progress) {
    OnMoneyGrid(o.config.commission) && CashCovered(debt, p0)
  }

  lemma SellStepAccounted(o: Order, symbol: nat, debt: real, p0: Progress, p: Progress)
    requires o.Valid() && symbol < |o.opens| == |p.holdings| && Long(p.holdings)
    requires 0.0 <= debt && Accounted(o, debt, p0, p)
    ensures Accounted(o, debt, p0, SellStep(o, symbol, p))
  {
    hide Execute, Conserves;
    var e := SellStepKind(o, symbol, p);
    StepAccounted(o, symbol, debt, p0, p, SellStep(o, symbol, p), e);
  }

  lemma BuyStepAccounted(o: Order, symbol: nat, debt: real, p0: Progress, p: Progress)
    requires o.Valid() && symbol < |o.opens| == |p.holdings| && Long(p.holdings)
    requires 0.0 <= debt && Accounted(o, debt, p0, p)
    ensures Accounted(o, debt, p0, BuyStep(o, symbol, p))
  {
    hide Execute, Conserves, BuyQuantity;
    var e := BuyStepKind(o, symbol, p);
    StepAccounted(o, symbol, debt, p0, p, BuyStep(o, symbol, p), e);
  }

  lemma StepAccounted(o: Order, symbol: nat, debt: real, p0: Progress, p: Progress, p': Progress, e: Executed)
    requires 0.0 <= debt && Accounted(o, debt, p0, p)
    requires Idle(p, p') || exists side, quantity :: Step(o, symbol, side, quantity, p, p', e)
    requires e.fill.trade.side.Buy? && OnMoneyGrid(o.config.commission) && OnMoneyGrid(p.cash) && !Idle(p, p')
      ==> 0.0 <= e.cash
    ensures Accounted(o, debt, p0, p')
  {
    if !Idle(p, p') {
      var side, quantity :| Step(o, symbol, side, quantity, p, p', e);
      StepBalanced(o, symbol, side, quantity, p0, p, p', e);
      if Solvent(o, debt, p0) { StepCovered(o, symbol, side, quantity, debt, p, p', e); }
    } else {
      assert forall i: nat :: i < |p.holdings| ==> SharesTally(p0, p, i) ==> SharesTally(p0, p', i);
    }
  }

  lemma {:induction false} SellPassAccounted(o: Order, k: nat, debt: real, p0: Progress)
    requires o.Valid() && k <= |o.opens| == |p0.holdings| && Long(p0.holdings)
    requires 0.0 <= debt && Accounted(o, debt, p0, p0)
    ensures Accounted(o, debt, p0, SellPass(o, k, p0))
  {
    hide SellStep, Accounted;
    if k > 0 {
      SellPassAccounted(o, k - 1, debt, p0);
      SellStepAccounted(o, k - 1, debt, p0, SellPass(o, k - 1, p0));
    }
  }

  lemma {:induction false} BuyPassAccounted(o: Order, k: nat, debt: real, p0: Progress, sold: Progress)
    requires o.Valid() && k <= |o.opens| == |p0.holdings| == |sold.holdings| && Long(sold.holdings)
    requires 0.0 <= debt && Accounted(o, debt, p0, sold)
    ensures Accounted(o, debt, p0, BuyPass(o, k, sold))
  {
    hide BuyStep, Accounted;
    if k > 0 {
      BuyPassAccounted(o, k - 1, debt, p0, sold);
      BuyStepAccounted(o, k - 1, debt, p0, BuyPass(o, k - 1, sold));
    }
  }
}
