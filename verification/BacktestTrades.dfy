/** What a rebalance ends with: which symbols trade, for how much, what that does to the positions,
    and why anything wanted stays unbought. */
module BacktestTrades {
  import opened Rounding
  import opened BacktestModel
  import opened BacktestAccounts
  import opened BacktestRisk

  // ---------------------------------------------------------------- one execution

  ghost predicate Near(x: real, y: real, distance: real) { y - distance <= x <= y + distance }

  ghost predicate QuotedAt(price: real, open: real, side: Side, c: Config) {
    var friction := (c.spreadBps / 2.0 + c.slippageBps) / 10000.0;
    Near(price, Marked(open, if side.Buy? then 1.0 + friction else 1.0 - friction), 0.000000005)
  }

  lemma Quoted(open: real, side: Side, c: Config)
    ensures QuotedAt(ExecutionPrice(open, side, c), open, side, c)
  {
    hide Quote, Marked;
    QuoteNear(open, Multiplier(side, c));
  }

  lemma QuoteNear(open: real, multiplier: real)
    ensures Near(Quote(open, multiplier), Marked(open, multiplier), 0.000000005)
  {
    PriceNearest(open * multiplier);
  }

  /** The price is the open moved against the trader by half the spread and the slippage, to half a
      tick; the gross value is quantity times price, to half a micro; the fee is the commission. */
  ghost predicate Priced(f: Fill, open: real, c: Config) {
    var t := f.trade;
    && QuotedAt(t.price, open, t.side, c)
    && Near(t.grossValue, Marked(t.quantity, t.price), 0.0000005) && OnMoneyGrid(t.grossValue)
    && t.fees == c.commission
    && Near(t.realizedPnl, f.realized, 0.0000005)
  }

  /** A fill and the position before and after it.  A buy adds its whole cost to the position's; a
      sale realizes its proceeds less the average cost of what it sells, and closes the position when
      at most a tick is left. */
  ghost predicate Moves(index: nat, h: Holding, f: Fill, h': Holding) {
    var t, left := f.trade, h.quantity - f.trade.quantity;
    if t.side.Buy? then
      && h'.quantity == h.quantity + t.quantity
      && Marked(h'.quantity, h'.averageCost) == Marked(h.quantity, h.averageCost) + t.grossValue + t.fees
      && h'.openedIndex == (if h.quantity == 0.0 then index else h.openedIndex)
      && f.realized == f.residual == f.residualBasis == 0.0 && t.holdingDays == 0
    else
      && f.realized == t.grossValue - t.fees - Marked(t.quantity, h.averageCost)
      && t.holdingDays == (if h.openedIndex <= index then index - h.openedIndex else 0)
      && if left <= 0.00000001
         then h' == Holding(0.0, 0.0, h.openedIndex) && f.residual == left
              && f.residualBasis == Marked(left, h.averageCost)
         else h' == h.(quantity := left) && f.residual == f.residualBasis == 0.0
  }

  lemma ExecuteMoves(o: Order, symbol: nat, side: Side, quantity: real, cash: real, h: Holding)
    requires symbol < |o.opens|
    requires side.Buy? ==> h.quantity + quantity != 0.0
    ensures var e := Execute(o, symbol, side, quantity, cash, h);
      && Priced(e.fill, o.opens[symbol], o.config) && Moves(o.index, h, e.fill, e.holding)
      && Near(e.fill.trade.cashAfter, e.cash, 0.0000005)
  {
    hide Money, Gross, ExecutionPrice, Marked, QuotedAt, OnMoneyGrid;
    var price := ExecutionPrice(o.opens[symbol], side, o.config);
    var gross := Gross(quantity, price);
    var s := Settle(o, side, quantity, gross, cash, h);
    Quoted(o.opens[symbol], side, o.config);
    GrossNear(quantity, price);
    GrossOnGrid(quantity, price);
    MoneyNearest(s.cash);
    MoneyNearest(s.realized);
    SettleMoves(o, side, quantity, gross, cash, h);
  }

  lemma SettleMoves(o: Order, side: Side, quantity: real, gross: real, cash: real, h: Holding)
    requires side.Buy? ==> h.quantity + quantity != 0.0
    ensures var s := Settle(o, side, quantity, gross, cash, h);
      forall t: Trade ::
        t.side == side && t.quantity == quantity && t.grossValue == gross && t.fees == o.config.commission
        && t.holdingDays == s.days
        ==> Moves(o.index, h, Fill(t, s.realized, s.residual, s.residualBasis), s.holding)
  {
    if side.Buy? { Spread(h.quantity + quantity, h.quantity * h.averageCost + gross + o.config.commission); }
  }

  lemma GrossNear(quantity: real, price: real)
    ensures Near(Gross(quantity, price), Marked(quantity, price), 0.0000005)
  {
    hide Gross;
    GrossNearest(quantity, price);
  }

  /** The cash a fill brings in. */
  function Flow(f: Fill): real {
    if f.trade.side.Buy? then -(f.trade.grossValue + f.trade.fees) else f.trade.grossValue - f.trade.fees
  }

  /** Cash is what there was plus what the fills brought in, and each fill records it as it then stood. */
  ghost predicate CashChained(cash: real, p: Progress) {
    && p.cash == cash + Total(Flow, p.fills)
    && forall m :: 0 <= m < |p.fills| ==> CashRecorded(cash, p.fills, m)
  }

  ghost predicate CashRecorded(cash: real, fills: seq<Fill>, m: nat)
    requires m < |fills|
  {
    Near(fills[m].trade.cashAfter, cash + Total(Flow, fills[..m + 1]), 0.0000005)
  }

  lemma CashNext(cash: real, p: Progress, p': Progress, f: Fill)
    requires CashChained(cash, p) && p'.fills == p.fills + [f] && p'.cash == p.cash + Flow(f)
    requires Near(f.trade.cashAfter, p'.cash, 0.0000005)
    ensures CashChained(cash, p')
  {
    hide Flow, Near, Total;
    TotalSnoc(Flow, p.fills, f);
    assert p'.fills[..|p'.fills|] == p'.fills;
    forall m | 0 <= m < |p'.fills| ensures CashRecorded(cash, p'.fills, m) {
      if m < |p.fills| {
        assert CashRecorded(cash, p.fills, m);
        assert p'.fills[..m + 1] == p.fills[..m + 1];
      }
    }
  }

  // ---------------------------------------------------------------- the sells

  ghost predicate Ascending(fills: seq<Fill>) {
    forall a, b :: 0 <= a < b < |fills| ==> fills[a].trade.symbol < fills[b].trade.symbol
  }

  ghost predicate Sized(o: Order, hs: seq<Holding>, hs': seq<Holding>) {
    |hs| == |hs'| == |o.opens| == |o.desired|
  }

  /** A sale of all that exceeds what is desired. */
  ghost predicate SellsExcess(o: Order, hs: seq<Holding>, hs': seq<Holding>, f: Fill)
    requires Sized(o, hs, hs')
  {
    var i := f.trade.symbol;
    && i < |hs| && f.trade.side.Sell?
    && f.trade.quantity == hs[i].quantity - o.desired[i] > 0.0
    && Priced(f, o.opens[i], o.config) && Moves(o.index, hs[i], f, hs'[i])
  }

  ghost predicate Trades(fills: seq<Fill>, i: nat) {
    exists f :: f in fills && f.trade.symbol == i
  }

  /** Of the first `k` symbols those with more than is desired were sold down to it, in order, and
      nothing else changed. */
  ghost predicate SoldDown(o: Order, k: nat, hs: seq<Holding>, hs': seq<Holding>, fills: seq<Fill>) {
    && Sized(o, hs, hs') && k <= |hs| && Ascending(fills)
    && (forall f :: f in fills ==> f.trade.symbol < k && SellsExcess(o, hs, hs', f))
    && (forall i: nat :: i < k && o.desired[i] < hs[i].quantity ==> Trades(fills, i))
    && forall i: nat :: i < |hs| && !Trades(fills, i) ==> hs'[i] == hs[i]
  }

  lemma {:induction false} SellsEnd(o: Order, k: nat, cash: real, p: Progress) returns (fills: seq<Fill>)
    requires o.Valid() && k <= |o.opens| == |p.holdings| && Long(p.holdings) && CashChained(cash, p)
    ensures var p' := SellPass(o, k, p);
      && p'.fills == p.fills + fills && p'.rejections == p.rejections
      && SoldDown(o, k, p.holdings, p'.holdings, fills) && CashChained(cash, p')
  {
    hide SoldDown, SellStep, CashChained;
    fills := [];
    if k == 0 {
      NothingSold(o, p.holdings);
    } else {
      fills := SellsEnd(o, k - 1, cash, p);
      fills := SellEnds(o, k - 1, cash, p, SellPass(o, k - 1, p), fills);
    }
  }

  lemma NothingSold(o: Order, hs: seq<Holding>)
    requires o.Valid() && |o.opens| == |hs|
    ensures SoldDown(o, 0, hs, hs, [])
  {}

  lemma OneSold(o: Order, symbol: nat, hs: seq<Holding>, hs': seq<Holding>, front: seq<Fill>, e: Executed)
    requires symbol < |o.opens| && SoldDown(o, symbol, hs, hs', front)
    requires hs'[symbol] == hs[symbol] ==>
      e.fill.trade.symbol == symbol && SellsExcess(o, hs, hs'[symbol := e.holding], e.fill)
    ensures SoldDown(o, symbol + 1, hs, hs'[symbol := e.holding], front + [e.fill])
  {
    hide Moves, Priced;
    var fills := front + [e.fill];
    assert !Trades(front, symbol);
    assert forall f :: f in fills <==> f in front || f == e.fill;
    assert e.fill in fills;
    forall i: nat | Trades(front, i) ensures Trades(fills, i) {}
  }

  lemma SellEnds(o: Order, symbol: nat, cash: real, p0: Progress, p: Progress, front: seq<Fill>)
    returns (fills: seq<Fill>)
    requires o.Valid() && symbol < |o.opens| == |p.holdings| && Long(p.holdings)
    requires SoldDown(o, symbol, p0.holdings, p.holdings, front) && CashChained(cash, p)
    requires p.fills == p0.fills + front && p.rejections == p0.rejections
    ensures var p' := SellStep(o, symbol, p);
      && p'.fills == p0.fills + fills && p'.rejections == p0.rejections
      && SoldDown(o, symbol + 1, p0.holdings, p'.holdings, fills) && CashChained(cash, p')
  {
    hide Execute, Moves, Priced, Conserves, OnMoneyGrid, CashChained, Near;
    assert !Trades(front, symbol);
    var h, p' := p.holdings[symbol], SellStep(o, symbol, p);
    if o.desired[symbol] >= h.quantity {
      fills := front;
    } else {
      var e := SellStepKind(o, symbol, p);
      ExecuteMoves(o, symbol, Sell, h.quantity - o.desired[symbol], p.cash, h);
      CashNext(cash, p, p', e.fill);
      fills := front + [e.fill];
      OneSold(o, symbol, p0.holdings, p.holdings, front, e);
    }
  }

  // ---------------------------------------------------------------- the buys

  /** Cash of `cash` is left, and one more tick of the symbol would have needed more: where some was
      bought the price alone is more than that, to half a micro; where none was, price and fee are. */
  ghost predicate OutOfCash(o: Order, i: nat, some: bool, cash: real)
    requires i < |o.opens|
  {
    exists price :: QuotedAt(price, o.opens[i], Buy, o.config) && FallsShort(cash, some, price, o.config.commission)
  }

  ghost predicate FallsShort(cash: real, some: bool, price: real, commission: real) {
    cash < 0.00000001 * price + if some then 0.0000005 else commission
  }

  /** A buy towards what is desired that stops short of it only for want of cash. */
  ghost predicate BuysToward(o: Order, hs: seq<Holding>, hs': seq<Holding>, cash: real, f: Fill)
    requires Sized(o, hs, hs')
  {
    var i := f.trade.symbol;
    && i < |hs| && f.trade.side.Buy?
    && 0.0 < f.trade.quantity <= o.desired[i] - hs[i].quantity
    && Priced(f, o.opens[i], o.config) && Moves(o.index, hs[i], f, hs'[i])
    && (f.trade.quantity < o.desired[i] - hs[i].quantity ==> OutOfCash(o, i, true, cash))
  }

  /** Of the first `k` symbols those with less than is desired were bought or, for want of cash,
      rejected, in order, and nothing else changed. */
  ghost predicate BoughtUp(o: Order, k: nat, hs: seq<Holding>, hs': seq<Holding>, cash: real, fills: seq<Fill>,
                           rejected: seq<nat>) {
    && Sized(o, hs, hs') && k <= |hs| && Ascending(fills)
    && (forall a, b :: 0 <= a < b < |rejected| ==> rejected[a] < rejected[b])
    && (forall f :: f in fills ==> f.trade.symbol < k && BuysToward(o, hs, hs', cash, f))
    && (forall i :: i in rejected ==>
          i < k && hs[i].quantity < o.desired[i] && !Trades(fills, i) && OutOfCash(o, i, false, cash))
    && (forall i: nat :: i < k && hs[i].quantity < o.desired[i] ==> Trades(fills, i) || i in rejected)
    && forall i: nat :: i < |hs| && !Trades(fills, i) ==> hs'[i] == hs[i]
  }

  lemma {:induction false} BuysEnd(o: Order, k: nat, cash: real, p: Progress)
    returns (fills: seq<Fill>, rejected: seq<nat>)
    requires o.Valid() && k <= |o.opens| == |p.holdings| && Long(p.holdings) && CashChained(cash, p)
    ensures var p' := BuyPass(o, k, p);
      && p'.fills == p.fills + fills && p'.rejections == p.rejections + rejected
      && BoughtUp(o, k, p.holdings, p'.holdings, p'.cash, fills, rejected) && CashChained(cash, p')
  {
    hide BoughtUp, BuyStep, CashChained;
    fills, rejected := [], [];
    if k == 0 {
      NothingBought(o, p.holdings, p.cash);
    } else {
      fills, rejected := BuysEnd(o, k - 1, cash, p);
      fills, rejected := BuyEnds(o, k - 1, cash, p, BuyPass(o, k - 1, p), fills, rejected);
    }
  }

  lemma NothingBought(o: Order, hs: seq<Holding>, cash: real)
    requires o.Valid() && |o.opens| == |hs|
    ensures BoughtUp(o, 0, hs, hs, cash, [], [])
  {}

  lemma LessCash(o: Order, k: nat, hs: seq<Holding>, hs': seq<Holding>, cash: real, cash': real, fills: seq<Fill>,
                 rejected: seq<nat>)
    requires BoughtUp(o, k, hs, hs', cash, fills, rejected) && cash' <= cash
    ensures BoughtUp(o, k, hs, hs', cash', fills, rejected)
  {
    hide Moves, Priced;
    forall i: nat, some | i < |o.opens| && OutOfCash(o, i, some, cash) ensures OutOfCash(o, i, some, cash') {}
  }

  /** A buy that falls short of what is wanted takes all the ticks that cash covers. */
  lemma CutToCash(o: Order, symbol: nat, p: Progress)
    requires o.Valid() && symbol < |o.opens| == |p.holdings|
    requires p.holdings[symbol].quantity < o.desired[symbol]
    ensures var quantity, price := BuyQuantity(o, symbol, p), ExecutionPrice(o.opens[symbol], Buy, o.config);
      quantity < o.desired[symbol] - p.holdings[symbol].quantity ==>
        0.0 <= quantity && p.cash - o.config.commission < Marked(quantity, price) + 0.00000001 * price
  {
    hide Shares, ExecutionPrice;
    var price := ExecutionPrice(o.opens[symbol], Buy, o.config);
    ExecutionPricePositive(o.opens[symbol], Buy, o.config);
    AffordableBounds(Max(p.cash - o.config.commission, 0.0), price);
  }

  /** Where a buy step stops short, what cash it leaves buys no more. */
  lemma StopsForCash(o: Order, symbol: nat, p: Progress)
    requires o.Valid() && symbol < |o.opens| == |p.holdings| && Long(p.holdings)
    requires p.holdings[symbol].quantity < o.desired[symbol]
    ensures var quantity, p' := BuyQuantity(o, symbol, p), BuyStep(o, symbol, p);
      && p'.cash <= p.cash
      && (quantity < o.desired[symbol] - p.holdings[symbol].quantity ==> OutOfCash(o, symbol, 0.0 < quantity, p'.cash))
  {
    hide BuyQuantity, ExecutionPrice, Gross, Money, QuotedAt, Conserves, Execute, Marked;
    var quantity, price := BuyQuantity(o, symbol, p), ExecutionPrice(o.opens[symbol], Buy, o.config);
    CutToCash(o, symbol, p);
    Quoted(o.opens[symbol], Buy, o.config);
    GrossNear(quantity, price);
    var e := BuyStepKind(o, symbol, p);
    if 0.0 < quantity {
      BoughtFor(o, symbol, quantity, p.cash, p.holdings[symbol]);
    } else {
      NothingCosts(price);
    }
    var p' := BuyStep(o, symbol, p);
    assert quantity < o.desired[symbol] - p.holdings[symbol].quantity ==>
      FallsShort(p'.cash, 0.0 < quantity, price, o.config.commission);
  }

  lemma NothingCosts(price: real)
    ensures Marked(0.0, price) == 0.0
  {}

  lemma BoughtFor(o: Order, symbol: nat, quantity: real, cash: real, h: Holding)
    requires symbol < |o.opens| && h.quantity + quantity != 0.0
    ensures Execute(o, symbol, Buy, quantity, cash, h).fill.trade.grossValue
      == Gross(quantity, ExecutionPrice(o.opens[symbol], Buy, o.config))
  {}

  lemma BuyEnds(o: Order, symbol: nat, cash: real, p0: Progress, p: Progress, front: seq<Fill>, before: seq<nat>)
    returns (fills: seq<Fill>, rejected: seq<nat>)
    requires o.Valid() && symbol < |o.opens| == |p.holdings| && Long(p.holdings)
    requires BoughtUp(o, symbol, p0.holdings, p.holdings, p.cash, front, before) && CashChained(cash, p)
    requires p.fills == p0.fills + front && p.rejections == p0.rejections + before
    ensures var p' := BuyStep(o, symbol, p);
      && p'.fills == p0.fills + fills && p'.rejections == p0.rejections + rejected
      && BoughtUp(o, symbol + 1, p0.holdings, p'.holdings, p'.cash, fills, rejected) && CashChained(cash, p')
  {
    hide Execute, Moves, Priced, Conserves, OnMoneyGrid, BuyQuantity, OutOfCash, BoughtUp, CashChained, Near;
    var h, p', quantity := p.holdings[symbol], BuyStep(o, symbol, p), BuyQuantity(o, symbol, p);
    fills, rejected := front, before;
    Untraded(o, symbol, p0.holdings, p.holdings, p.cash, front, before);
    if o.desired[symbol] > h.quantity {
      BuyAtMostWanted(o, symbol, p);
      StopsForCash(o, symbol, p);
      LessCash(o, symbol, p0.holdings, p.holdings, p.cash, p'.cash, front, before);
      if quantity <= 0.0 {
        rejected := before + [symbol];
        OneRejected(o, symbol, p0.holdings, p.holdings, p'.cash, front, before);
        SameCash(cash, p, p');
      } else {
        var e := BuyStepKind(o, symbol, p);
        ExecuteMoves(o, symbol, Buy, quantity, p.cash, h);
        BoughtChained(o, symbol, quantity, cash, p, p', e);
        fills := front + [e.fill];
        OneBought(o, symbol, p0.holdings, p.holdings, p'.cash, front, before, e);
      }
    } else {
      NoneWanted(o, symbol, p0.holdings, p.holdings, p.cash, front, before);
    }
  }

  lemma BoughtChained(o: Order, symbol: nat, quantity: real, cash: real, p: Progress, p': Progress, e: Executed)
    requires Step(o, symbol, Buy, quantity, p, p', e) && CashChained(cash, p)
    requires Near(e.fill.trade.cashAfter, e.cash, 0.0000005)
    ensures CashChained(cash, p')
  {
    hide Conserves, Near, CashChained;
    CashNext(cash, p, p', e.fill);
  }

  lemma SameCash(cash: real, p: Progress, p': Progress)
    requires CashChained(cash, p) && p'.cash == p.cash && p'.fills == p.fills
    ensures CashChained(cash, p')
  {}

  lemma Untraded(o: Order, symbol: nat, hs: seq<Holding>, hs': seq<Holding>, cash: real, fills: seq<Fill>,
                 rejected: seq<nat>)
    requires symbol < |o.opens| && BoughtUp(o, symbol, hs, hs', cash, fills, rejected)
    ensures Sized(o, hs, hs') && hs'[symbol] == hs[symbol] && !Trades(fills, symbol) && symbol !in rejected
  {}

  lemma NoneWanted(o: Order, symbol: nat, hs: seq<Holding>, hs': seq<Holding>, cash: real, fills: seq<Fill>,
                   rejected: seq<nat>)
    requires symbol < |hs| && BoughtUp(o, symbol, hs, hs', cash, fills, rejected)
    requires o.desired[symbol] <= hs[symbol].quantity
    ensures BoughtUp(o, symbol + 1, hs, hs', cash, fills, rejected)
  {
    hide Moves, Priced, OutOfCash;
  }

  lemma OneRejected(o: Order, symbol: nat, hs: seq<Holding>, hs': seq<Holding>, cash: real, fills: seq<Fill>,
                    rejected: seq<nat>)
    requires symbol < |hs| && BoughtUp(o, symbol, hs, hs', cash, fills, rejected)
    requires o.desired[symbol] > hs[symbol].quantity && OutOfCash(o, symbol, false, cash)
    ensures BoughtUp(o, symbol + 1, hs, hs', cash, fills, rejected + [symbol])
  {
    hide Moves, Priced, OutOfCash;
    assert !Trades(fills, symbol);
    assert forall i :: i in rejected + [symbol] <==> i in rejected || i == symbol;
    assert forall a :: 0 <= a < |rejected| ==> rejected[a] in rejected;
  }

  lemma OneBought(o: Order, symbol: nat, hs: seq<Holding>, hs': seq<Holding>, cash: real, front: seq<Fill>,
                  rejected: seq<nat>, e: Executed)
    requires symbol < |hs| && BoughtUp(o, symbol, hs, hs', cash, front, rejected)
    requires hs'[symbol] == hs[symbol] && e.fill.trade.symbol == symbol
    requires BuysToward(o, hs, hs'[symbol := e.holding], cash, e.fill)
    ensures BoughtUp(o, symbol + 1, hs, hs'[symbol := e.holding], cash, front + [e.fill], rejected)
  {
    hide Moves, Priced, OutOfCash;
    var fills := front + [e.fill];
    assert forall f :: f in fills <==> f in front || f == e.fill;
    assert e.fill in fills;
    forall i: nat | Trades(front, i) ensures Trades(fills, i) {}
  }

  // ---------------------------------------------------------------- whole rebalances

  /** The last whole number of ticks not past the weight's part of equity, counted from zero. */
  ghost predicate Wanted(quantity: real, open: real, equity: real, weight: real) {
    var part, tick := Marked(equity, weight), 0.00000001;
    && (exists n: int :: Ticks(n) == quantity)
    && if 0.0 <= part then 0.0 <= quantity && Marked(quantity, open) <= part < Marked(quantity + tick, open)
       else quantity <= 0.0 && Marked(quantity - tick, open) < part <= Marked(quantity, open)
  }

  /** A rebalance sells down to what its equity and weights make of the opens, then buys up to it. */
  ghost predicate Carries(r: Rebalance, o: Order, held: seq<Holding>, sales: seq<Fill>, buys: seq<Fill>) {
    && |r.weights| == |r.opens| == |r.before| == |o.desired|
    && o.index == r.index && o.opens == r.opens
    && r.equity == r.cashBefore + Value(r.before, r.opens, |r.opens|)
    && (forall i :: 0 <= i < |r.opens| ==> Wanted(o.desired[i], r.opens[i], r.equity, r.weights[i]))
    && r.after.fills == sales + buys && CashChained(r.cashBefore, r.after)
    && SoldDown(o, |r.opens|, r.before, held, sales)
    && BoughtUp(o, |r.opens|, held, r.after.holdings, r.after.cash, buys, r.after.rejections)
  }

  ghost predicate CarriedOut(r: Rebalance, c: Config) {
    exists o: Order, held, sales, buys :: o.config == c && Carries(r, o, held, sales, buys)
  }

  lemma WantedShares(equity: real, weight: real, open: real)
    requires 0.0 < open
    ensures Wanted(SharesFor(equity, weight, open), open, equity, weight)
  {
    hide Shares;
    var money := equity * weight;
    SharesOnTicks(money / open);
    TicksWithin(money, open);
  }

  lemma TicksWithin(money: real, open: real)
    requires 0.0 < open
    ensures var quantity := Shares(money / open);
      if 0.0 <= money then
        0.0 <= quantity && Marked(quantity, open) <= money < Marked(quantity + 0.00000001, open)
      else quantity <= 0.0 && Marked(quantity - 0.00000001, open) < money <= Marked(quantity, open)
  {
    hide Shares;
    if 0.0 <= money {
      AffordableBounds(money, open);
    } else {
      var ratio := money / open;
      SharesOdd(ratio);
      OppositeRatio(money, open);
      AffordableBounds(-money, open);
      OppositeTicks(Shares(-ratio), money, open);
    }
  }

  lemma OppositeRatio(money: real, open: real)
    requires 0.0 < open
    ensures -(money / open) == (-money) / open
  {}

  lemma OppositeTicks(quantity: real, money: real, open: real)
    requires quantity * open <= -money < (quantity + 0.00000001) * open
    ensures Marked(-quantity - 0.00000001, open) < money <= Marked(-quantity, open)
  {}

  lemma RebalanceCarriedOut(index: nat, time: int, signalTime: int, opens: seq<real>, targets: seq<real>,
                            reasons: map<nat, string>, c: Config, cash: real, holdings: seq<Holding>)
    requires c.Valid() && |targets| == |opens| == |holdings| && Long(holdings)
    requires forall i :: 0 <= i < |opens| ==> SMALLEST_OPEN <= opens[i]
    ensures CarriedOut(RunRebalance(index, time, signalTime, opens, targets, reasons, c, cash, holdings), c)
  {
    hide Weights, SharesFor, SellPass, BuyPass, Wanted, SoldDown, BoughtUp, CashChained;
    var r := RunRebalance(index, time, signalTime, opens, targets, reasons, c, cash, holdings);
    var o := OrderFor(index, time, signalTime, opens, r.equity, r.weights, reasons, c);
    var p := Progress(cash, holdings, [], []);
    NothingChained(p);
    forall i | 0 <= i < |opens| ensures Wanted(o.desired[i], opens[i], r.equity, r.weights[i]) {
      WantedShares(r.equity, r.weights[i], opens[i]);
    }
    var sales := SellsEnd(o, |opens|, cash, p);
    var sold := SellPass(o, |opens|, p);
    var buys, rejected := BuysEnd(o, |opens|, cash, sold);
    assert r.after.fills == sales + buys && r.after.rejections == rejected;
    assert Carries(r, o, sold.holdings, sales, buys);
  }

  lemma NothingChained(p: Progress)
    requires p.fills == []
    ensures CashChained(p.cash, p)
  {}
}
