/** Decimal quantization as used by the backtest engine: money is rounded half-even to
    1e-6, prices half-even to 1e-8, and share counts toward zero to 1e-8.  Decimals are
    exact reals; only the explicit `quantize` calls round. */
module Rounding {

  const MICRO := 1000000.0
  const TICKS := 100000000.0
  const HALF_MICRO := 0.0000005
  const SHARE_TICK := 0.00000001

  /** Nearest integer, ties to the even neighbour. */
  function HalfEven(x: real): int {
    var low := x.Floor;
    var rest := x - low as real;
    if rest < 0.5 then low
    else if rest > 0.5 then low + 1
    else if low % 2 == 0 then low else low + 1
  }

  /** Integer part, discarding the fraction toward zero (ROUND_DOWN). */
  function TowardZero(x: real): int {
    if x >= 0.0 then x.Floor else -((-x).Floor)
  }

  /** `value.quantize(MONEY)` */
  function Money(x: real): real { HalfEven(x * MICRO) as real / MICRO }

  /** `value.quantize(SHARES)`, used for prices */
  function Price(x: real): real { HalfEven(x * TICKS) as real / TICKS }

  /** `value.quantize(SHARES, rounding=ROUND_DOWN)`, used for share counts */
  function Shares(x: real): real { TowardZero(x * TICKS) as real / TICKS }

  ghost predicate OnMoneyGrid(x: real) { exists n: int :: Micros(n) == x }
  function Micros(n: int): real { n as real / MICRO }

  lemma HalfEvenNearest(x: real)
    ensures x - 0.5 <= HalfEven(x) as real <= x + 0.5
  {}

  lemma HalfEvenMonotone(x: real, y: real)
    requires x <= y
    ensures HalfEven(x) <= HalfEven(y)
  {
    if x.Floor == y.Floor {
    } else {
      assert x.Floor + 1 <= y.Floor;
    }
  }

  lemma HalfEvenOfInteger(n: int)
    ensures HalfEven(n as real) == n
  {
    assert (n as real).Floor == n;
  }

  /** Halfway values go to the even neighbour. */
  lemma HalfEvenTies(n: int)
    ensures HalfEven(n as real + 0.5) == if n % 2 == 0 then n else n + 1
  {
    assert (n as real + 0.5).Floor == n;
  }

  /** Money is within half a micro of its argument, is monotone, and fixes its own grid. */
  lemma MoneyNearest(x: real)
    ensures x - HALF_MICRO <= Money(x) <= x + HALF_MICRO
    ensures OnMoneyGrid(Money(x))
  {
    HalfEvenNearest(x * MICRO);
    assert Micros(HalfEven(x * MICRO)) == Money(x);
  }

  lemma MoneyMonotone(x: real, y: real)
    requires x <= y
    ensures Money(x) <= Money(y)
  {
    HalfEvenMonotone(x * MICRO, y * MICRO);
  }

  lemma MoneyFixesGrid(x: real)
    requires OnMoneyGrid(x)
    ensures Money(x) == x
  {
    var n :| Micros(n) == x;
    assert x * MICRO == n as real;
    HalfEvenOfInteger(n);
  }

  /** An amount that fits in a grid-aligned budget still fits after rounding. */
  lemma MoneyWithinBudget(x: real, budget: real)
    requires x <= budget && OnMoneyGrid(budget)
    ensures Money(x) <= budget
  {
    MoneyMonotone(x, budget);
    MoneyFixesGrid(budget);
  }

  lemma MoneyNonnegative(x: real)
    requires 0.0 <= x
    ensures 0.0 <= Money(x)
  {
    assert Micros(0) == 0.0;
    MoneyMonotone(0.0, x);
    MoneyFixesGrid(0.0);
  }

  lemma GridSum(x: real, y: real)
    requires OnMoneyGrid(x) && OnMoneyGrid(y)
    ensures OnMoneyGrid(x + y) && OnMoneyGrid(x - y)
  {
    var m :| Micros(m) == x;
    var n :| Micros(n) == y;
    assert Micros(m + n) == x + y;
    assert Micros(m - n) == x - y;
  }

  /** A rounded price is within half a tick of the exact one. */
  lemma PriceNearest(x: real)
    ensures x - SHARE_TICK / 2.0 <= Price(x) <= x + SHARE_TICK / 2.0
  {
    HalfEvenNearest(x * TICKS);
  }

  /** Adverse friction never improves a grid-aligned price, even after rounding. */
  lemma PriceBounds(x: real, open: real)
    requires OnMoneyGrid(open)
    ensures open <= x ==> open <= Price(x)
    ensures x <= open ==> Price(x) <= open
  {
    var n :| Micros(n) == open;
    assert open * TICKS == (n * 100) as real;
    HalfEvenOfInteger(n * 100);
    if open <= x { HalfEvenMonotone(open * TICKS, x * TICKS); }
    if x <= open { HalfEvenMonotone(x * TICKS, open * TICKS); }
  }

  /** A price of at least one tick stays at least one tick. */
  lemma PricePositive(x: real)
    requires SHARE_TICK <= x
    ensures SHARE_TICK <= Price(x)
  {
    HalfEvenOfInteger(1);
    HalfEvenMonotone(1.0, x * TICKS);
  }

  /** Rounding toward zero never exceeds a nonnegative argument and stays within one tick. */
  lemma SharesBounds(x: real)
    ensures 0.0 <= x ==> 0.0 <= Shares(x) <= x < Shares(x) + SHARE_TICK
    ensures x <= 0.0 ==> Shares(x) - SHARE_TICK < x <= Shares(x) <= 0.0
    ensures Shares(x) < 0.0 <==> x <= -SHARE_TICK
  {}

  function Ticks(n: int): real { n as real / TICKS }

  /** Share counts are whole ticks, and rounding them does not depend on the sign. */
  lemma SharesOnTicks(x: real)
    ensures exists n: int :: Ticks(n) == Shares(x)
  {
    assert Ticks(TowardZero(x * TICKS)) == Shares(x);
  }

  lemma SharesOdd(x: real)
    ensures Shares(-x) == -Shares(x)
  {
    assert -x * TICKS == -(x * TICKS);
  }
}
