/** The feature pipeline: array transforms with warm-up gaps, how far back an output can look,
    and where outputs begin.  A missing value (NaN) is None; floats are reals. */
module FeaturePipeline {
  import opened Options

  type Value = Option<real>
  type Series = seq<Value>

  const MAX_LOOKBACK := 2520

  datatype Statistic = Mean | Std | Change

  datatype Operation =
    | Lag(periods: int)
    | Difference(periods: int)
    | Rolling(statistic: Statistic, window: int)
    | Ratio(denominator: Series)
    | Rank
  {
    /** What `_validate_operation` accepts. */
    predicate Valid() {
      match this
      case Lag(periods) => 1 <= periods <= MAX_LOOKBACK
      case Difference(periods) => 1 <= periods <= MAX_LOOKBACK
      case Rolling(_, window) => 1 <= window <= MAX_LOOKBACK
      case Ratio(_) => true
      case Rank => true
    }

    /** How many earlier inputs one output of this operation may read. */
    function Reach(): nat
      requires Valid()
    {
      match this
      case Lag(periods) => periods
      case Difference(periods) => periods
      case Rolling(_, window) => window - 1
      case Ratio(_) => 0
      case Rank => 0
    }

    /** Where outputs begin when inputs begin at `gap`. */
    function Gap(gap: nat): nat
      requires Valid()
    {
      match this
      case Lag(periods) => gap + periods
      case Difference(periods) => gap + periods
      case Rolling(Change, window) => gap + window - 1
      case Rolling(_, window) => if gap >= window - 1 then gap else window - 1
      case Ratio(_) => gap
      case Rank => 0
    }

    function Truncated(n: nat): Operation {
      if Ratio? && n <= |denominator| then Ratio(denominator[..n]) else this
    }
  }

  function Minus(x: Value, y: Value): Value {
    if x.Some? && y.Some? then Some(x.value - y.value) else None
  }

  function Over(x: Value, y: Value): Value {
    if x.Some? && y.Some? && y.value != 0.0 then Some(x.value / y.value) else None
  }

  function Total(xs: Series): real {
    if xs == [] then 0.0 else Total(xs[..|xs| - 1]) + if xs[|xs| - 1].Some? then xs[|xs| - 1].value else 0.0
  }

  function Present(xs: Series): nat {
    if xs == [] then 0 else Present(xs[..|xs| - 1]) + if xs[|xs| - 1].Some? then 1 else 0
  }

  function NanMean(xs: Series): Value {
    if Present(xs) == 0 then None else Some(Total(xs) / Present(xs) as real)
  }

  /** `std` stands for the library's standard deviation of a window. */
  function Windowed(std: Series -> Value, statistic: Statistic, current: Series): Value
    requires current != []
  {
    match statistic
    case Mean => NanMean(current)
    case Std => std(current)
    case Change => Minus(current[|current| - 1], current[0])
  }

  function Shifted(xs: Series, periods: nat): (ys: Series)
    ensures |ys| == |xs|
  {
    seq(|xs|, i requires 0 <= i < |xs| => if i >= periods then xs[i - periods] else None)
  }

  /** The window of inputs that ends at `i`. */
  function Window(xs: Series, i: nat, window: nat): (current: Series)
    requires 1 <= window <= i + 1 <= |xs|
    ensures |current| == window
  {
    xs[i - window + 1..i + 1]
  }

  function Rolled(std: Series -> Value, xs: Series, statistic: Statistic, window: nat): (ys: Series)
    requires 1 <= window
    ensures |ys| == |xs|
  {
    seq(|xs|, i requires 0 <= i < |xs| =>
      if i >= window - 1 then Windowed(std, statistic, Window(xs, i, window)) else None)
  }

  /** Stable order with missing values last. */
  predicate Precedes(xs: Series, i: nat, j: nat)
    requires i < |xs| && j < |xs|
  {
    if xs[i].Some? && xs[j].Some? then xs[i].value < xs[j].value || (xs[i].value == xs[j].value && i < j)
    else if xs[i].Some? != xs[j].Some? then xs[i].Some?
    else i < j
  }

  function RankOf(xs: Series, i: nat, k: nat): nat
    requires i < |xs| && k <= |xs|
  {
    if k == 0 then 1 else RankOf(xs, i, k - 1) + if Precedes(xs, k - 1, i) then 1 else 0
  }

  function Ranked(xs: Series): (ys: Series)
    ensures |ys| == |xs|
  {
    seq(|xs|, i requires 0 <= i < |xs| => Some(RankOf(xs, i, |xs|) as real))
  }

  datatype Outcome = InvalidPeriod | ShapeMismatch | Done(series: Series)

  function Apply(std: Series -> Value, op: Operation, xs: Series): Outcome {
    if !op.Valid() then InvalidPeriod
    else match op
      case Lag(periods) => Done(Shifted(xs, periods))
      case Difference(periods) =>
        Done(seq(|xs|, i requires 0 <= i < |xs| => Minus(xs[i], Shifted(xs, periods)[i])))
      case Rolling(statistic, window) => Done(Rolled(std, xs, statistic, window))
      case Ratio(denominator) =>
        if |denominator| != |xs| then ShapeMismatch
        else Done(seq(|xs|, i requires 0 <= i < |xs| => Over(xs[i], denominator[i])))
      case Rank => Done(Ranked(xs))
  }

  /** All operations in order, stopping at the first error. */
  function Execute(std: Series -> Value, ops: seq<Operation>, xs: Series): Outcome {
    if ops == [] then Done(xs)
    else
      match Execute(std, ops[..|ops| - 1], xs)
      case Done(series) => Apply(std, ops[|ops| - 1], series)
      case error => error
  }

  // ---------------------------------------------------------------- the array code

  method LagArray(values: array<Value>, periods: nat) returns (result: array<Value>)
    requires 1 <= periods
    ensures fresh(result) && result[..] == Shifted(values[..], periods)
  {
    result := new Value[values.Length](_ => None);
    forall i | periods <= i < values.Length {
      result[i] := values[i - periods];
    }
  }

  method RollingArray(std: Series -> Value, values: array<Value>, window: nat, statistic: Statistic)
    returns (result: array<Value>)
    requires 1 <= window
    ensures fresh(result) && result[..] == Rolled(std, values[..], statistic, window)
  {
    result := new Value[values.Length](_ => None);
    var index := window - 1;
    while index < values.Length
      invariant window - 1 <= index
      invariant forall i :: 0 <= i < values.Length ==>
        result[i] == if window - 1 <= i < index then Windowed(std, statistic, Window(values[..], i, window)) else None
      invariant values[..] == old(values[..])
    {
      var current := values[index - window + 1..index + 1];
      assert current == Window(values[..], index, window);
      result[index] := Windowed(std, statistic, current);
      index := index + 1;
    }
  }

  method ExecuteOperations(std: Series -> Value, values: Series, ops: seq<Operation>) returns (outcome: Outcome)
    ensures outcome == Execute(std, ops, values)
  {
    hide Rolled, Ranked, Shifted;
    var result := new Value[|values|](i requires 0 <= i < |values| => values[i]);
    assert result[..] == values;
    for k := 0 to |ops|
      invariant fresh(result) && Execute(std, ops[..k], values) == Done(result[..])
    {
      var op := ops[k];
      ghost var before := result[..];
      assert ops[..k + 1][..k] == ops[..k];
      StopsAt(std, ops, k, values);
      if !op.Valid() {
        return InvalidPeriod;
      }
      match op {
        case Lag(periods) =>
          result := LagArray(result, periods);
        case Difference(periods) =>
          var lagged := LagArray(result, periods);
          assert lagged.Length == |lagged[..]| == result.Length;
          var next := new Value[result.Length](i requires 0 <= i < result.Length && i < lagged.Length
            reads result, lagged =>
            Minus(result[i], lagged[i]));
          assert next[..] == seq(|before|,
            i requires 0 <= i < |before| => Minus(before[i], Shifted(before, periods)[i])) by {
            assert forall i :: 0 <= i < |before| ==> lagged[..][i] == lagged[i];
          }
          result := next;
        case Rolling(statistic, window) =>
          result := RollingArray(std, result, window, statistic);
        case Ratio(denominator) =>
          if |denominator| != result.Length {
            return ShapeMismatch;
          }
          var next := new Value[result.Length](i requires 0 <= i < result.Length && i < |denominator| reads result =>
            Over(result[i], denominator[i]));
          assert next[..] == seq(|before|, i requires 0 <= i < |before| => Over(before[i], denominator[i]));
          result := next;
        case Rank =>
          var ranks := Ranked(result[..]);
          result := new Value[|ranks|](i requires 0 <= i < |ranks| => ranks[i]);
      }
      assert Apply(std, op, before) == Done(result[..]);
    }
    assert ops[..|ops|] == ops;
    outcome := Done(result[..]);
  }

  /** An error at one operation is the outcome of the whole pipeline. */
  lemma {:induction false} StopsAt(std: Series -> Value, ops: seq<Operation>, k: nat, xs: Series)
    requires k < |ops|
    ensures !Execute(std, ops[..k + 1], xs).Done? ==> Execute(std, ops, xs) == Execute(std, ops[..k + 1], xs)
    decreases |ops|
  {
    hide Apply;
    if k + 1 == |ops| {
      assert ops[..k + 1] == ops;
    } else {
      assert ops[..|ops| - 1][..k + 1] == ops[..k + 1];
      StopsAt(std, ops[..|ops| - 1], k, xs);
    }
  }
}
