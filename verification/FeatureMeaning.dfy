/** What each operation of the feature pipeline computes, in terms of its inputs' positions. */
module FeatureMeaning {
  import opened Options
  import opened FeaturePipeline

  // ---------------------------------------------------------------- windows

  /** How many of the values at `lo..hi` are present, and their sum. */
  ghost function Count(xs: Series, lo: nat, hi: nat): nat
    requires lo <= hi <= |xs|
    decreases hi - lo
  {
    if lo == hi then 0 else (if xs[lo].Some? then 1 else 0) + Count(xs, lo + 1, hi)
  }

  ghost function Sum(xs: Series, lo: nat, hi: nat): real
    requires lo <= hi <= |xs|
    decreases hi - lo
  {
    if lo == hi then 0.0 else (if xs[lo].Some? then xs[lo].value else 0.0) + Sum(xs, lo + 1, hi)
  }

  lemma {:induction false} SumSnoc(xs: Series, lo: nat, hi: nat)
    requires lo < hi <= |xs|
    ensures Count(xs, lo, hi) == Count(xs, lo, hi - 1) + if xs[hi - 1].Some? then 1 else 0
    ensures Sum(xs, lo, hi) == Sum(xs, lo, hi - 1) + if xs[hi - 1].Some? then xs[hi - 1].value else 0.0
    decreases hi - lo
  {
    if lo + 1 < hi { SumSnoc(xs, lo + 1, hi); }
  }

  lemma {:induction false} SliceTotals(xs: Series, lo: nat, hi: nat)
    requires lo <= hi <= |xs|
    ensures Present(xs[lo..hi]) == Count(xs, lo, hi) && Total(xs[lo..hi]) == Sum(xs, lo, hi)
    decreases hi - lo
  {
    if lo < hi {
      assert xs[lo..hi][..hi - lo - 1] == xs[lo..hi - 1];
      SliceTotals(xs, lo, hi - 1);
      SumSnoc(xs, lo, hi);
    }
  }

  // ---------------------------------------------------------------- ranks

  /** Present values come before missing ones, smaller before larger, and equals in their positions' order. */
  ghost predicate Comes(xs: Series, i: nat, j: nat)
    requires i < |xs| && j < |xs|
  {
    match (xs[i], xs[j])
    case (Some(x), Some(y)) => x < y || (x == y && i < j)
    case (Some(_), None) => true
    case (None, Some(_)) => false
    case (None, None) => i < j
  }

  lemma {:induction false} RankBounds(xs: Series, i: nat, k: nat)
    requires i < |xs| && k <= |xs|
    ensures 1 <= RankOf(xs, i, k) <= k + 1 && (i < k ==> RankOf(xs, i, k) <= k)
  {
    if k > 0 { RankBounds(xs, i, k - 1); }
  }

  /** What comes before `i` comes before all that `i` comes before. */
  lemma {:induction false} RankOrder(xs: Series, i: nat, j: nat, k: nat)
    requires i < |xs| && j < |xs| && k <= |xs| && Comes(xs, i, j)
    ensures RankOf(xs, i, k) <= RankOf(xs, j, k) && (i < k ==> RankOf(xs, i, k) < RankOf(xs, j, k))
  {
    if k > 0 { RankOrder(xs, i, j, k - 1); }
  }

  ghost predicate IsRank(y: Value, n: nat) { exists rank: nat :: 1 <= rank <= n && IsWhole(y, rank) }

  ghost predicate IsWhole(y: Value, rank: nat) { y == Some(rank as real) }

  ghost predicate RankedBefore(x: Value, y: Value) { x.Some? && y.Some? && x.value < y.value }

  /** Ranks are the positions in that order, counted from one. */
  lemma RanksInOrder(xs: Series)
    ensures forall i: nat :: i < |xs| ==> IsRank(Ranked(xs)[i], |xs|)
    ensures forall i: nat, j: nat :: i < |xs| && j < |xs| && i != j ==>
      (RankedBefore(Ranked(xs)[i], Ranked(xs)[j]) <==> Comes(xs, i, j))
  {
    forall i: nat | i < |xs| ensures IsRank(Ranked(xs)[i], |xs|) {
      RankBounds(xs, i, |xs|);
      assert IsWhole(Ranked(xs)[i], RankOf(xs, i, |xs|));
    }
    forall i: nat, j: nat | i < |xs| && j < |xs| && i != j
      ensures RankedBefore(Ranked(xs)[i], Ranked(xs)[j]) <==> Comes(xs, i, j)
    {
      if Comes(xs, i, j) { RankOrder(xs, i, j, |xs|); } else { RankOrder(xs, j, i, |xs|); }
    }
  }

  // ---------------------------------------------------------------- every operation

  /** `y` is what the two inputs, when there are both, differ by. */
  ghost predicate Differs(x: Value, earlier: Value, y: Value) {
    if x.Some? && earlier.Some? then y.Some? && y.value + earlier.value == x.value else y.None?
  }

  /** What output `i` is. */
  ghost predicate Means(std: Series -> Value, op: Operation, xs: Series, ys: Series, i: nat)
    requires i < |xs| == |ys|
  {
    match op
    case Lag(periods) => ys[i] == if i < periods then None else if periods < 0 then None else xs[i - periods]
    case Difference(periods) => if 0 <= periods <= i then Differs(xs[i], xs[i - periods], ys[i]) else ys[i].None?
    case Rolling(statistic, window) =>
      if 1 <= window <= i + 1 then
        var lo := i + 1 - window;
        match statistic
        case Mean =>
          if Count(xs, lo, i + 1) == 0 then ys[i].None?
          else ys[i].Some? && ys[i].value * Count(xs, lo, i + 1) as real == Sum(xs, lo, i + 1)
        case Std => ys[i] == std(xs[lo..i + 1])
        case Change => Differs(xs[i], xs[lo], ys[i])
      else ys[i].None?
    case Ratio(denominator) =>
      |denominator| == |xs|
      && if xs[i].Some? && denominator[i].Some? && denominator[i].value != 0.0
         then ys[i].Some? && ys[i].value * denominator[i].value == xs[i].value
         else ys[i].None?
    case Rank =>
      && IsRank(ys[i], |xs|)
      && forall j: nat :: j < |xs| && j != i ==> (RankedBefore(ys[i], ys[j]) <==> Comes(xs, i, j))
  }

  /** An operation is refused exactly for a period outside 1 to 2520, or a denominator of another length;
      otherwise each output is what the operation means. */
  lemma OperationMeans(std: Series -> Value, op: Operation, xs: Series)
    ensures match Apply(std, op, xs)
      case InvalidPeriod =>
        || (op.Lag? && !(1 <= op.periods <= 2520)) || (op.Difference? && !(1 <= op.periods <= 2520))
        || (op.Rolling? && !(1 <= op.window <= 2520))
      case ShapeMismatch => op.Ratio? && |op.denominator| != |xs|
      case Done(ys) => |ys| == |xs| && forall i: nat :: i < |xs| ==> Means(std, op, xs, ys, i)
    ensures (op.Lag? || op.Difference?) && !(1 <= op.periods <= 2520) ==> Apply(std, op, xs).InvalidPeriod?
    ensures op.Rolling? && !(1 <= op.window <= 2520) ==> Apply(std, op, xs).InvalidPeriod?
  {
    hide Means, Rolled, Ranked;
    if Apply(std, op, xs).Done? {
      forall i: nat | i < |xs| ensures Means(std, op, xs, Apply(std, op, xs).series, i) {
        match op
        case Rolling(statistic, window) => RollingMeans(std, statistic, window, xs, i);
        case Rank => RankMeans(std, xs, i);
        case _ => PointMeans(std, op, xs, i);
      }
    }
  }

  lemma RollingMeans(std: Series -> Value, statistic: Statistic, window: nat, xs: Series, i: nat)
    requires 1 <= window && i < |xs|
    ensures Means(std, Rolling(statistic, window), xs, Rolled(std, xs, statistic, window), i)
  {
    hide Count, Sum, Total, Present;
    if window <= i + 1 {
      SliceTotals(xs, i + 1 - window, i + 1);
      assert Window(xs, i, window) == xs[i + 1 - window..i + 1];
    }
  }

  lemma RankMeans(std: Series -> Value, xs: Series, i: nat)
    requires i < |xs|
    ensures Means(std, Rank, xs, Ranked(xs), i)
  {
    hide Ranked, IsRank, RankedBefore, Comes;
    RanksInOrder(xs);
  }

  lemma PointMeans(std: Series -> Value, op: Operation, xs: Series, i: nat)
    requires (op.Lag? || op.Difference? || op.Ratio?) && i < |xs| && Apply(std, op, xs).Done?
    ensures Means(std, op, xs, Apply(std, op, xs).series, i)
  {}

  /** A pipeline is the rest of it on what its beginning gives, or the error its beginning meets. */
  lemma {:induction false} PipelineInOrder(std: Series -> Value, ops: seq<Operation>, more: seq<Operation>, xs: Series)
    ensures Execute(std, ops + more, xs) ==
      match Execute(std, ops, xs) case Done(ys) => Execute(std, more, ys) case error => error
    ensures Execute(std, [], xs) == Done(xs)
    ensures forall op :: Execute(std, [op], xs) == Apply(std, op, xs)
  {
    hide Apply;
    forall op ensures Execute(std, [op], xs) == Apply(std, op, xs) { assert [op][..0] == []; }
    if more == [] {
      assert ops + more == ops;
    } else {
      PipelineInOrder(std, ops, more[..|more| - 1], xs);
      assert (ops + more)[..|ops + more| - 1] == ops + more[..|more| - 1];
    }
  }
}
