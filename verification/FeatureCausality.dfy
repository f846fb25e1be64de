/** How far back a pipeline looks, why a prefix of the inputs gives a prefix of the outputs, and
    exactly where a pipeline's outputs begin. */
module FeatureCausality {
  import opened Options
  import opened FeaturePipeline
  import opened FeatureMeaning

  /** Operations that look back but not ahead. */
  predicate Backward(ops: seq<Operation>) {
    forall op :: op in ops ==> op.Valid() && !op.Rank?
  }

  /** The lag and difference periods, plus each window less one. */
  function Lookback(ops: seq<Operation>): nat
    requires forall op :: op in ops ==> op.Valid()
  {
    if ops == [] then 0
    else
      assert ops[|ops| - 1] in ops;
      Lookback(ops[..|ops| - 1]) + ops[|ops| - 1].Reach()
  }

  ghost predicate AgreeBack(xs: Series, ys: Series, i: nat, back: nat)
    requires i < |xs| == |ys|
  {
    forall j :: 0 <= j <= i && i - back <= j ==> xs[j] == ys[j]
  }

  lemma ApplyLocal(std: Series -> Value, op: Operation, xs: Series, ys: Series, i: nat)
    requires op.Valid() && !op.Rank? && i < |xs| == |ys| && AgreeBack(xs, ys, i, op.Reach())
    ensures Apply(std, op, xs).Done? <==> Apply(std, op, ys).Done?
    ensures Apply(std, op, xs).Done? ==>
      |Apply(std, op, xs).series| == |Apply(std, op, ys).series| == |xs|
      && Apply(std, op, xs).series[i] == Apply(std, op, ys).series[i]
  {
    if op.Rolling? && i >= op.window - 1 {
      assert Window(xs, i, op.window) == Window(ys, i, op.window);
    }
  }

  lemma ApplyLength(std: Series -> Value, op: Operation, xs: Series)
    ensures Apply(std, op, xs).Done? ==> |Apply(std, op, xs).series| == |xs|
  {}

  lemma {:induction false} ExecuteLength(std: Series -> Value, ops: seq<Operation>, xs: Series)
    ensures Execute(std, ops, xs).Done? ==> |Execute(std, ops, xs).series| == |xs|
  {
    if ops != [] {
      ExecuteLength(std, ops[..|ops| - 1], xs);
      var before := Execute(std, ops[..|ops| - 1], xs);
      if before.Done? { ApplyLength(std, ops[|ops| - 1], before.series); }
    }
  }

  lemma {:induction false} SameShapeSameOutcome(std: Series -> Value, ops: seq<Operation>, xs: Series, ys: Series)
    requires |xs| == |ys|
    ensures Execute(std, ops, xs).Done? <==> Execute(std, ops, ys).Done?
  {
    if ops != [] {
      SameShapeSameOutcome(std, ops[..|ops| - 1], xs, ys);
      ExecuteLength(std, ops[..|ops| - 1], xs);
      ExecuteLength(std, ops[..|ops| - 1], ys);
    }
  }

  /** Output `i` depends only on inputs `i - L` to `i`, where `L` is the pipeline's lookback. */
  lemma {:induction false} OutputDependsOnLookback(std: Series -> Value, ops: seq<Operation>, xs: Series,
                                                   ys: Series, i: nat)
    requires Backward(ops) && i < |xs| == |ys| && AgreeBack(xs, ys, i, Lookback(ops))
    requires Execute(std, ops, xs).Done?
    ensures var outX, outY := Execute(std, ops, xs), Execute(std, ops, ys);
      outY.Done? && |outX.series| == |outY.series| == |xs| && outX.series[i] == outY.series[i]
  {
    hide Apply;
    ExecuteLength(std, ops, xs);
    ExecuteLength(std, ops, ys);
    SameShapeSameOutcome(std, ops, xs, ys);
    if ops != [] {
      var front, last := ops[..|ops| - 1], ops[|ops| - 1];
      assert last in ops;
      var midX, midY := Execute(std, front, xs).series, Execute(std, front, ys).series;
      ExecuteLength(std, front, xs);
      SameShapeSameOutcome(std, front, xs, ys);
      ExecuteLength(std, front, ys);
      forall j | 0 <= j <= i && i - last.Reach() <= j ensures midX[j] == midY[j] {
        OutputDependsOnLookback(std, front, xs, ys, j);
      }
      ApplyLocal(std, last, midX, midY, i);
    }
  }

  // ---------------------------------------------------------------- prefixes

  function TruncatedAll(ops: seq<Operation>, n: nat): (ts: seq<Operation>)
    ensures |ts| == |ops|
  {
    seq(|ops|, i requires 0 <= i < |ops| => ops[i].Truncated(n))
  }

  lemma ApplyPrefix(std: Series -> Value, op: Operation, xs: Series, n: nat)
    requires !op.Rank? && n <= |xs| && Apply(std, op, xs).Done?
    ensures Apply(std, op.Truncated(n), xs[..n]) == Done(Apply(std, op, xs).series[..n])
  {
    var whole := Apply(std, op, xs).series;
    match op
    case Lag(periods) => assert Shifted(xs[..n], periods) == whole[..n];
    case Difference(periods) =>
      assert Shifted(xs[..n], periods) == Shifted(xs, periods)[..n];
      assert Apply(std, op, xs[..n]).series == whole[..n];
    case Rolling(statistic, window) =>
      forall i | window - 1 <= i < n ensures Window(xs[..n], i, window) == Window(xs, i, window) {}
      assert Rolled(std, xs[..n], statistic, window) == whole[..n];
    case Ratio(denominator) => assert Apply(std, op.Truncated(n), xs[..n]).series == whole[..n];
  }

  /** Running a backward pipeline on a prefix gives the prefix of the full result, with the
      denominators of ratios cut to the same length. */
  lemma {:induction false} PrefixOfResult(std: Series -> Value, ops: seq<Operation>, xs: Series, n: nat)
    requires Backward(ops) && n <= |xs| && Execute(std, ops, xs).Done?
    ensures n <= |Execute(std, ops, xs).series|
    ensures Execute(std, TruncatedAll(ops, n), xs[..n]) == Done(Execute(std, ops, xs).series[..n])
  {
    hide Apply;
    ExecuteLength(std, ops, xs);
    var ts := TruncatedAll(ops, n);
    if ops != [] {
      var front, last := ops[..|ops| - 1], ops[|ops| - 1];
      assert last in ops;
      assert ts[..|ts| - 1] == TruncatedAll(front, n);
      ExecuteLength(std, front, xs);
      PrefixOfResult(std, front, xs, n);
      ApplyPrefix(std, last, Execute(std, front, xs).series, n);
    }
  }

  ghost predicate PrefixStable(std: Series -> Value, op: Operation) {
    forall xs: Series, n: nat | n <= |xs| && Apply(std, op, xs).Done? ::
      PrefixStableAt(std, op, xs, n)
  }

  ghost predicate PrefixStableAt(std: Series -> Value, op: Operation, xs: Series, n: nat)
    requires n <= |xs| && Apply(std, op, xs).Done?
  {
    n <= |Apply(std, op, xs).series|
    && Apply(std, op.Truncated(n), xs[..n]) == Done(Apply(std, op, xs).series[..n])
  }

  /** Of the modelled operations exactly ranking looks ahead. */
  lemma BackwardUnlessRank(std: Series -> Value, op: Operation)
    requires op.Valid()
    ensures PrefixStable(std, op) <==> !op.Rank?
  {
    if op.Rank? {
      var xs := [Some(2.0), Some(1.0)];
      assert RankOf(xs, 0, 1) == 1 && RankOf(xs, 0, 2) == 2;
      assert Ranked(xs)[0] == Some(2.0);
      assert RankOf(xs[..1], 0, 1) == 1;
      assert Ranked(xs[..1])[0] == Some(1.0);
      assert !PrefixStableAt(std, op, xs, 1);
    } else {
      forall xs: Series, n: nat | n <= |xs| && Apply(std, op, xs).Done? ensures PrefixStableAt(std, op, xs, n) {
        ApplyPrefix(std, op, xs, n);
        ApplyLength(std, op, xs);
      }
    }
  }

  // ---------------------------------------------------------------- warm-up gaps

  /** The library deviation of a window is missing only when every entry is. */
  ghost predicate SkipsMissing(std: Series -> Value) {
    forall w: Series :: w != [] ==> (std(w).Some? <==> Present(w) > 0)
  }

  ghost predicate StartsAt(xs: Series, gap: nat) {
    forall i :: 0 <= i < |xs| ==> (xs[i].Some? <==> i >= gap)
  }

  lemma {:induction false} PresentIff(xs: Series)
    ensures Present(xs) > 0 <==> exists i :: 0 <= i < |xs| && xs[i].Some?
  {
    if xs != [] {
      var front := xs[..|xs| - 1];
      PresentIff(front);
      assert forall i :: 0 <= i < |front| ==> front[i] == xs[i];
    }
  }

  lemma WindowPresent(xs: Series, gap: nat, i: nat, window: nat)
    requires StartsAt(xs, gap) && 1 <= window <= i + 1 <= |xs|
    ensures Present(Window(xs, i, window)) > 0 <==> i >= gap
  {
    var w := Window(xs, i, window);
    PresentIff(w);
    assert w[window - 1] == xs[i];
    assert forall j :: 0 <= j < window ==> w[j] == xs[i - window + 1 + j];
  }

  lemma ApplyGap(std: Series -> Value, op: Operation, xs: Series, gap: nat)
    requires SkipsMissing(std) && op.Valid() && !op.Rank? && !op.Ratio? && StartsAt(xs, gap)
    ensures Apply(std, op, xs).Done? && StartsAt(Apply(std, op, xs).series, op.Gap(gap))
  {
    if op.Rolling? {
      forall i | op.window - 1 <= i < |xs| ensures Present(Window(xs, i, op.window)) > 0 <==> i >= gap {
        WindowPresent(xs, gap, i, op.window);
      }
    }
  }

  function GapOf(ops: seq<Operation>): nat
    requires forall op :: op in ops ==> op.Valid()
  {
    if ops == [] then 0
    else
      assert ops[|ops| - 1] in ops;
      ops[|ops| - 1].Gap(GapOf(ops[..|ops| - 1]))
  }

  /** On complete inputs a pipeline of lags, differences and rolling statistics is missing exactly
      its first `GapOf(ops)` outputs: lags, differences and changes add up, while means and
      deviations skip missing entries and only ever wait for a full window. */
  lemma {:induction false} GapIsExact(std: Series -> Value, ops: seq<Operation>, xs: Series)
    requires SkipsMissing(std) && StartsAt(xs, 0)
    requires forall op :: op in ops ==> op.Valid() && !op.Rank? && !op.Ratio?
    ensures Execute(std, ops, xs).Done? && StartsAt(Execute(std, ops, xs).series, GapOf(ops))
    ensures |Execute(std, ops, xs).series| == |xs|
  {
    hide Apply, StartsAt, SkipsMissing;
    ExecuteLength(std, ops, xs);
    if ops != [] {
      assert ops[|ops| - 1] in ops;
      GapIsExact(std, ops[..|ops| - 1], xs);
      ApplyGap(std, ops[|ops| - 1], Execute(std, ops[..|ops| - 1], xs).series, GapOf(ops[..|ops| - 1]));
    }
  }

  /** The gap never exceeds the lookback. */
  lemma {:induction false} GapWithinLookback(ops: seq<Operation>)
    requires Backward(ops)
    ensures GapOf(ops) <= Lookback(ops)
  {
    if ops != [] {
      assert ops[|ops| - 1] in ops;
      GapWithinLookback(ops[..|ops| - 1]);
    }
  }

  // ---------------------------------------------------------------- the lookback is reached

  /** Both series begin at the gap, and `p` is the last place where they differ. */
  ghost predicate LastDiffer(xs: Series, ys: Series, gap: nat, p: nat) {
    && |xs| == |ys| && gap <= p < |xs| && StartsAt(xs, gap) && StartsAt(ys, gap)
    && xs[p] != ys[p] && forall j :: p < j < |xs| ==> xs[j] == ys[j]
  }

  /** Operations whose output always changes with the oldest input it reads; a change over a window of
      one is always zero. */
  predicate Sensitive(op: Operation) {
    op.Lag? || op.Difference? || (op.Rolling? && (op.statistic.Mean? || (op.statistic.Change? && op.window > 1)))
  }

  lemma {:induction false} SumsAlike(xs: Series, ys: Series, lo: nat, hi: nat)
    requires lo <= hi <= |xs| == |ys| && forall j :: lo <= j < hi ==> xs[j] == ys[j]
    ensures Count(xs, lo, hi) == Count(ys, lo, hi) && Sum(xs, lo, hi) == Sum(ys, lo, hi)
    decreases hi - lo
  {
    if lo < hi { SumsAlike(xs, ys, lo + 1, hi); }
  }

  lemma DiffersOn(std: Series -> Value, op: Operation, xs: Series, ys: Series, gap: nat, p: nat)
    requires op.Valid() && Sensitive(op) && LastDiffer(xs, ys, gap, p) && p + op.Reach() < |xs|
    ensures Apply(std, op, xs).Done? && Apply(std, op, ys).Done?
    ensures var outX, outY := Apply(std, op, xs).series, Apply(std, op, ys).series;
      |outX| == |outY| == |xs| && outX[p + op.Reach()] != outY[p + op.Reach()]
  {
    hide Apply, Count, Sum;
    var i := p + op.Reach();
    OperationMeans(std, op, xs);
    OperationMeans(std, op, ys);
    ApplyGapless(std, op, xs);
    ApplyGapless(std, op, ys);
    assert Means(std, op, xs, Apply(std, op, xs).series, i) && Means(std, op, ys, Apply(std, op, ys).series, i);
    if op.Rolling? {
      SumsAlike(xs, ys, p + 1, i + 1);
      SumFrom(xs, p, i + 1);
      SumFrom(ys, p, i + 1);
      assert i + 1 - op.window == p;
      var outX, outY := Apply(std, op, xs).series[i], Apply(std, op, ys).series[i];
      if op.statistic.Mean? {
        MeansDiffer(outX.value, outY.value, Count(xs, p, i + 1), Sum(xs, p, i + 1), Sum(ys, p, i + 1));
      }
    }
  }

  lemma MeansDiffer(x: real, y: real, count: nat, sumX: real, sumY: real)
    requires x * count as real == sumX && y * count as real == sumY && sumX != sumY
    ensures x != y
  {}

  lemma SumFrom(xs: Series, lo: nat, hi: nat)
    requires lo < hi <= |xs| && xs[lo].Some?
    ensures Count(xs, lo, hi) == 1 + Count(xs, lo + 1, hi) && Sum(xs, lo, hi) == xs[lo].value + Sum(xs, lo + 1, hi)
  {}

  lemma ApplyGapless(std: Series -> Value, op: Operation, xs: Series)
    requires op.Valid() && !op.Ratio?
    ensures Apply(std, op, xs).Done?
  {}

  lemma AgreesPast(std: Series -> Value, op: Operation, xs: Series, ys: Series, gap: nat, p: nat)
    requires SkipsMissing(std) && op.Valid() && Sensitive(op) && LastDiffer(xs, ys, gap, p) && p + op.Reach() < |xs|
    requires op.Gap(gap) <= p + op.Reach()
    ensures Apply(std, op, xs).Done? && Apply(std, op, ys).Done?
    ensures LastDiffer(Apply(std, op, xs).series, Apply(std, op, ys).series, op.Gap(gap), p + op.Reach())
  {
    hide Apply;
    DiffersOn(std, op, xs, ys, gap, p);
    ApplyGap(std, op, xs, gap);
    ApplyGap(std, op, ys, gap);
    forall j | p + op.Reach() < j < |xs| ensures Apply(std, op, xs).series[j] == Apply(std, op, ys).series[j] {
      ApplyLocal(std, op, xs, ys, j);
    }
  }

  /** The lookback is no more than a pipeline of lags, differences, means and such changes needs: on complete
      inputs, changing the one input that lies the lookback before an output changes that output. */
  lemma {:induction false} LookbackIsReached(std: Series -> Value, ops: seq<Operation>, xs: Series, m: nat, v: real)
    requires SkipsMissing(std) && StartsAt(xs, 0) && forall op :: op in ops ==> op.Valid() && Sensitive(op)
    requires m + Lookback(ops) < |xs| && Some(v) != xs[m]
    ensures Execute(std, ops, xs).Done? && Execute(std, ops, xs[m := Some(v)]).Done?
    ensures LastDiffer(Execute(std, ops, xs).series, Execute(std, ops, xs[m := Some(v)]).series, GapOf(ops),
                       m + Lookback(ops))
  {
    hide Apply, LastDiffer, SkipsMissing;
    var ys := xs[m := Some(v)];
    if ops == [] {
      assert LastDiffer(xs, ys, 0, m) by { OneDiffers(xs, m, v); }
    } else {
      var front, last := ops[..|ops| - 1], ops[|ops| - 1];
      assert last in ops;
      LookbackIsReached(std, front, xs, m, v);
      GapWithinLookback(ops);
      ExecuteLength(std, front, xs);
      AgreesPast(std, last, Execute(std, front, xs).series, Execute(std, front, ys).series, GapOf(front),
                 m + Lookback(front));
    }
  }

  lemma OneDiffers(xs: Series, m: nat, v: real)
    requires StartsAt(xs, 0) && m < |xs| && Some(v) != xs[m]
    ensures LastDiffer(xs, xs[m := Some(v)], 0, m)
  {}
}
