/** Aggregate statistics and histograms as functions of the samples they stand for. */
module HistogramSpec {
  import opened CInts
  import opened Log2Bins

  // ----- aggregate statistics -----

  datatype Stat = Stat(count: nat, max: int, min: int, sum: int, sqSum: int) {
    predicate Sane() { count == 0 || (min <= max && sqSum >= 0) }

    /** What `stdDev` divides and takes the root of, times the count. */
    function Spread(): int { count * sqSum - sum * sum }
  }

  function Sum(xs: seq<int>): int {
    if xs == [] then 0 else Sum(xs[..|xs| - 1]) + xs[|xs| - 1]
  }

  function SqSum(xs: seq<int>): (s: nat) {
    if xs == [] then 0
    else SqSum(xs[..|xs| - 1]) + Square(xs[|xs| - 1])
  }

  function Square(x: int): (s: nat) { x * x }

  ghost predicate IsMax(m: int, xs: seq<int>) {
    m in xs && forall x :: x in xs ==> x <= m
  }

  ghost predicate IsMin(m: int, xs: seq<int>) {
    m in xs && forall x :: x in xs ==> m <= x
  }

  /** These statistics are those of the samples; without samples the extremes are -1. */
  ghost predicate StatOf(s: Stat, xs: seq<int>) {
    && s.count == |xs| && s.sum == Sum(xs) && s.sqSum == SqSum(xs)
    && (if xs == [] then s.max == s.min == -1 else IsMax(s.max, xs) && IsMin(s.min, xs))
  }

  lemma StatOfIsUnique(s: Stat, t: Stat, xs: seq<int>)
    requires StatOf(s, xs) && StatOf(t, xs)
    ensures s == t
  {
    if xs != [] {
      assert s.max <= t.max && t.max <= s.max;
      assert s.min <= t.min && t.min <= s.min;
    }
  }

  lemma {:induction false} SumsConcat(xs: seq<int>, ys: seq<int>)
    ensures Sum(xs + ys) == Sum(xs) + Sum(ys)
    ensures SqSum(xs + ys) == SqSum(xs) + SqSum(ys)
    decreases |ys|
  {
    hide Square;
    if ys == [] {
      assert xs + ys == xs;
    } else {
      assert (xs + ys)[..|xs + ys| - 1] == xs + ys[..|ys| - 1];
      SumsConcat(xs, ys[..|ys| - 1]);
    }
  }

  /** The sum of squared distances of the samples from `v`. */
  function SqDist(xs: seq<int>, v: int): (d: nat) {
    if xs == [] then 0
    else SqDist(xs[..|xs| - 1], v) + Square(xs[|xs| - 1] - v)
  }

  lemma {:induction false} SqDistExpands(xs: seq<int>, v: int)
    ensures SqDist(xs, v) == |xs| * (v * v) - 2 * Sum(xs) * v + SqSum(xs)
  {
    hide Square;
    if xs != [] {
      var init, x := xs[..|xs| - 1], xs[|xs| - 1];
      SqDistExpands(init, v);
      DistanceGrows(|init|, Sum(init), SqSum(init), x, v);
    }
  }

  lemma DistanceGrows(n: nat, s: int, q: int, x: int, v: int)
    ensures n * (v * v) - 2 * s * v + q + Square(x - v)
         == (n + 1) * (v * v) - 2 * (s + x) * v + (q + Square(x))
  {
    assert Square(x - v) == x * x - 2 * x * v + v * v;
    assert 2 * (s + x) * v == 2 * s * v + 2 * x * v;
  }

  /** The numerator under the root of `stdDev` is never negative. */
  lemma {:induction false} SpreadIsNonNegative(xs: seq<int>)
    ensures |xs| * SqSum(xs) - Sum(xs) * Sum(xs) >= 0
  {
    if xs != [] {
      var init, v := xs[..|xs| - 1], xs[|xs| - 1];
      SpreadIsNonNegative(init);
      SqDistExpands(init, v);
      SpreadGrows(|init|, Sum(init), SqSum(init), v);
    }
  }

  /** Hence the guards against insane statistics never fire. */
  lemma StatisticsStaySane(s: Stat, xs: seq<int>)
    requires StatOf(s, xs)
    ensures s.Sane() && s.Spread() >= 0
  {
    SpreadIsNonNegative(xs);
    if xs != [] {
      assert xs[0] in xs;
    }
  }

  lemma SpreadGrows(n: nat, s: int, q: int, v: int)
    ensures (n + 1) * (q + v * v) - (s + v) * (s + v)
         == (n * q - s * s) + (n * (v * v) - 2 * s * v + q)
  {
    assert (s + v) * (s + v) == s * s + 2 * s * v + v * v;
    assert (n + 1) * (q + v * v) == n * q + n * (v * v) + q + v * v;
  }

  // ----- bins -----

  datatype Kind = Line | Log2

  function BinIn(kind: Kind, v: nat): nat { if kind == Line then v else BinOf(v) }

  function ValIn(kind: Kind, b: nat): nat { if kind == Line then b else ValOf(b) }

  /** `binMax` is the index of the last bin, which like the first one is open-ended. */
  datatype Limits = Limits(kind: Kind, valMin: int, valMax: int, binMax: nat) {
    function IndexOf(v: int): (k: nat)
      ensures k <= binMax
    {
      if v < valMin then 0
      else
        var k := BinIn(kind, v - valMin) + 1;
        if k <= binMax then k else binMax
    }

    /** The value interval the iterator shows for bin `k`. */
    function Sup(k: nat): int
      requires k <= binMax
    {
      if k == 0 then valMin
      else if k < binMax then ValIn(kind, k) + valMin
      else if valMax < INT_MAX then valMax + 1 else INT_MAX
    }

    function Min(k: nat): int
      requires k <= binMax
    {
      if k == 0 then -1 else Sup(k - 1)
    }
  }

  lemma KindPair(kind: Kind, v: nat, b: nat)
    ensures BinIn(kind, v) == b <==> ValIn(kind, b) <= v < ValIn(kind, b + 1)
    ensures ValIn(kind, 0) == 0
  {
    if kind == Log2 {
      InItsBin(v);
      if BinOf(v) + 1 <= b {
        if BinOf(v) + 1 < b { ValOfIncreases(BinOf(v) + 1, b); }
      } else if b + 1 <= BinOf(v) {
        if b + 1 < BinOf(v) { ValOfIncreases(b + 1, BinOf(v)); }
      }
    }
  }

  /** An inner bin's iterator interval holds exactly the values recorded in it; the first
      bin takes what lies below the minimum, the last whatever lies above the inner bins. */
  lemma BinHoldsItsInterval(l: Limits, v: int, k: nat)
    requires k <= l.binMax && l.binMax > 0
    ensures 0 < k < l.binMax ==> (l.IndexOf(v) == k <==> l.Min(k) <= v < l.Sup(k))
    ensures k == 0 ==> (l.IndexOf(v) == k <==> v < l.Sup(k))
    ensures k == l.binMax ==> (l.IndexOf(v) == k <==> l.Min(k) <= v)
  {
    if v >= l.valMin {
      KindPair(l.kind, v - l.valMin, if k > 0 then k - 1 else 0);
      if k == l.binMax {
        LastBinTakesTheRest(l, v - l.valMin);
      }
    } else if k > 0 {
      KindPair(l.kind, 0, 0);
      MinIsNotBelow(l, k);
    }
  }

  lemma MinIsNotBelow(l: Limits, k: nat)
    requires 0 < k <= l.binMax
    ensures l.Min(k) == ValIn(l.kind, k - 1) + l.valMin
  {}

  lemma LastBinTakesTheRest(l: Limits, v: nat)
    requires l.binMax > 0
    ensures BinIn(l.kind, v) + 1 >= l.binMax <==> ValIn(l.kind, l.binMax - 1) <= v
  {
    if l.kind == Log2 {
      var b, m := BinOf(v), l.binMax - 1;
      InItsBin(v);
      if b < m {
        if b + 1 < m { ValOfIncreases(b + 1, m); }
      } else if m < b {
        ValOfIncreases(m, b);
      }
    }
  }

  /** How many samples fall into bin `k`. */
  function CountAt(l: Limits, xs: seq<int>, k: nat): (c: nat)
    ensures c <= |xs|
  {
    if xs == [] then 0
    else CountAt(l, xs[..|xs| - 1], k) + if l.IndexOf(xs[|xs| - 1]) == k then 1 else 0
  }

  lemma {:induction false} CountsConcat(l: Limits, xs: seq<int>, ys: seq<int>, k: nat)
    ensures CountAt(l, xs + ys, k) == CountAt(l, xs, k) + CountAt(l, ys, k)
    decreases |ys|
  {
    if ys == [] {
      assert xs + ys == xs;
    } else {
      assert (xs + ys)[..|xs + ys| - 1] == xs + ys[..|ys| - 1];
      CountsConcat(l, xs, ys[..|ys| - 1], k);
    }
  }

  /** The bins of a histogram with these samples. */
  ghost predicate BinsOf(bins: seq<nat>, l: Limits, xs: seq<int>) {
    |bins| == l.binMax + 1 && forall k :: 0 <= k < |bins| ==> bins[k] == CountAt(l, xs, k)
  }

  /** The first `k` bins together. */
  function Cum(bins: seq<nat>, k: nat): (c: nat)
    requires k <= |bins|
  {
    if k == 0 then 0 else Cum(bins, k - 1) + bins[k - 1]
  }

  lemma {:induction false} CumAfterOne(bins: seq<nat>, bins': seq<nat>, at: nat, k: nat)
    requires at < |bins| == |bins'| && k <= |bins|
    requires bins' == bins[at := bins[at] + 1]
    ensures Cum(bins', k) == Cum(bins, k) + if at < k then 1 else 0
  {
    if k > 0 {
      CumAfterOne(bins, bins', at, k - 1);
    }
  }

  function Binned(l: Limits, xs: seq<int>): (bins: seq<nat>)
    ensures |bins| == l.binMax + 1
    ensures forall k :: 0 <= k < |bins| ==> bins[k] == CountAt(l, xs, k)
  {
    seq(l.binMax + 1, k requires 0 <= k => CountAt(l, xs, k))
  }

  /** Every sample is counted once. */
  lemma {:induction false} BinsSumToCount(l: Limits, xs: seq<int>)
    ensures Cum(Binned(l, xs), l.binMax + 1) == |xs|
  {
    var bins := Binned(l, xs);
    if xs == [] {
      CumOfZeros(bins, |bins|);
    } else {
      var init := xs[..|xs| - 1];
      BinsSumToCount(l, init);
      var at := l.IndexOf(xs[|xs| - 1]);
      assert bins == Binned(l, init)[at := Binned(l, init)[at] + 1];
      CumAfterOne(Binned(l, init), bins, at, |bins|);
    }
  }

  lemma {:induction false} CumOfZeros(bins: seq<nat>, k: nat)
    requires k <= |bins| && forall i :: 0 <= i < |bins| ==> bins[i] == 0
    ensures Cum(bins, k) == 0
  {
    if k > 0 {
      CumOfZeros(bins, k - 1);
    }
  }
}
