/** Logging a histogram, sparsely or densely, and loading it back.  The log is seen as
    the sequence of numbers that the typed writers put and the typed readers get. */
module HistogramLog {
  import opened HistogramSpec
  import opened Histograms

  function StatFields(s: Stat): seq<int> {
    if s.count == 0 then [0] else [s.count, s.min, s.max, s.sum, s.sqSum]
  }

  /** How many bins from `k` on are in use. */
  function Busy(bins: seq<nat>, k: nat): (n: nat)
    requires k <= |bins|
    ensures n <= |bins| - k
    decreases |bins| - k
  {
    if k == |bins| then 0 else (if bins[k] > 0 then 1 else 0) + Busy(bins, k + 1)
  }

  /** Position and count of the bins from `k` on that are in use. */
  function Pairs(bins: seq<nat>, k: nat): (p: seq<int>)
    requires k <= |bins|
    ensures |p| == 2 * Busy(bins, k)
    decreases |bins| - k
  {
    if k == |bins| then [] else (if bins[k] > 0 then [k, bins[k]] else []) + Pairs(bins, k + 1)
  }

  /** Sparse unless that saves less than 20%. */
  predicate SaveSpace(bins: seq<nat>) {
    200 * Busy(bins, 0) <= 80 * |bins|
  }

  function BinFields(bins: seq<nat>): seq<int> {
    if SaveSpace(bins) then [1, |bins|, Busy(bins, 0)] + Pairs(bins, 0)
    else [0, |bins|] + bins
  }

  function Fields(l: Limits, s: Stat, bins: seq<nat>): seq<int> {
    [l.valMin, l.valMax, l.binMax] + StatFields(s) + BinFields(bins)
  }

  /** The order of the numbers: five bins with three samples of 4 in the second, and two
      bins with a sample each. */
  lemma SpelledOut(l: Limits)
    ensures Fields(l, Stat(3, 4, 4, 12, 48), [0, 3, 0, 0, 0])
         == [l.valMin, l.valMax, l.binMax, 3, 4, 4, 12, 48, 1, 5, 1, 1, 3]
    ensures Fields(l, Stat(2, 9, 7, 16, 130), [1, 1])
         == [l.valMin, l.valMax, l.binMax, 2, 7, 9, 16, 130, 0, 2, 1, 1]
    ensures Fields(l, Stat(0, -1, -1, 0, 0), [0]) == [l.valMin, l.valMax, l.binMax, 0, 1, 1, 0]
  {
    hide Pairs, Busy;
    OneInFive();
    BothBusy();
    NoneBusy([0], 0);
    assert Pairs([0], 0) == [];
  }

  lemma OneInFive()
    ensures Busy([0, 3, 0, 0, 0], 0) == 1 && Pairs([0, 3, 0, 0, 0], 0) == [1, 3]
  {
    var bins: seq<nat> := [0, 3, 0, 0, 0];
    assert Busy(bins, 5) == 0 && Busy(bins, 4) == 0 && Busy(bins, 3) == 0 && Busy(bins, 2) == 0;
    NoneLeft(bins, 2);
    OneBin(bins, 1);
    OneBin(bins, 0);
  }

  lemma BothBusy()
    ensures Busy([1, 1], 0) == 2
  {
    assert Busy([1, 1], 2) == 0 && Busy([1, 1], 1) == 1;
  }

  /** The bins are logged as pairs exactly if the pairs take at most four fifths of the room. */
  lemma PairsIfShorter(bins: seq<nat>)
    ensures BinFields(bins)[0] == 1 <==> 5 * |Pairs(bins, 0)| <= 4 * |bins|
    ensures |BinFields(bins)| <= 2 + if 5 * |Pairs(bins, 0)| <= 4 * |bins| then 1 + |Pairs(bins, 0)| else |bins|
  {
    hide Pairs, Busy;
  }

  lemma PairsStep(bins: seq<nat>, k: nat, pre: seq<int>)
    requires k < |bins|
    ensures pre + Pairs(bins, k) == (if bins[k] > 0 then pre + [k, bins[k]] else pre) + Pairs(bins, k + 1)
  {}

  method Store(h: Histogram) returns (log: seq<int>)
    requires h.Valid()
    ensures log == Fields(h.limits, h.theStats.State(), h.theBins[..])
  {
    ghost var bins := h.theBins[..];
    var stats := h.theStats;
    log := [h.limits.valMin, h.limits.valMax, h.limits.binMax];
    log := log + if stats.theCount == 0 then [0]
                 else [stats.theCount, stats.theMin, stats.theMax, stats.theSum, stats.theSqSum];
    var busyCount := CountBusy(h);
    ghost var head := log;
    if 200 * busyCount <= 80 * h.theBins.Length {
      log := log + [1, h.theBins.Length, busyCount];
      for i := 0 to h.theBins.Length
        invariant log + Pairs(bins, i) == head + ([1, |bins|, Busy(bins, 0)] + Pairs(bins, 0))
      {
        PairsStep(bins, i, log);
        if h.theBins[i] > 0 {
          log := log + [i, h.theBins[i]];
        }
      }
    } else {
      log := log + [0, h.theBins.Length] + h.theBins[..];
    }
  }

  /** Nothing has to be counted when nothing was recorded. */
  method CountBusy(h: Histogram) returns (busyCount: nat)
    requires h.Valid()
    ensures busyCount == Busy(h.theBins[..], 0)
  {
    ghost var bins := h.theBins[..];
    busyCount := 0;
    if h.theStats.theCount > 0 {
      for i := 0 to h.theBins.Length
        invariant busyCount + Busy(bins, i) == Busy(bins, 0)
      {
        if h.theBins[i] > 0 {
          busyCount := busyCount + 1;
        }
      }
    } else {
      NoneBusy(bins, 0);
    }
  }

  lemma {:induction false} NoneBusy(bins: seq<nat>, k: nat)
    requires k <= |bins| && forall i :: 0 <= i < |bins| ==> bins[i] == 0
    ensures Busy(bins, k) == 0
    decreases |bins| - k
  {
    if k < |bins| {
      NoneBusy(bins, k + 1);
    }
  }

  lemma OneBin(bins: seq<nat>, k: nat)
    requires k < |bins|
    ensures Busy(bins, k) == (if bins[k] > 0 then 1 else 0) + Busy(bins, k + 1)
    ensures bins[k] > 0 ==> Pairs(bins, k) == [k, bins[k]] + Pairs(bins, k + 1)
    ensures bins[k] == 0 ==> Pairs(bins, k) == Pairs(bins, k + 1)
  {
    if bins[k] == 0 {
      assert [] + Pairs(bins, k + 1) == Pairs(bins, k + 1);
    }
  }

  lemma {:induction false} NextBusy(bins: seq<nat>, k: nat) returns (p: nat)
    requires k <= |bins| && Busy(bins, k) > 0
    ensures k <= p < |bins| && bins[p] > 0
    ensures forall i :: k <= i < p ==> bins[i] == 0
    ensures Pairs(bins, k) == [p, bins[p]] + Pairs(bins, p + 1)
    ensures Busy(bins, k) == 1 + Busy(bins, p + 1)
    decreases |bins| - k
  {
    hide Pairs, Busy;
    assert k < |bins|;
    OneBin(bins, k);
    if bins[k] > 0 {
      p := k;
    } else {
      p := NextBusy(bins, k + 1);
    }
  }

  lemma {:induction false} NoneLeft(bins: seq<nat>, k: nat)
    requires k <= |bins| && Busy(bins, k) == 0
    ensures Pairs(bins, k) == []
    ensures forall i :: k <= i < |bins| ==> bins[i] == 0
    decreases |bins| - k
  {
    if k < |bins| {
      NoneLeft(bins, k + 1);
    }
  }

  lemma AfterLimits(l: Limits, s: Stat, bins: seq<nat>, log: seq<int>, rest: seq<int>)
    requires log == Fields(l, s, bins) + rest
    ensures |log| >= 3 && log[3..] == StatFields(s) + (BinFields(bins) + rest)
  {
    hide StatFields, BinFields;
    assert [l.valMin, l.valMax, l.binMax] + StatFields(s) + BinFields(bins) + rest
        == [l.valMin, l.valMax, l.binMax] + (StatFields(s) + (BinFields(bins) + rest));
  }

  /** Loading what was stored for the samples `xs` into a reset histogram with the same
      limits restores every bin and statistic and leaves the rest of the log unread. */
  method Load(h: Histogram, log: seq<int>, ghost s: Stat, ghost bins: seq<nat>, ghost xs: seq<int>, ghost rest: seq<int>)
      returns (used: nat)
    requires h.Valid() && h.theStats.samples == []
    requires StatOf(s, xs) && BinsOf(bins, h.limits, xs)
    requires log == Fields(h.limits, s, bins) + rest
    modifies h, h.theBins, h.theStats
    ensures h.Valid() && h.limits == old(h.limits)
    ensures h.theStats.State() == s && h.theBins[..] == bins && h.theStats.samples == xs
    ensures used <= |log| && log[used..] == rest
  {
    hide StatFields, BinFields;
    AfterLimits(h.limits, s, bins, log, rest);
    used := LoadStats(h.theStats, log, 3, s, BinFields(bins) + rest, xs);
    used := LoadBins(h, log, used, bins, rest);
  }

  method LoadStats(stats: AggrStat, log: seq<int>, at: nat, ghost s: Stat, ghost more: seq<int>, ghost xs: seq<int>)
      returns (used: nat)
    requires StatOf(s, xs)
    requires at <= |log| && log[at..] == StatFields(s) + more
    requires stats.State() == Stat(0, -1, -1, 0, 0)
    modifies stats
    ensures stats.State() == s && stats.samples == xs
    ensures used <= |log| && log[used..] == more
  {
    assert log[at] == log[at..][0];
    stats.samples := xs;
    if log[at] == 0 {
      stats.theCount := 0;
      assert log[at + 1..] == log[at..][1..];
      return at + 1;
    }
    assert log[at + 1] == log[at..][1] && log[at + 2] == log[at..][2];
    assert log[at + 3] == log[at..][3] && log[at + 4] == log[at..][4];
    stats.theCount, stats.theMin, stats.theMax, stats.theSum, stats.theSqSum :=
      log[at], log[at + 1], log[at + 2], log[at + 3], log[at + 4];
    assert log[at + 5..] == log[at..][5..];
    used := at + 5;
  }

  lemma Behind(log: seq<int>, at: nat, head: seq<int>, more: seq<int>)
    requires at <= |log| && log[at..] == head + more
    ensures |log| >= at + |head| && log[at + |head|..] == more
    ensures forall i :: at <= i < at + |head| ==> log[i] == head[i - at]
  {
    var tail := log[at..];
    assert log[at + |head|..] == tail[|head|..];
    assert forall i :: at <= i < at + |head| ==> log[i] == tail[i - at];
  }

  lemma Regrouped(a: seq<int>, b: seq<int>, c: seq<int>)
    ensures a + b + c == a + (b + c)
  {}

  lemma SparseFields(log: seq<int>, at: nat, bins: seq<nat>, rest: seq<int>)
    requires at <= |log| && log[at..] == BinFields(bins) + rest && SaveSpace(bins)
    ensures |log| >= at + 3 && log[at] == 1 && log[at + 1] == |bins| && log[at + 2] == Busy(bins, 0)
    ensures log[at + 3..] == Pairs(bins, 0) + rest
  {
    hide Pairs, Busy, SaveSpace;
    var head := [1, |bins|, Busy(bins, 0)];
    Regrouped(head, Pairs(bins, 0), rest);
    Behind(log, at, head, Pairs(bins, 0) + rest);
  }

  lemma DenseFields(log: seq<int>, at: nat, bins: seq<nat>, rest: seq<int>)
    requires at <= |log| && log[at..] == BinFields(bins) + rest && !SaveSpace(bins)
    ensures |log| >= at + 2 && log[at] == 0 && log[at + 1] == |bins|
    ensures log[at + 2..] == bins + rest
  {
    hide Pairs, Busy, SaveSpace;
    var head := [0, |bins|];
    Regrouped(head, bins, rest);
    Behind(log, at, head, bins + rest);
  }

  lemma BinFieldsSplit(log: seq<int>, at: nat, bins: seq<nat>, rest: seq<int>)
    requires at <= |log| && log[at..] == BinFields(bins) + rest
    ensures |log| >= at + 2 && log[at + 1] == |bins|
    ensures log[at] == 0 ==> log[at + 2..] == bins + rest
    ensures log[at] != 0 ==> |log| >= at + 3 && log[at + 2] == Busy(bins, 0) && log[at + 3..] == Pairs(bins, 0) + rest
  {
    hide Pairs, Busy, SaveSpace, BinFields;
    if SaveSpace(bins) {
      SparseFields(log, at, bins, rest);
    } else {
      DenseFields(log, at, bins, rest);
    }
  }

  method LoadBins(h: Histogram, log: seq<int>, at: nat, ghost bins: seq<nat>, ghost rest: seq<int>)
      returns (used: nat)
    requires at <= |log| && log[at..] == BinFields(bins) + rest
    requires |bins| == h.theBins.Length > 0
    requires forall k :: 0 <= k < h.theBins.Length ==> h.theBins[k] == 0
    modifies h.theBins
    ensures h.theBins[..] == bins
    ensures used <= |log| && log[used..] == rest
  {
    hide Pairs, Busy, BinFields;
    BinFieldsSplit(log, at, bins, rest);
    if log[at] != 0 {
      used := LoadSparse(h.theBins, log, at + 3, log[at + 2], bins, rest);
    } else {
      used := LoadDense(h.theBins, log, at + 2, log[at + 1], bins, rest);
    }
  }

  method LoadDense(a: array<nat>, log: seq<int>, at: nat, count: nat, ghost bins: seq<nat>, ghost rest: seq<int>)
      returns (used: nat)
    requires at <= |log| && log[at..] == bins + rest && count == |bins| == a.Length
    modifies a
    ensures a[..] == bins
    ensures used <= |log| && log[used..] == rest
  {
    for i := 0 to count
      invariant forall j :: 0 <= j < i ==> a[j] == bins[j]
    {
      assert log[at + i] == log[at..][i];
      a[i] := log[at + i];
    }
    assert log[at + count..] == log[at..][count..];
    used := at + count;
  }

  method LoadSparse(a: array<nat>, log: seq<int>, at: nat, busyCount: nat, ghost bins: seq<nat>, ghost rest: seq<int>)
      returns (used: nat)
    requires at <= |log| && log[at..] == Pairs(bins, 0) + rest
    requires busyCount == Busy(bins, 0) && |bins| == a.Length
    requires forall k :: 0 <= k < a.Length ==> a[k] == 0
    modifies a
    ensures a[..] == bins
    ensures used <= |log| && log[used..] == rest
  {
    hide Pairs, Busy;
    used := at;
    ghost var k := 0;
    for i := 0 to busyCount
      invariant used <= |log| && k <= |bins| && log[used..] == Pairs(bins, k) + rest
      invariant busyCount - i == Busy(bins, k)
      invariant forall j :: 0 <= j < k ==> a[j] == bins[j]
      invariant forall j :: k <= j < |bins| ==> a[j] == 0
    {
      ghost var p := NextBusy(bins, k);
      Regrouped([p, bins[p]], Pairs(bins, p + 1), rest);
      ReadPair(log, used, p, bins[p], Pairs(bins, p + 1) + rest);
      a[log[used]] := log[used + 1];
      used := used + 2;
      k := p + 1;
    }
    NoneLeft(bins, k);
    assert [] + rest == rest;
  }

  lemma ReadPair(log: seq<int>, at: nat, x: int, y: int, more: seq<int>)
    requires at <= |log| && log[at..] == [x, y] + more
    ensures at + 2 <= |log| && log[at] == x && log[at + 1] == y && log[at + 2..] == more
  {
    assert log[at] == log[at..][0] && log[at + 1] == log[at..][1];
    assert log[at + 2..] == log[at..][2..];
  }
}
