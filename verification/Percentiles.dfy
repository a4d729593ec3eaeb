/** Iterating over a histogram's bins, and building percentile entries from them. */
module PercentileRanks {
  import opened CInts
  import opened Log2Bins
  import opened HistogramSpec

  /** A bin as the iterator shows it, or several merged into one. */
  datatype Bin = Bin(min: int, sup: int, idx: nat, count: nat, accCount: nat) {
    function Plus(b: Bin): Bin {
      if b.count == 0 then this
      else if count > 0 then this.(count := count + b.count, accCount := b.accCount, sup := b.sup)
      else b
    }
  }

  const NoBin := Bin(-1, -1, 0, 0, 0)

  function BinAt(l: Limits, bins: seq<nat>, k: nat): Bin
    requires |bins| == l.binMax + 1 && k <= l.binMax
  {
    Bin(l.Min(k), l.Sup(k), k, bins[k], Cum(bins, k + 1))
  }

  /** The iterator: each step derives the next bin from the previous one's upper end. */
  class HistogramConstIter {
    const limits: Limits
    const bins: seq<nat>
    var theBin: Bin

    ghost predicate Valid()
      reads this
    {
      && |bins| == limits.binMax + 1 && theBin.idx <= |bins|
      && (theBin.idx < |bins| ==> theBin == BinAt(limits, bins, theBin.idx))
    }

    predicate More()
      reads this
    {
      theBin.idx <= limits.binMax
    }

    constructor (l: Limits, bins: seq<nat>)
      requires |bins| == l.binMax + 1
      ensures Valid() && limits == l && this.bins == bins && theBin.idx == 0
    {
      limits, this.bins := l, bins;
      theBin := NoBin;
      new;
      Sync();
    }

    method Next()
      requires Valid() && More()
      modifies this
      ensures Valid() && theBin.idx == old(theBin.idx) + 1
    {
      theBin := theBin.(idx := theBin.idx + 1);
      Sync();
    }

    /** Called after a reset or an increment of the index and nothing else. */
    method Sync()
      requires |bins| == limits.binMax + 1 && theBin.idx <= |bins|
      requires theBin.idx == 0 ==> theBin == NoBin
      requires theBin.idx > 0 ==> theBin == BinAt(limits, bins, theBin.idx - 1).(idx := theBin.idx)
      modifies this
      ensures Valid() && theBin.idx == old(theBin.idx)
    {
      var k := theBin.idx;
      if k == 0 {
        theBin := theBin.(min := -1, sup := limits.valMin);
      } else if k < limits.binMax {
        theBin := theBin.(min := theBin.sup, sup := ValIn(limits.kind, k) + limits.valMin);
      } else if k == limits.binMax {
        theBin := theBin.(min := theBin.sup,
                          sup := if limits.valMax < INT_MAX then limits.valMax + 1 else INT_MAX);
      } else {
        return;
      }
      assert Cum(bins, 0) == 0 && Cum(bins, k + 1) == Cum(bins, k) + bins[k];
      theBin := theBin.(count := bins[k], accCount := theBin.accCount + bins[k]);
    }
  }

  function Total(bins: seq<nat>): nat { Cum(bins, |bins|) }

  /** The bins up to and including `k` hold at least a (j+1)/n share of everything. */
  predicate Reaches(bins: seq<nat>, n: nat, j: nat, k: nat)
    requires k < |bins|
  {
    Cum(bins, k + 1) * n >= (j + 1) * Total(bins)
  }

  /** The first bin at which the (j+1)-th of n equal shares is complete. */
  function Rank(bins: seq<nat>, n: nat, j: nat): (k: nat)
    requires bins != [] && j < n
    ensures k < |bins| && Reaches(bins, n, j, k)
    ensures forall i :: 0 <= i < k ==> !Reaches(bins, n, j, i)
  {
    RankFrom(bins, n, j, 0)
  }

  function RankFrom(bins: seq<nat>, n: nat, j: nat, from: nat): (k: nat)
    requires j < n && from < |bins|
    ensures from <= k < |bins| && Reaches(bins, n, j, k)
    ensures forall i :: from <= i < k ==> !Reaches(bins, n, j, i)
    decreases |bins| - from
  {
    LastReaches(bins, n, j);
    if Reaches(bins, n, j, from) then from else RankFrom(bins, n, j, from + 1)
  }

  lemma LastReaches(bins: seq<nat>, n: nat, j: nat)
    requires bins != [] && j < n
    ensures Reaches(bins, n, j, |bins| - 1)
  {
    MulOrder(j + 1, n, Total(bins));
  }

  /** Where entry `j` starts: behind the previous entry that ended in an earlier bin. */
  function Start(bins: seq<nat>, n: nat, j: nat): (s: nat)
    requires bins != [] && j < n
  {
    if j == 0 then 0
    else if Rank(bins, n, j - 1) == Rank(bins, n, j) then Start(bins, n, j - 1)
    else Rank(bins, n, j - 1) + 1
  }

  /** The busy bins of [from, end) as one. */
  function Merged(l: Limits, bins: seq<nat>, from: nat, end: nat): Bin
    requires |bins| == l.binMax + 1 && end <= |bins|
    decreases end
  {
    if from >= end then NoBin else Merged(l, bins, from, end - 1).Plus(BinAt(l, bins, end - 1))
  }

  function Entry(l: Limits, bins: seq<nat>, n: nat, j: nat): Bin
    requires |bins| == l.binMax + 1 && j < n
  {
    Merged(l, bins, Start(bins, n, j), Rank(bins, n, j) + 1)
  }

  lemma {:induction false} CumIncreases(bins: seq<nat>, a: nat, b: nat)
    requires a <= b <= |bins|
    ensures Cum(bins, a) <= Cum(bins, b)
    decreases b
  {
    if a < b {
      CumIncreases(bins, a, b - 1);
    }
  }

  lemma ReachesIsUpward(bins: seq<nat>, n: nat, j: nat, a: nat, b: nat)
    requires a <= b < |bins| && Reaches(bins, n, j, a)
    ensures Reaches(bins, n, j, b)
  {
    CumIncreases(bins, a + 1, b + 1);
    MulOrder(Cum(bins, a + 1), Cum(bins, b + 1), n);
  }

  lemma RankIs(bins: seq<nat>, n: nat, j: nat, k: nat)
    requires bins != [] && j < n && k < |bins| && Reaches(bins, n, j, k)
    requires forall i :: 0 <= i < k ==> !Reaches(bins, n, j, i)
    ensures Rank(bins, n, j) == k
  {}

  lemma LaterSharesLater(bins: seq<nat>, n: nat, j: nat, k: nat)
    requires k < |bins| && !Reaches(bins, n, j, k)
    ensures !Reaches(bins, n, j + 1, k)
  {
    MulOrder(j + 1, j + 2, Total(bins));
  }

  /** With the last share complete nothing busy is left. */
  lemma AllSharesOut(bins: seq<nat>, n: nat, k: nat, idx: nat)
    requires k < idx < |bins| && n > 0 && Reaches(bins, n, n - 1, k)
    ensures bins[idx] == 0
  {
    CumIncreases(bins, k + 1, idx);
    CumIncreases(bins, idx + 1, |bins|);
    if bins[idx] > 0 {
      assert Cum(bins, k + 1) < Total(bins);
      MulOrder(Cum(bins, k + 1) + 1, Total(bins), n);
      assert false;
    }
  }

  /** Before bin `idx` is looked at: the entries of all shares complete by then are out,
      and the accumulator holds the busy bins since the last of them ended. */
  ghost predicate Emitted(l: Limits, bins: seq<nat>, n: nat, percs: seq<Bin>, acc: Bin, idx: nat) {
    && |bins| == l.binMax + 1 && idx <= |bins| && n > 0
    && |percs| <= n
    && (forall j :: 0 <= j < |percs| ==> percs[j] == Entry(l, bins, n, j))
    && (forall j :: 0 <= j < |percs| ==> Rank(bins, n, j) < idx)
    && (|percs| < n ==> Rank(bins, n, |percs|) >= idx)
    && acc == Merged(l, bins, Behind(bins, n, |percs|), idx)
  }

  /** The bin behind the end of entry `j - 1`. */
  function Behind(bins: seq<nat>, n: nat, j: nat): nat
    requires bins != [] && j <= n
  {
    if j == 0 then 0 else Rank(bins, n, j - 1) + 1
  }

  /** A bin that completes a share: the first entry it completes is the accumulator. */
  lemma FirstEntryHere(l: Limits, bins: seq<nat>, n: nat, percs: seq<Bin>, acc: Bin, idx: nat)
    requires Emitted(l, bins, n, percs, acc, idx) && idx < |bins| && |percs| < n
    requires Reaches(bins, n, |percs|, idx)
    ensures Rank(bins, n, |percs|) == idx
    ensures acc.Plus(BinAt(l, bins, idx)) == Entry(l, bins, n, |percs|)
  {
    var j := |percs|;
    assert Rank(bins, n, j) == idx;
    if j > 0 {
      assert Rank(bins, n, j - 1) < idx;
    }
  }

  lemma NextEntryHere(l: Limits, bins: seq<nat>, n: nat, j: nat, idx: nat)
    requires |bins| == l.binMax + 1 && idx < |bins| && j + 1 < n
    requires Rank(bins, n, j) == idx && Reaches(bins, n, j + 1, idx)
    ensures Rank(bins, n, j + 1) == idx
    ensures Entry(l, bins, n, j + 1) == Entry(l, bins, n, j)
  {
    var j' := j + 1;
    forall i | 0 <= i < idx
      ensures !Reaches(bins, n, j', i)
    {
      LaterSharesLater(bins, n, j, i);
    }
    RankIs(bins, n, j', idx);
  }

  /** No share beyond the last can be complete while something is there. */
  lemma OnlyNShares(bins: seq<nat>, n: nat, k: nat)
    requires k < |bins| && Total(bins) > 0
    ensures !Reaches(bins, n, n, k)
  {
    CumIncreases(bins, k + 1, |bins|);
    MulOrder(Cum(bins, k + 1), Total(bins), n);
    assert (n + 1) * Total(bins) == n * Total(bins) + Total(bins);
  }

  lemma AllCounted(bins: seq<nat>, n: nat, j: nat, k: nat)
    requires k < |bins| && j < n && Cum(bins, k + 1) >= Total(bins)
    ensures Reaches(bins, n, j, k)
  {
    MulOrder(Total(bins), Cum(bins, k + 1), n);
    MulOrder(j + 1, n, Total(bins));
  }

  lemma IdleBinChangesNothing(l: Limits, bins: seq<nat>, n: nat, percs: seq<Bin>, acc: Bin, idx: nat)
    requires Emitted(l, bins, n, percs, acc, idx) && idx < |bins| && bins[idx] == 0 && Total(bins) > 0
    ensures Emitted(l, bins, n, percs, acc, idx + 1)
  {
    if |percs| < n && Rank(bins, n, |percs|) == idx {
      MulOrder(1, |percs| + 1, Total(bins));
      assert Cum(bins, idx + 1) == Cum(bins, idx);
      assert Cum(bins, 0) * n == 0;
      assert idx > 0 ==> Reaches(bins, n, |percs|, idx - 1);
      assert false;
    }
  }

  // ----- where an entry ends -----

  /** The entry begins with the first busy bin from its own start on, ends with the first
      bin that completes its share, and counts everything in between. */
  predicate EndsAtRank(l: Limits, bins: seq<nat>, n: nat, j: nat, e: Bin)
    requires |bins| == l.binMax + 1 && j < n
  {
    var k := Rank(bins, n, j);
    && bins[k] > 0
    && e.sup == l.Sup(k)
    && e.accCount == Cum(bins, k + 1)
    && Start(bins, n, j) <= k
    && e.count == Cum(bins, k + 1) - Cum(bins, Start(bins, n, j))
    && BeginsBusy(l, bins, Start(bins, n, j), k + 1, e)
  }

  /** The merged bin carries the index and the lower bound of the first busy bin. */
  predicate BeginsBusy(l: Limits, bins: seq<nat>, from: nat, end: nat, e: Bin)
    requires |bins| == l.binMax + 1 && end <= |bins|
  {
    && from <= e.idx < end && bins[e.idx] > 0
    && (forall i :: from <= i < e.idx ==> bins[i] == 0)
    && e.min == l.Min(e.idx)
  }

  /** The bin that completes a share is not idle. */
  lemma RankIsBusy(bins: seq<nat>, n: nat, j: nat)
    requires bins != [] && j < n && Total(bins) > 0
    ensures bins[Rank(bins, n, j)] > 0
  {
    var k := Rank(bins, n, j);
    assert Reaches(bins, n, j, k);
    MulOrder(1, j + 1, Total(bins));
    if k > 0 {
      assert !Reaches(bins, n, j, k - 1);
      assert Cum(bins, k + 1) == Cum(bins, k) + bins[k];
    } else {
      assert Cum(bins, 1) == bins[0];
    }
  }

  lemma RankRises(bins: seq<nat>, n: nat, j: nat)
    requires bins != [] && j + 1 < n
    ensures Rank(bins, n, j) <= Rank(bins, n, j + 1)
  {
    var k := Rank(bins, n, j + 1);
    if !Reaches(bins, n, j, k) {
      LaterSharesLater(bins, n, j, k);
    }
  }

  lemma {:induction false} StartsBeforeRank(bins: seq<nat>, n: nat, j: nat)
    requires bins != [] && j < n
    ensures Start(bins, n, j) <= Rank(bins, n, j)
  {
    hide Rank;
    if j > 0 {
      RankRises(bins, n, j - 1);
      StartsBeforeRank(bins, n, j - 1);
    }
  }

  lemma {:induction false} MergedCounts(l: Limits, bins: seq<nat>, from: nat, end: nat)
    requires |bins| == l.binMax + 1 && from <= end <= |bins|
    ensures Merged(l, bins, from, end).count == Cum(bins, end) - Cum(bins, from)
    decreases end
  {
    if from < end {
      MergedCounts(l, bins, from, end - 1);
    }
  }

  /** Merging up to a busy bin ends with that bin. */
  lemma MergedEndsAtBusy(l: Limits, bins: seq<nat>, from: nat, k: nat)
    requires |bins| == l.binMax + 1 && from <= k < |bins| && bins[k] > 0
    ensures var e := Merged(l, bins, from, k + 1);
      e.sup == l.Sup(k) && e.accCount == Cum(bins, k + 1)
  {}

  lemma BusyCounts(bins: seq<nat>, from: nat, k: nat)
    requires from <= k < |bins| && bins[k] > 0
    ensures Cum(bins, k + 1) > Cum(bins, from)
  {
    CumIncreases(bins, from, k);
  }

  lemma {:induction false} MergedBeginsBusy(l: Limits, bins: seq<nat>, from: nat, end: nat)
    requires |bins| == l.binMax + 1 && from <= end <= |bins|
    ensures var e := Merged(l, bins, from, end);
      if e.count > 0 then BeginsBusy(l, bins, from, end, e)
      else forall i :: from <= i < end ==> bins[i] == 0
    decreases end
  {
    hide Cum;
    if from < end {
      MergedBeginsBusy(l, bins, from, end - 1);
    }
  }

  lemma EntryEndsAtRank(l: Limits, bins: seq<nat>, n: nat, j: nat)
    requires |bins| == l.binMax + 1 && j < n && Total(bins) > 0
    ensures EndsAtRank(l, bins, n, j, Entry(l, bins, n, j))
  {
    hide Rank, Start, Merged, Cum, BeginsBusy;
    RankIsBusy(bins, n, j);
    StartsBeforeRank(bins, n, j);
    MergedBeginsBusy(l, bins, Start(bins, n, j), Rank(bins, n, j) + 1);
    BusyCounts(bins, Start(bins, n, j), Rank(bins, n, j));
    MergedCounts(l, bins, Start(bins, n, j), Rank(bins, n, j) + 1);
    MergedEndsAtBusy(l, bins, Start(bins, n, j), Rank(bins, n, j));
  }

  /** Percentile entries in steps of 1/n: exactly n of them when anything was recorded,
      and entry j ends at the first bin whose cumulative count reaches (j+1)/n and begins
      at the first busy bin behind the entry before. */
  method Percentiles(l: Limits, bins: seq<nat>, totCount: nat, n: nat) returns (percs: seq<Bin>)
    requires |bins| == l.binMax + 1 && totCount == Total(bins) && n > 0
    ensures totCount == 0 ==> percs == []
    ensures totCount > 0 ==> |percs| == n
    ensures totCount > 0 ==> forall j :: 0 <= j < n ==>
      percs[j] == Entry(l, bins, n, j) && EndsAtRank(l, bins, n, j, percs[j])
  {
    percs := [];
    var stepId := 1;
    var accBin, accCount := NoBin, 0;
    var i := new HistogramConstIter(l, bins);
    while i.More()
      invariant fresh(i) && i.Valid() && i.limits == l && i.bins == bins
      invariant stepId == |percs| + 1 && accCount == Cum(bins, i.theBin.idx)
      invariant totCount > 0 ==> Emitted(l, bins, n, percs, accBin, i.theBin.idx)
      invariant totCount == 0 ==> percs == []
      decreases |bins| - i.theBin.idx
    {
      hide Emitted, Reaches, Rank, Entry, EndsAtRank;
      var b := i.theBin;
      if b.count > 0 {
        CumIncreases(bins, b.idx + 1, |bins|);
        accCount := accCount + b.count;
        percs, accBin := Account(l, bins, totCount, n, percs, accBin, accCount, b);
        stepId := |percs| + 1;
      } else if totCount > 0 {
        IdleBinChangesNothing(l, bins, n, percs, accBin, b.idx);
      }
      i.Next();
    }
    if totCount > 0 {
      AllOut(l, bins, n, percs, accBin);
      forall j | 0 <= j < n ensures EndsAtRank(l, bins, n, j, percs[j]) {
        EntryEndsAtRank(l, bins, n, j);
      }
    }
  }

  lemma AllOut(l: Limits, bins: seq<nat>, n: nat, percs: seq<Bin>, acc: Bin)
    requires Emitted(l, bins, n, percs, acc, |bins|)
    ensures |percs| == n
    ensures forall j :: 0 <= j < n ==> percs[j] == Entry(l, bins, n, j)
  {
    var next := if |percs| < n then Rank(bins, n, |percs|) else 0;
  }

  /** A busy bin joins the accumulator and completes as many entries as it may. */
  method Account(l: Limits, bins: seq<nat>, totCount: nat, n: nat, percs: seq<Bin>, acc: Bin,
                 accCount: nat, b: Bin)
      returns (percs': seq<Bin>, acc': Bin)
    requires totCount == Total(bins) > 0 && b.count > 0
    requires Emitted(l, bins, n, percs, acc, b.idx) && b.idx < |bins| && b == BinAt(l, bins, b.idx)
    requires accCount == Cum(bins, b.idx + 1)
    ensures Emitted(l, bins, n, percs', acc', b.idx + 1)
  {
    hide Entry, Merged, Behind;
    percs' := percs;
    acc' := acc.Plus(b);
    var stepId := |percs| + 1;
    SharesLeft(l, bins, n, percs, acc, accCount, b);
    if accCount * n >= stepId * totCount || accCount >= totCount {
      FirstEntryHere(l, bins, n, percs, acc, b.idx);
      percs' := percs' + [acc'];
      stepId := stepId + 1;
      while accCount * n >= stepId * totCount
        invariant stepId == |percs'| + 1
        invariant EmittingAt(l, bins, n, percs', acc', b.idx)
        decreases n - |percs'|
      {
        OnlyNShares(bins, n, b.idx);
        NextEntryHere(l, bins, n, |percs'| - 1, b.idx);
        percs' := percs' + [acc'];
        stepId := stepId + 1;
      }
      EmittedHere(l, bins, n, percs', acc', b.idx);
      acc' := NoBin;
    } else {
      NothingHere(l, bins, n, percs, acc, b.idx);
    }
  }

  /** In the middle of emitting the entries that bin `idx` completes. */
  ghost predicate EmittingAt(l: Limits, bins: seq<nat>, n: nat, percs: seq<Bin>, acc: Bin, idx: nat) {
    && |bins| == l.binMax + 1 && idx < |bins| && 0 < |percs| <= n
    && (forall j :: 0 <= j < |percs| ==> percs[j] == Entry(l, bins, n, j))
    && (forall j :: 0 <= j < |percs| ==> Rank(bins, n, j) <= idx)
    && Rank(bins, n, |percs| - 1) == idx
    && acc == Entry(l, bins, n, |percs| - 1)
  }

  lemma SharesLeft(l: Limits, bins: seq<nat>, n: nat, percs: seq<Bin>, acc: Bin, accCount: nat, b: Bin)
    requires Emitted(l, bins, n, percs, acc, b.idx) && b.idx < |bins| && bins[b.idx] > 0
    requires accCount == Cum(bins, b.idx + 1)
    ensures |percs| < n
    ensures accCount >= Total(bins) ==> Reaches(bins, n, |percs|, b.idx)
  {
    if |percs| == n {
      AllSharesOut(bins, n, Rank(bins, n, n - 1), b.idx);
    } else if accCount >= Total(bins) {
      AllCounted(bins, n, |percs|, b.idx);
    }
  }

  lemma NotBefore(bins: seq<nat>, n: nat, j: nat, idx: nat)
    requires bins != [] && j < n && idx < |bins| && !Reaches(bins, n, j, idx)
    ensures Rank(bins, n, j) > idx
  {
    if Rank(bins, n, j) <= idx {
      ReachesIsUpward(bins, n, j, Rank(bins, n, j), idx);
    }
  }

  lemma EmittedHere(l: Limits, bins: seq<nat>, n: nat, percs: seq<Bin>, acc: Bin, idx: nat)
    requires EmittingAt(l, bins, n, percs, acc, idx)
    requires !Reaches(bins, n, |percs|, idx)
    ensures Emitted(l, bins, n, percs, NoBin, idx + 1)
  {
    hide Entry;
    if |percs| < n {
      NotBefore(bins, n, |percs|, idx);
    }
  }

  lemma NothingHere(l: Limits, bins: seq<nat>, n: nat, percs: seq<Bin>, acc: Bin, idx: nat)
    requires Emitted(l, bins, n, percs, acc, idx) && idx < |bins| && |percs| < n
    requires !Reaches(bins, n, |percs|, idx)
    ensures Emitted(l, bins, n, percs, acc.Plus(BinAt(l, bins, idx)), idx + 1)
  {
    hide Entry;
    NotBefore(bins, n, |percs|, idx);
  }
}
