/** The histogram objects: statistics and bins updated in place, tied to the samples
    they have seen; logging and restoring them. */
module Histograms {
  import opened CInts
  import opened Log2Bins
  import opened HistogramSpec

  class AggrStat {
    var theCount: nat
    var theMax: int
    var theMin: int
    var theSum: int
    var theSqSum: int
    ghost var samples: seq<int>

    ghost predicate Valid()
      reads this
    {
      StatOf(State(), samples)
    }

    function State(): Stat
      reads this
    {
      Stat(theCount, theMax, theMin, theSum, theSqSum)
    }

    constructor ()
      ensures Valid() && samples == []
    {
      theCount, theSum, theSqSum, theMax, theMin := 0, 0, 0, -1, -1;
      samples := [];
    }

    method Reset()
      modifies this
      ensures Valid() && samples == []
    {
      theCount, theSum, theSqSum, theMax, theMin := 0, 0, 0, -1, -1;
      samples := [];
    }

    method Record(v: int)
      requires Valid()
      modifies this
      ensures Valid() && samples == old(samples) + [v]
    {
      hide Square;
      SumsConcat(samples, [v]);
      assert [v][..0] == [] && Square(v) == v * v by { SquareIs(v); }
      if theCount > 0 {
        theSum := theSum + v;
        theSqSum := theSqSum + v * v;
        if theMax < v {
          theMax := v;
        } else if theMin > v {
          theMin := v;
        }
      } else {
        theSum, theMin, theMax := v, v, v;
        theSqSum := v * v;
      }
      theCount := theCount + 1;
      samples := samples + [v];
    }

    method Add(s: AggrStat)
      requires Valid() && s.Valid() && s != this
      modifies this
      ensures Valid() && samples == old(samples) + s.samples
    {
      SumsConcat(samples, s.samples);
      if s.theCount > 0 {
        if theCount > 0 {
          theCount := theCount + s.theCount;
          theSum := theSum + s.theSum;
          theSqSum := theSqSum + s.theSqSum;
          theMax := if theMax >= s.theMax then theMax else s.theMax;
          theMin := if theMin <= s.theMin then theMin else s.theMin;
        } else {
          theCount, theSum, theSqSum := s.theCount, s.theSum, s.theSqSum;
          theMax, theMin := s.theMax, s.theMin;
        }
      }
      samples := samples + s.samples;
    }
  }

  lemma SquareIs(v: int)
    ensures Square(v) == v * v
  {}

  class Histogram {
    var limits: Limits
    var theBins: array<nat>
    const theStats: AggrStat

    ghost predicate Valid()
      reads this, theBins, theStats
    {
      && theStats.Valid()
      && BinsOf(theBins[..], limits, theStats.samples)
    }

    constructor (l: Limits)
      ensures Valid() && fresh(theBins) && fresh(theStats)
      ensures limits == l && theStats.samples == []
    {
      theStats := new AggrStat();
      limits := l;
      theBins := new nat[l.binMax + 1](_ => 0);
    }

    method Reset()
      requires Valid()
      modifies theBins, theStats
      ensures Valid() && theStats.samples == []
    {
      theStats.Reset();
      forall i | 0 <= i < theBins.Length {
        theBins[i] := 0;
      }
    }

    /** The bin a value is counted in, by the loop of the log2 histogram. */
    method BinIndex(v: int) returns (k: nat)
      requires v - limits.valMin <= INT_MAX
      ensures k == limits.IndexOf(v)
    {
      var off := v - limits.valMin;
      if off < 0 {
        return 0;
      }
      var b: nat := off;
      if limits.kind == Log2 {
        b := Val2Bin(off);
      }
      k := if b + 1 <= limits.binMax then b + 1 else limits.binMax;
    }

    method Record(v: int)
      requires Valid() && v - limits.valMin <= INT_MAX
      modifies theBins, theStats
      ensures Valid() && theStats.samples == old(theStats.samples) + [v]
    {
      ghost var xs := theStats.samples;
      theStats.Record(v);
      var idx := BinIndex(v);
      theBins[idx] := theBins[idx] + 1;
      assert (xs + [v])[..|xs|] == xs;
    }

    /** Only a histogram that has seen nothing takes over the other's limits; otherwise
        the limits have to agree.  How values map to bins is never taken over: nothing
        checks it, and the sums are a histogram of all samples exactly when the other's
        samples lie in the same bins by this histogram's own mapping. */
    method Add(h: Histogram)
      requires Valid() && h.Valid()
      requires h != this && h.theStats != theStats && h.theBins != theBins
      requires theStats.samples == [] || limits == h.limits.(kind := limits.kind)
      modifies this, theBins, theStats
      ensures limits == h.limits.(kind := old(limits.kind))
      ensures theBins == old(theBins) || fresh(theBins)
      ensures theStats.Valid() && theStats.samples == old(theStats.samples) + h.theStats.samples
      ensures theBins.Length == h.theBins.Length
      ensures forall k :: 0 <= k < theBins.Length ==>
        theBins[k] == h.theBins[k] + if old(theStats.samples) == [] then 0 else old(theBins[..])[k]
      ensures Valid() <==> BinsOf(h.theBins[..], limits, h.theStats.samples)
      ensures old(limits.kind) == h.limits.kind ==> Valid()
    {
      ghost var xs, ys := theStats.samples, h.theStats.samples;
      ghost var l := h.limits.(kind := limits.kind);
      ghost var was := theBins[..];
      if theStats.theCount == 0 {
        SetLimits(h.limits);
      }
      ghost var mine := theBins[..];
      theStats.Add(h.theStats);
      AddCounters(h.theBins);
      SumOfBins(l, xs, ys, mine, h.theBins[..], theBins[..]);
    }

    method AddCounters(other: array<nat>)
      requires theBins.Length == other.Length && theBins != other
      modifies theBins
      ensures forall k :: 0 <= k < theBins.Length ==> theBins[k] == old(theBins[k]) + other[k]
    {
      for i := 0 to theBins.Length
        invariant forall k :: 0 <= k < i ==> theBins[k] == old(theBins[k]) + other[k]
        invariant forall k :: i <= k < theBins.Length ==> theBins[k] == old(theBins[k])
      {
        theBins[i] := theBins[i] + other[i];
      }
    }

    /** Resizing keeps the counters there are, which are all zero here, and zeroes the rest. */
    method SetLimits(l: Limits)
      requires Valid() && theStats.samples == []
      modifies this
      ensures Valid() && limits == l.(kind := old(limits.kind)) && (theBins == old(theBins) || fresh(theBins))
    {
      if l.binMax + 1 != theBins.Length {
        var former := theBins;
        theBins := new nat[l.binMax + 1](i requires i >= 0 reads former =>
          if i < former.Length then former[i] else 0);
      }
      limits := l.(kind := limits.kind);
    }
  }

  /** Sums of bins are the bins of all samples exactly when the summands on the right are
      the bins of theirs. */
  lemma SumOfBins(l: Limits, xs: seq<int>, ys: seq<int>, a: seq<nat>, b: seq<nat>, sum: seq<nat>)
    requires BinsOf(a, l, xs) && |b| == |sum| == |a|
    requires forall k :: 0 <= k < |sum| ==> sum[k] == a[k] + b[k]
    ensures BinsOf(sum, l, xs + ys) <==> BinsOf(b, l, ys)
  {
    hide CountAt;
    forall k | 0 <= k < |sum| ensures CountAt(l, xs + ys, k) == CountAt(l, xs, k) + CountAt(l, ys, k) {
      CountsConcat(l, xs, ys, k);
    }
    if BinsOf(sum, l, xs + ys) {
      forall k | 0 <= k < |b| ensures b[k] == CountAt(l, ys, k) {
        assert sum[k] == CountAt(l, xs + ys, k) && a[k] == CountAt(l, xs, k);
      }
    }
  }

  /** Mixing the kinds does go wrong: from 513 on, log2 bins and linear ones part. */
  lemma KindsMatter()
    ensures var line, log2 := Limits(Line, 0, INT_MAX, 1000), Limits(Log2, 0, INT_MAX, 1000);
      BinsOf(Binned(log2, [513]), log2, [513]) && !BinsOf(Binned(log2, [513]), line, [513])
  {
    var line, log2 := Limits(Line, 0, INT_MAX, 1000), Limits(Log2, 0, INT_MAX, 1000);
    assert BinOf(513) == 512 && log2.IndexOf(513) == 513 && line.IndexOf(513) == 514;
    OneSample(log2, 513);
    OneSample(line, 513);
    assert Binned(log2, [513])[513] == CountAt(log2, [513], 513);
  }

  lemma OneSample(l: Limits, v: int)
    ensures forall k :: 0 <= k <= l.binMax ==> CountAt(l, [v], k) == if l.IndexOf(v) == k then 1 else 0
  {
    assert [v][..0] == [];
  }

  /** Two histograms with the same limits and samples agree in every bin and statistic. */
  lemma SameSamplesSameHistogram(g: Histogram, h: Histogram)
    requires g.Valid() && h.Valid() && g.limits == h.limits && g.theStats.samples == h.theStats.samples
    ensures g.theBins[..] == h.theBins[..] && g.theStats.State() == h.theStats.State()
    ensures BinsOf(h.theBins[..], h.limits, h.theStats.samples)
    ensures StatOf(h.theStats.State(), h.theStats.samples)
  {
    StatOfIsUnique(g.theStats.State(), h.theStats.State(), g.theStats.samples);
  }

  method Recorded(l: Limits, xs: seq<int>) returns (h: Histogram)
    requires forall x :: x in xs ==> x - l.valMin <= INT_MAX
    ensures h.Valid() && fresh(h) && fresh(h.theBins) && fresh(h.theStats)
    ensures h.limits == l && h.theStats.samples == xs
  {
    h := new Histogram(l);
    for i := 0 to |xs|
      invariant h.Valid() && h.limits == l && fresh(h.theBins) && h.theStats.samples == xs[..i]
    {
      hide Histogram.Valid;
      assert xs[i] in xs;
      h.Record(xs[i]);
    }
  }

  /** Recording xs and adding a histogram of ys gives every bin and statistic of
      recording xs and ys. */
  method MergedEqualsRecorded(l: Limits, xs: seq<int>, ys: seq<int>) returns (merged: Histogram, all: Histogram)
    requires forall x :: x in xs + ys ==> x - l.valMin <= INT_MAX
    ensures merged.theBins[..] == all.theBins[..] && merged.theStats.State() == all.theStats.State()
    ensures all.limits == l && BinsOf(all.theBins[..], l, xs + ys) && StatOf(all.theStats.State(), xs + ys)
  {
    hide Histogram.Valid, StatOf, BinsOf;
    assert forall x :: x in xs || x in ys ==> x in xs + ys;
    merged := Recorded(l, xs);
    var h := Recorded(l, ys);
    merged.Add(h);
    all := Recorded(l, xs + ys);
    SameSamplesSameHistogram(merged, all);
  }
}
