/** Boxes of network addresses: when two make one, and what compacting a list of them keeps. */
module IpRangeSpec {
  /** The parts of an address: four octets, or eight pairs of octets in IPv6. */
  datatype Address = Address(v6: bool, parts: seq<nat>) {
    predicate Valid() {
      |parts| == PartLimit(v6) && forall i :: 0 <= i < |parts| ==> parts[i] < PartSize(v6)
    }
  }

  function PartLimit(v6: bool): nat { if v6 then 8 else 4 }

  function PartSize(v6: bool): nat { if v6 then 0x1_0000 else 0x100 }

  /** A start address and the number of values each part runs through. */
  datatype Range = Range(v6: bool, parts: seq<nat>, ranges: seq<nat>) {
    predicate Valid() {
      && |parts| == |ranges| == PartLimit(v6)
      && forall i :: 0 <= i < |parts| ==> PartFits(i)
    }

    predicate PartFits(i: nat)
      requires i < |parts| && i < |ranges|
    {
      ranges[i] >= 1 && parts[i] + ranges[i] <= PartSize(v6)
    }
  }

  function Single(a: Address): Range {
    Range(a.v6, a.parts, seq(|a.parts|, i => 1))
  }

  predicate Adjacent(a: Range, b: Range, i: nat)
    requires a.Valid() && b.Valid() && a.v6 == b.v6 && i < |a.parts|
  {
    a.parts[i] + a.ranges[i] == b.parts[i]
  }

  predicate SamePart(a: Range, b: Range, i: nat)
    requires a.Valid() && b.Valid() && a.v6 == b.v6 && i < |a.parts|
  {
    a.parts[i] == b.parts[i] && a.ranges[i] == b.ranges[i]
  }

  /** Equal in all parts but `k`, where the second takes over where the first ends. */
  predicate MergeAt(a: Range, b: Range, k: nat)
    requires a.Valid() && b.Valid() && a.v6 == b.v6 && k < |a.parts|
  {
    Adjacent(a, b, k) && forall i :: 0 <= i < |a.parts| && i != k ==> SamePart(a, b, i)
  }

  predicate CanMerge(a: Range, b: Range)
    requires a.Valid() && b.Valid()
  {
    a.v6 == b.v6 && exists k :: 0 <= k < |a.parts| && MergeAt(a, b, k)
  }

  /** The part in which mergeable boxes differ; there is only one. */
  lemma MergePartIsUnique(a: Range, b: Range, k: nat, i: nat)
    requires a.Valid() && b.Valid() && a.v6 == b.v6 && k < |a.parts| && i < |a.parts|
    requires MergeAt(a, b, k)
    ensures a.parts[i] != b.parts[i] <==> i == k
    ensures MergeAt(a, b, i) ==> i == k
  {
    assert a.PartFits(k) && a.PartFits(i);
    if i != k {
      assert SamePart(a, b, i);
    }
  }

  function Merged(a: Range, b: Range, k: nat): Range
    requires a.Valid() && b.Valid() && a.v6 == b.v6 && k < |a.parts| && MergeAt(a, b, k)
  {
    a.(ranges := a.ranges[k := a.ranges[k] + b.ranges[k]])
  }

  lemma MergedIsValid(a: Range, b: Range, k: nat)
    requires a.Valid() && b.Valid() && a.v6 == b.v6 && k < |a.parts| && MergeAt(a, b, k)
    ensures Merged(a, b, k).Valid()
  {
    hide MergeAt, Range.PartFits;
    var m := Merged(a, b, k);
    forall i | 0 <= i < |m.parts| ensures m.PartFits(i) {
      FitsAfterMerge(a, b, k, i);
    }
  }

  lemma FitsAfterMerge(a: Range, b: Range, k: nat, i: nat)
    requires a.Valid() && b.Valid() && a.v6 == b.v6 && k < |a.parts| && i < |a.parts| && MergeAt(a, b, k)
    ensures Merged(a, b, k).PartFits(i)
  {
    assert a.PartFits(i) && b.PartFits(k) && a.PartFits(k);
  }

  // ----- addresses in a box -----

  predicate PartCovers(r: Range, x: Address, i: nat)
    requires i < |r.parts| && i < |r.ranges| && i < |x.parts|
  {
    r.parts[i] <= x.parts[i] < r.parts[i] + r.ranges[i]
  }

  predicate Covers(r: Range, x: Address)
    requires r.Valid() && x.Valid()
  {
    r.v6 == x.v6 && forall i :: 0 <= i < |r.parts| ==> PartCovers(r, x, i)
  }

  function Times(r: Range, x: Address): nat
    requires r.Valid() && x.Valid()
  {
    if Covers(r, x) then 1 else 0
  }

  /** Merging neither loses an address nor counts one twice. */
  lemma MergeConserves(a: Range, b: Range, k: nat, x: Address)
    requires a.Valid() && b.Valid() && x.Valid() && a.v6 == b.v6 && k < |a.parts| && MergeAt(a, b, k)
    ensures Merged(a, b, k).Valid()
    ensures Times(Merged(a, b, k), x) == Times(a, x) + Times(b, x)
  {
    hide MergeAt, PartCovers, Range.PartFits;
    MergedIsValid(a, b, k);
    var m := Merged(a, b, k);
    if a.v6 == x.v6 {
      forall i | 0 <= i < |a.parts|
        ensures i != k ==> (PartCovers(m, x, i) <==> PartCovers(a, x, i)) && (PartCovers(a, x, i) <==> PartCovers(b, x, i))
      {
        MergedPart(a, b, k, x, i);
      }
      MergedPart(a, b, k, x, k);
    }
  }

  lemma MergedPart(a: Range, b: Range, k: nat, x: Address, i: nat)
    requires a.Valid() && b.Valid() && x.Valid() && a.v6 == b.v6 == x.v6 && k < |a.parts| && MergeAt(a, b, k)
    requires i < |a.parts|
    ensures i != k ==>
      (PartCovers(Merged(a, b, k), x, i) <==> PartCovers(a, x, i)) && (PartCovers(a, x, i) <==> PartCovers(b, x, i))
    ensures PartCovers(Merged(a, b, k), x, k) <==> PartCovers(a, x, k) || PartCovers(b, x, k)
    ensures !(PartCovers(a, x, k) && PartCovers(b, x, k))
  {
    assert a.PartFits(k) && b.PartFits(k);
    assert i != k ==> SamePart(a, b, i);
  }

  // ----- one pass -----

  predicate AllValid(rs: seq<Range>) {
    forall i :: 0 <= i < |rs| ==> rs[i].Valid()
  }

  function MergePart(a: Range, b: Range): (k: nat)
    requires a.Valid() && b.Valid() && CanMerge(a, b)
    ensures a.v6 == b.v6 && k < |a.parts| && MergeAt(a, b, k)
  {
    UniqueMergePart(a, b);
    var k: int :| 0 <= k < |a.parts| && MergeAt(a, b, k);
    k
  }

  lemma UniqueMergePart(a: Range, b: Range)
    requires a.Valid() && b.Valid() && CanMerge(a, b)
    ensures forall i: int, k: int ::
      0 <= i < |a.parts| && 0 <= k < |a.parts| && MergeAt(a, b, i) && MergeAt(a, b, k) ==> i == k
  {
    forall i: int, k: int | 0 <= i < |a.parts| && 0 <= k < |a.parts| && MergeAt(a, b, i) && MergeAt(a, b, k)
      ensures i == k
    {
      MergePartIsUnique(a, b, k, i);
    }
  }

  function Merge(a: Range, b: Range): (m: Range)
    requires a.Valid() && b.Valid() && CanMerge(a, b)
    ensures m.Valid()
  {
    MergedIsValid(a, b, MergePart(a, b));
    Merged(a, b, MergePart(a, b))
  }

  /** Absorbs what follows for as long as it can, then starts over with the next box. */
  function CompactFrom(r: Range, rest: seq<Range>): (out: seq<Range>)
    requires r.Valid() && AllValid(rest)
    ensures AllValid(out) && 1 <= |out| <= 1 + |rest|
    decreases |rest|
  {
    if rest == [] then [r]
    else if CanMerge(r, rest[0]) then CompactFrom(Merge(r, rest[0]), rest[1..])
    else [r] + CompactFrom(rest[0], rest[1..])
  }

  function Compact(rs: seq<Range>): (out: seq<Range>)
    requires AllValid(rs)
    ensures AllValid(out) && |out| <= |rs|
  {
    if rs == [] then [] else CompactFrom(rs[0], rs[1..])
  }

  /** How many of the boxes hold the address. */
  function Multiplicity(rs: seq<Range>, x: Address): nat
    requires AllValid(rs) && x.Valid()
  {
    if rs == [] then 0 else Times(rs[0], x) + Multiplicity(rs[1..], x)
  }

  lemma {:induction false} CompactFromConserves(r: Range, rest: seq<Range>, x: Address)
    requires r.Valid() && AllValid(rest) && x.Valid()
    ensures Multiplicity(CompactFrom(r, rest), x) == Times(r, x) + Multiplicity(rest, x)
    decreases |rest|
  {
    hide Times, CanMerge, Range.Valid;
    if rest == [] {
    } else if CanMerge(r, rest[0]) {
      MergeConserves(r, rest[0], MergePart(r, rest[0]), x);
      CompactFromConserves(Merge(r, rest[0]), rest[1..], x);
    } else {
      CompactFromConserves(rest[0], rest[1..], x);
      var tail := CompactFrom(rest[0], rest[1..]);
      assert ([r] + tail)[1..] == tail;
    }
  }

  lemma CompactConserves(rs: seq<Range>, x: Address)
    requires AllValid(rs) && x.Valid()
    ensures Multiplicity(Compact(rs), x) == Multiplicity(rs, x)
  {
    if rs != [] {
      CompactFromConserves(rs[0], rs[1..], x);
    }
  }

  ghost predicate NoneMerge(rs: seq<Range>)
    requires AllValid(rs)
  {
    forall i, j :: 0 <= i && j == i + 1 && j < |rs| ==> !CanMerge(rs[i], rs[j])
  }

  /** A pass that does not shrink the list changes nothing, and that is when no
      neighbours merge. */
  lemma {:induction false} ShrinksUnlessDone(r: Range, rest: seq<Range>)
    requires r.Valid() && AllValid(rest)
    ensures |CompactFrom(r, rest)| == 1 + |rest| <==> NoneMerge([r] + rest)
    ensures NoneMerge([r] + rest) ==> CompactFrom(r, rest) == [r] + rest
    decreases |rest|
  {
    hide CanMerge, Range.Valid, NoneMerge;
    if rest == [] {
      NoNeighbours(r);
    } else {
      NoneMergeStep(r, rest);
      assert [rest[0]] + rest[1..] == rest;
      ShrinksUnlessDone(rest[0], rest[1..]);
    }
  }

  lemma NoNeighbours(r: Range)
    requires r.Valid()
    ensures NoneMerge([r] + [])
  {}

  lemma NoneMergeStep(r: Range, rest: seq<Range>)
    requires r.Valid() && AllValid(rest) && rest != []
    ensures NoneMerge([r] + rest) <==> !CanMerge(r, rest[0]) && NoneMerge(rest)
  {
    hide CanMerge;
    var all := [r] + rest;
    assert all[0] == r && all[1] == rest[0];
    if NoneMerge(all) {
      forall i, j | 0 <= i && j == i + 1 && j < |rest| ensures !CanMerge(rest[i], rest[j]) {
        assert all[i + 1] == rest[i] && all[j + 1] == rest[j];
      }
    }
    if !CanMerge(r, rest[0]) && NoneMerge(rest) {
      forall i, j | 0 <= i && j == i + 1 && j < |all| ensures !CanMerge(all[i], all[j]) {
        if i > 0 {
          assert all[i] == rest[i - 1] && all[j] == rest[j - 1];
        }
      }
    }
  }

  lemma PassTheorem(rs: seq<Range>)
    requires AllValid(rs)
    ensures |Compact(rs)| == |rs| <==> NoneMerge(rs)
    ensures NoneMerge(rs) ==> Compact(rs) == rs
  {
    hide NoneMerge, CompactFrom;
    if rs != [] {
      ShrinksUnlessDone(rs[0], rs[1..]);
      assert [rs[0]] + rs[1..] == rs;
    } else {
      NothingMerges();
    }
  }

  lemma NothingMerges()
    ensures NoneMerge([])
  {}

  // ----- passes until nothing changes -----

  function CompactAll(rs: seq<Range>): (out: seq<Range>)
    requires AllValid(rs)
    ensures AllValid(out)
    decreases |rs|
  {
    var out := Compact(rs);
    if |out| == |rs| then out else CompactAll(out)
  }

  /** Compacting keeps every address as often as it was there, and leaves no neighbours to merge. */
  lemma {:induction false} CompactAllTheorem(rs: seq<Range>)
    requires AllValid(rs)
    ensures forall x: Address :: x.Valid() ==> Multiplicity(CompactAll(rs), x) == Multiplicity(rs, x)
    ensures NoneMerge(CompactAll(rs))
    ensures |CompactAll(rs)| <= |rs|
    decreases |rs|
  {
    hide NoneMerge, Multiplicity, Compact, Address.Valid;
    forall x: Address | x.Valid()
      ensures Multiplicity(Compact(rs), x) == Multiplicity(rs, x)
    {
      CompactConserves(rs, x);
    }
    PassTheorem(rs);
    if |Compact(rs)| < |rs| {
      CompactAllTheorem(Compact(rs));
    }
  }

  // ----- compacting undoes spelling a box out -----

  /** A box cut into slices that are one wide in part `k`. */
  function Slices(r: Range, k: nat, from: nat): (rs: seq<Range>)
    requires r.Valid() && k < |r.parts| && from <= r.ranges[k]
    ensures AllValid(rs) && |rs| == r.ranges[k] - from
    decreases r.ranges[k] - from
  {
    if from == r.ranges[k] then []
    else
      SliceIsValid(r, k, from);
      [Slice(r, k, from)] + Slices(r, k, from + 1)
  }

  function Slice(r: Range, k: nat, i: nat): Range
    requires r.Valid() && k < |r.parts|
  {
    r.(parts := r.parts[k := r.parts[k] + i], ranges := r.ranges[k := 1])
  }

  lemma SliceIsValid(r: Range, k: nat, i: nat)
    requires r.Valid() && k < |r.parts| && i < r.ranges[k]
    ensures Slice(r, k, i).Valid()
  {
    var s := Slice(r, k, i);
    forall j | 0 <= j < |s.parts| ensures s.PartFits(j) {
      assert r.PartFits(j);
    }
  }

  /** The boxes of a list agree with `r` in the family and in all parts from `k` on. */
  predicate AlikeFrom(rs: seq<Range>, r: Range, k: nat)
    requires AllValid(rs) && r.Valid()
  {
    forall s :: s in rs ==> s.v6 == r.v6 && SameFrom(s, r, k)
  }

  predicate SameFrom(s: Range, r: Range, k: nat)
    requires s.Valid() && r.Valid() && s.v6 == r.v6
  {
    forall j :: k <= j < |r.parts| ==> s.parts[j] == r.parts[j] && s.ranges[j] == r.ranges[j]
  }

  /** Every box of the list cut in part `k`. */
  function SliceAll(rs: seq<Range>, r: Range, k: nat): (out: seq<Range>)
    requires AllValid(rs) && r.Valid() && k < |r.parts| && AlikeFrom(rs, r, k)
    ensures AllValid(out) && AlikeFrom(out, r, k + 1)
  {
    if rs == [] then []
    else
      SlicesAlike(rs[0], r, k, 0);
      Slices(rs[0], k, 0) + SliceAll(rs[1..], r, k)
  }

  lemma {:induction false} SlicesAlike(s: Range, r: Range, k: nat, from: nat)
    requires s.Valid() && r.Valid() && k < |r.parts| && s.v6 == r.v6 && SameFrom(s, r, k) && from <= s.ranges[k]
    ensures AlikeFrom(Slices(s, k, from), r, k + 1)
    decreases s.ranges[k] - from
  {
    hide Range.PartFits;
    if from < s.ranges[k] {
      SlicesAlike(s, r, k, from + 1);
      SliceIsValid(s, k, from);
      assert SameFrom(Slice(s, k, from), r, k + 1);
    }
  }

  /** The box spelled out in its first `k` parts, the later of them running faster. */
  function SpelledOut(r: Range, k: nat): (rs: seq<Range>)
    requires r.Valid() && k <= |r.parts|
    ensures AllValid(rs) && AlikeFrom(rs, r, k)
    decreases k
  {
    if k == 0 then [r] else SliceAll(SpelledOut(r, k - 1), r, k - 1)
  }

  /** The first `n` slices of a box, taken together. */
  function Partial(r: Range, k: nat, n: nat): Range
    requires r.Valid() && k < |r.parts|
  {
    r.(ranges := r.ranges[k := n])
  }

  lemma PartialGrows(r: Range, k: nat, n: nat)
    requires r.Valid() && k < |r.parts| && 1 <= n < r.ranges[k]
    ensures var p, s := Partial(r, k, n), Slice(r, k, n);
      p.Valid() && s.Valid() && CanMerge(p, s) && Merge(p, s) == Partial(r, k, n + 1)
  {
    SliceIsValid(r, k, n);
    PartialIsValid(r, k, n);
    var p, s := Partial(r, k, n), Slice(r, k, n);
    assert MergeAt(p, s, k);
    MergePartIsUnique(p, s, k, MergePart(p, s));
  }

  lemma PartialIsValid(r: Range, k: nat, n: nat)
    requires r.Valid() && k < |r.parts| && 1 <= n <= r.ranges[k]
    ensures Partial(r, k, n).Valid()
  {
    var p := Partial(r, k, n);
    forall j | 0 <= j < |p.parts| ensures p.PartFits(j) {
      assert r.PartFits(j);
    }
  }

  /** A pass puts the slices of one box together again. */
  lemma {:induction false} SlicesCompact(r: Range, k: nat, n: nat, rest: seq<Range>)
    requires r.Valid() && k < |r.parts| && 1 <= n <= r.ranges[k] && AllValid(rest)
    ensures Partial(r, k, n).Valid()
    ensures CompactFrom(Partial(r, k, n), Slices(r, k, n) + rest) == CompactFrom(r, rest)
    decreases r.ranges[k] - n
  {
    hide CanMerge, Merge, Range.PartFits, Slice;
    PartialIsValid(r, k, n);
    if n == r.ranges[k] {
      assert Partial(r, k, n) == r && [] + rest == rest;
    } else {
      PartialGrows(r, k, n);
      SlicesCompact(r, k, n + 1, rest);
      var tail := Slices(r, k, n) + rest;
      assert tail[0] == Slice(r, k, n) && tail[1..] == Slices(r, k, n + 1) + rest;
    }
  }

  /** A whole box does not absorb the first slice of the next one. */
  lemma BoxesStayApart(a: Range, b: Range, k: nat)
    requires a.Valid() && b.Valid() && a.v6 == b.v6 && k < |a.parts|
    requires a.parts[k] == b.parts[k] && a.ranges[k] > 1 && 1 <= b.ranges[k]
    ensures Slice(b, k, 0).Valid() && !CanMerge(a, Slice(b, k, 0))
  {
    SliceIsValid(b, k, 0);
    var s := Slice(b, k, 0);
    assert !SamePart(a, s, k) && !Adjacent(a, s, k);
  }

  /** A pass undoes cutting a list of boxes that are alike and more than one wide there. */
  lemma {:induction false} SliceAllCompacts(a: Range, rs: seq<Range>, r: Range, k: nat)
    requires AllValid(rs) && r.Valid() && k < |r.parts| && AlikeFrom(rs, r, k) && r.ranges[k] > 1
    requires a.Valid() && a.v6 == r.v6 && SameFrom(a, r, k)
    ensures CompactFrom(a, SliceAll(rs, r, k)) == [a] + rs
    decreases |rs|
  {
    hide CanMerge, Merge, Range.PartFits, Slice, Slices;
    if rs != [] {
      var b := rs[0];
      BoxesStayApart(a, b, k);
      var later := SliceAll(rs[1..], r, k);
      SlicesOpen(b, k, later);
      SlicesCompact(b, k, 1, later);
      SliceAllCompacts(b, rs[1..], r, k);
      assert [b] + rs[1..] == rs;
    }
  }

  lemma SlicesOpen(b: Range, k: nat, later: seq<Range>)
    requires b.Valid() && k < |b.parts| && AllValid(later) && b.ranges[k] >= 1
    ensures var all := Slices(b, k, 0) + later;
      Slice(b, k, 0) == Partial(b, k, 1) && all != [] && all[0] == Slice(b, k, 0) && all[1..] == Slices(b, k, 1) + later
  {
    assert b.parts[k := b.parts[k] + 0] == b.parts;
  }

  lemma {:induction false} NothingToCut(rs: seq<Range>, r: Range, k: nat)
    requires AllValid(rs) && r.Valid() && k < |r.parts| && AlikeFrom(rs, r, k) && r.ranges[k] == 1
    ensures SliceAll(rs, r, k) == rs
  {
    hide Slices, Range.PartFits;
    if rs != [] {
      NothingToCut(rs[1..], r, k);
      OneSlice(rs[0], k);
      assert [rs[0]] + rs[1..] == rs;
    }
  }

  lemma OneSlice(s: Range, k: nat)
    requires s.Valid() && k < |s.parts| && s.ranges[k] == 1
    ensures Slices(s, k, 0) == [s]
  {
    assert s.parts[k := s.parts[k] + 0] == s.parts && s.ranges[k := 1] == s.ranges;
  }

  lemma {:induction false} SlicedIsLonger(rs: seq<Range>, r: Range, k: nat)
    requires AllValid(rs) && r.Valid() && k < |r.parts| && AlikeFrom(rs, r, k)
    ensures |SliceAll(rs, r, k)| == |rs| * r.ranges[k]
  {
    hide Slices, Range.PartFits;
    if rs != [] {
      SlicedIsLonger(rs[1..], r, k);
      assert rs[0] in rs;
      OneMore(|rs| - 1, r.ranges[k]);
    }
  }

  lemma OneMore(m: nat, n: nat)
    ensures n + m * n == (m + 1) * n
  {}

  lemma Longer(m: nat, n: nat)
    requires m >= 1 && n >= 1
    ensures m * n >= m
    ensures n > 1 ==> m * n > m
  {
    assert m * n - m == m * (n - 1);
  }

  lemma {:induction false} SpelledOutShows(r: Range, k: nat)
    requires r.Valid() && k <= |r.parts|
    ensures SpelledOut(r, k) != []
    decreases k
  {
    if k > 0 {
      SpelledOutShows(r, k - 1);
      SlicedIsLonger(SpelledOut(r, k - 1), r, k - 1);
      assert r.PartFits(k - 1);
      Longer(|SpelledOut(r, k - 1)|, r.ranges[k - 1]);
    }
  }

  lemma PassTakesBack(rs: seq<Range>, r: Range, k: nat)
    requires AllValid(rs) && r.Valid() && k < |r.parts| && AlikeFrom(rs, r, k) && r.ranges[k] > 1 && rs != []
    ensures Compact(SliceAll(rs, r, k)) == rs
    ensures |rs| < |SliceAll(rs, r, k)|
  {
    hide CompactFrom, Slices, Slice, Range.PartFits, CanMerge;
    var b, later := rs[0], SliceAll(rs[1..], r, k);
    SlicedIsLonger(rs, r, k);
    Longer(|rs|, r.ranges[k]);
    assert b in rs;
    SlicesOpen(b, k, later);
    SlicesCompact(b, k, 1, later);
    SliceAllCompacts(b, rs[1..], r, k);
    assert [b] + rs[1..] == rs;
  }

  /** One pass over a box spelled out in `k` parts takes the innermost of them back. */
  lemma PassTakesOnePartBack(r: Range, k: nat)
    requires r.Valid() && 1 <= k <= |r.parts|
    ensures r.ranges[k - 1] == 1 ==> SpelledOut(r, k) == SpelledOut(r, k - 1)
    ensures r.ranges[k - 1] > 1 ==> Compact(SpelledOut(r, k)) == SpelledOut(r, k - 1)
    ensures r.ranges[k - 1] > 1 ==> |SpelledOut(r, k - 1)| < |SpelledOut(r, k)|
    ensures r.ranges[k - 1] >= 1
  {
    hide Compact, CompactFrom, Slices, Slice, AlikeFrom, SliceAll;
    assert r.PartFits(k - 1);
    if r.ranges[k - 1] == 1 {
      NothingToCut(SpelledOut(r, k - 1), r, k - 1);
    } else {
      SpelledOutShows(r, k - 1);
      PassTakesBack(SpelledOut(r, k - 1), r, k - 1);
    }
  }

  /** Spelling a box out in any number of its leading parts and compacting gives the box back. */
  lemma {:induction false} CompactUndoesSpelling(r: Range, k: nat)
    requires r.Valid() && k <= |r.parts|
    ensures CompactAll(SpelledOut(r, k)) == [r]
    decreases k
  {
    hide Compact, SliceAll, Range.PartFits, AlikeFrom;
    if k == 0 {
      OneBoxStays(r);
    } else {
      PassTakesOnePartBack(r, k);
      CompactUndoesSpelling(r, k - 1);
    }
  }

  lemma OneBoxStays(r: Range)
    requires r.Valid()
    ensures CompactAll([r]) == [r]
  {
    assert [r][1..] == [];
  }

  /** Spelled out in all parts, a box is a list of single addresses: each of its own
      addresses once and no other. */
  lemma SpelledOutIsSingles(r: Range, x: Address)
    requires r.Valid() && x.Valid()
    ensures forall s :: s in SpelledOut(r, |r.parts|) ==> OneWide(s, |r.parts|)
    ensures Multiplicity(SpelledOut(r, |r.parts|), x) == Times(r, x)
  {
    hide Multiplicity, CompactAll, Times;
    CompactUndoesSpelling(r, |r.parts|);
    CompactAllTheorem(SpelledOut(r, |r.parts|));
    OnceInOne(r, x);
    ShrunkToOne(r, |r.parts|);
  }

  lemma OnceInOne(r: Range, x: Address)
    requires r.Valid() && x.Valid()
    ensures Multiplicity([r], x) == Times(r, x)
  {
    hide Times;
    assert [r][1..] == [];
  }

  predicate OneWide(s: Range, k: nat) {
    |s.ranges| >= k && forall j :: 0 <= j < k ==> s.ranges[j] == 1
  }

  lemma {:induction false} SlicesAreOneWide(s: Range, k: nat, from: nat)
    requires s.Valid() && k < |s.parts| && from <= s.ranges[k] && OneWide(s, k)
    ensures forall t :: t in Slices(s, k, from) ==> OneWide(t, k + 1)
    decreases s.ranges[k] - from
  {
    if from < s.ranges[k] {
      SlicesAreOneWide(s, k, from + 1);
    }
  }

  lemma {:induction false} SlicedAreOneWide(rs: seq<Range>, r: Range, k: nat)
    requires AllValid(rs) && r.Valid() && k < |r.parts| && AlikeFrom(rs, r, k)
    requires forall s :: s in rs ==> OneWide(s, k)
    ensures forall t :: t in SliceAll(rs, r, k) ==> OneWide(t, k + 1)
  {
    hide OneWide, Slices, Range.PartFits;
    if rs != [] {
      SlicesAreOneWide(rs[0], k, 0);
      SlicedAreOneWide(rs[1..], r, k);
    }
  }

  lemma {:induction false} ShrunkToOne(r: Range, k: nat)
    requires r.Valid() && k <= |r.parts|
    ensures forall s :: s in SpelledOut(r, k) ==> OneWide(s, k)
    decreases k
  {
    if k > 0 {
      ShrunkToOne(r, k - 1);
      SlicedAreOneWide(SpelledOut(r, k - 1), r, k - 1);
    }
  }
}
