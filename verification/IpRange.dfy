/** The address range object, merged in place, and the passes that compact a list of them. */
module IpRanges {
  import opened IpRangeSpec

  class IpRange {
    var theAddr: Address
    var theRanges: seq<nat>

    function Value(): Range
      reads this
    {
      Range(theAddr.v6, theAddr.parts, theRanges)
    }

    constructor (a: Address)
      requires a.Valid()
      ensures Value() == Single(a) && Value().Valid()
    {
      theAddr := a;
      theRanges := seq(|a.parts|, i => 1);
      new;
      SingleIsValid(a);
    }

    method Assign(r: Range)
      modifies this
      ensures Value() == r
    {
      theAddr := Address(r.v6, r.parts);
      theRanges := r.ranges;
    }

    method CanMerge(r: Range) returns (can: bool)
      requires Value().Valid() && r.Valid()
      ensures can <==> IpRangeSpec.CanMerge(Value(), r)
    {
      hide Range.PartFits;
      if theAddr.v6 != r.v6 {
        return false;
      }
      var diffs, i := 0, 0;
      ghost var v := Value();
      ghost var k, l := 0, 0;
      while i < PartLimit(theAddr.v6) && diffs <= 1
        invariant 0 <= i <= PartLimit(theAddr.v6) && 0 <= diffs <= 2 && 0 <= k <= i && 0 <= l <= i
        invariant forall j :: 0 <= j < i && !(diffs >= 1 && j == k) && !(diffs == 2 && j == l) ==> SamePart(v, r, j)
        invariant diffs >= 1 ==> k < i && Adjacent(v, r, k)
        invariant diffs == 2 ==> l < i && l != k && Adjacent(v, r, l)
      {
        if theAddr.parts[i] + theRanges[i] == r.parts[i] {
          if diffs == 0 {
            k := i;
          } else {
            l := i;
          }
          diffs := diffs + 1;
        } else if theAddr.parts[i] != r.parts[i] || theRanges[i] != r.ranges[i] {
          NoMergeAcross(v, r, i);
          return false;
        }
        i := i + 1;
      }
      can := diffs == 1;
      if diffs == 0 {
        SameNeverMerges(v, r);
      } else if diffs == 1 {
        assert MergeAt(v, r, k);
      } else {
        TwoNeverMerge(v, r, k, l);
      }
    }

    /** Absorbs a box that continues this one in a single part; otherwise changes nothing. */
    method Merge(r: Range) returns (done: bool)
      requires Value().Valid() && r.Valid()
      modifies this`theRanges
      ensures Value().Valid()
      ensures done <==> old(IpRangeSpec.CanMerge(Value(), r))
      ensures Value() == if done then old(IpRangeSpec.Merge(Value(), r)) else old(Value())
    {
      hide Range.PartFits;
      done := CanMerge(r);
      if done {
        ghost var v := Value();
        ghost var k := MergePart(v, r);
        var i := 0;
        while theAddr.parts[i] == r.parts[i]
          invariant 0 <= i <= k < |v.parts| && theRanges == v.ranges
          decreases k - i
        {
          MergePartIsUnique(v, r, k, i);
          i := i + 1;
        }
        MergePartIsUnique(v, r, k, i);
        theRanges := theRanges[i := theRanges[i] + r.ranges[i]];
        MergedIsValid(v, r, k);
      }
    }

    method Includes(r: Range) returns (b: bool)
      requires Value().Valid() && r.Valid()
      ensures b <==> forall x: Address :: x.Valid() && Covers(r, x) ==> Covers(Value(), x)
    {
      hide Range.PartFits, Address.Valid;
      ghost var v := Value();
      if theAddr.v6 != r.v6 {
        CornersAreIn(r);
        assert !Covers(v, LowCorner(r));
        return false;
      }
      var i := 0;
      while i < PartLimit(theAddr.v6)
        invariant 0 <= i <= PartLimit(theAddr.v6)
        invariant forall j :: 0 <= j < i ==> PartWithin(v, r, j)
      {
        if r.parts[i] < theAddr.parts[i] || theAddr.parts[i] + theRanges[i] < r.parts[i] + r.ranges[i] {
          StickingOut(v, r, i);
          return false;
        }
        i := i + 1;
      }
      b := true;
      forall x: Address | x.Valid() && Covers(r, x) ensures Covers(v, x) {
        WithinCovers(v, r, x);
      }
    }

    method Count() returns (count: nat)
      requires Value().Valid()
      ensures count == Size(Value().ranges)
    {
      count := 1;
      var i := 0;
      while i < PartLimit(theAddr.v6)
        invariant 0 <= i <= PartLimit(theAddr.v6) && count == Size(theRanges[..i])
      {
        assert theRanges[..i + 1][..i] == theRanges[..i];
        count := count * theRanges[i];
        i := i + 1;
      }
      assert theRanges[..i] == theRanges;
    }
  }

  lemma SingleIsValid(a: Address)
    requires a.Valid()
    ensures Single(a).Valid()
  {
    var s := Single(a);
    forall i | 0 <= i < |s.parts| ensures s.PartFits(i) {}
  }

  // ----- when merging is out of the question -----

  lemma NoMergeAcross(a: Range, b: Range, i: nat)
    requires a.Valid() && b.Valid() && a.v6 == b.v6 && i < |a.parts|
    requires !Adjacent(a, b, i) && !SamePart(a, b, i)
    ensures !CanMerge(a, b)
  {}

  lemma SameNeverMerges(a: Range, b: Range)
    requires a.Valid() && b.Valid() && a.v6 == b.v6
    requires forall i :: 0 <= i < |a.parts| ==> SamePart(a, b, i)
    ensures !CanMerge(a, b)
  {
    forall k | 0 <= k < |a.parts| ensures !MergeAt(a, b, k) {
      assert a.PartFits(k);
      assert SamePart(a, b, k);
    }
  }

  lemma TwoNeverMerge(a: Range, b: Range, k: nat, l: nat)
    requires a.Valid() && b.Valid() && a.v6 == b.v6 && k < |a.parts| && l < |a.parts| && k != l
    requires Adjacent(a, b, k) && Adjacent(a, b, l)
    ensures !CanMerge(a, b)
  {
    assert a.PartFits(k) && a.PartFits(l);
    assert !SamePart(a, b, k) && !SamePart(a, b, l);
  }

  // ----- containment -----

  predicate PartWithin(a: Range, r: Range, i: nat)
    requires a.Valid() && r.Valid() && a.v6 == r.v6 && i < |a.parts|
  {
    a.parts[i] <= r.parts[i] && r.parts[i] + r.ranges[i] <= a.parts[i] + a.ranges[i]
  }

  function LowCorner(r: Range): Address
    requires r.Valid()
  {
    Address(r.v6, r.parts)
  }

  function HighCorner(r: Range): Address
    requires r.Valid()
  {
    Address(r.v6, seq(|r.parts|, i requires 0 <= i < |r.parts| && r.PartFits(i) => r.parts[i] + r.ranges[i] - 1))
  }

  lemma CornersAreIn(r: Range)
    requires r.Valid()
    ensures LowCorner(r).Valid() && Covers(r, LowCorner(r))
    ensures HighCorner(r).Valid() && Covers(r, HighCorner(r))
  {
    forall i | 0 <= i < |r.parts|
      ensures PartCovers(r, LowCorner(r), i) && PartCovers(r, HighCorner(r), i)
      ensures LowCorner(r).parts[i] < PartSize(r.v6) && HighCorner(r).parts[i] < PartSize(r.v6)
    {
      assert r.PartFits(i);
    }
  }

  /** A box that sticks out in one part has a corner outside. */
  lemma StickingOut(a: Range, r: Range, i: nat)
    requires a.Valid() && r.Valid() && a.v6 == r.v6 && i < |a.parts| && !PartWithin(a, r, i)
    ensures exists x: Address :: x.Valid() && Covers(r, x) && !Covers(a, x)
  {
    CornersAreIn(r);
    assert r.PartFits(i);
    assert !PartCovers(a, LowCorner(r), i) || !PartCovers(a, HighCorner(r), i);
    assert !Covers(a, LowCorner(r)) || !Covers(a, HighCorner(r));
  }

  lemma WithinCovers(a: Range, r: Range, x: Address)
    requires a.Valid() && r.Valid() && a.v6 == r.v6 && x.Valid() && Covers(r, x)
    requires forall j :: 0 <= j < |a.parts| ==> PartWithin(a, r, j)
    ensures Covers(a, x)
  {
    forall i | 0 <= i < |a.parts| ensures PartCovers(a, x, i) {
      assert PartWithin(a, r, i) && PartCovers(r, x, i);
    }
  }

  // ----- sizes -----

  function Size(ranges: seq<nat>): nat {
    if ranges == [] then 1 else Size(ranges[..|ranges| - 1]) * ranges[|ranges| - 1]
  }

  lemma {:induction false} SizeAdds(ranges: seq<nat>, k: nat, a: nat, b: nat)
    requires k < |ranges|
    ensures Size(ranges[k := a + b]) == Size(ranges[k := a]) + Size(ranges[k := b])
  {
    var n := |ranges| - 1;
    var init := ranges[..n];
    if k == n {
      assert ranges[k := a + b][..n] == init && ranges[k := a][..n] == init && ranges[k := b][..n] == init;
      Distributes(Size(init), a, b);
    } else {
      SizeAdds(init, k, a, b);
      var c: nat := a + b;
      assert ranges[k := c][..n] == init[k := c];
      assert ranges[k := a][..n] == init[k := a] && ranges[k := b][..n] == init[k := b];
      Distributes(ranges[n], Size(init[k := a]), Size(init[k := b]));
    }
  }

  lemma Distributes(x: nat, a: nat, b: nat)
    ensures x * (a + b) == x * a + x * b
  {}

  function TotalSize(rs: seq<Range>): nat {
    if rs == [] then 0 else Size(rs[0].ranges) + TotalSize(rs[1..])
  }

  lemma MergeAddsSizes(a: Range, b: Range)
    requires a.Valid() && b.Valid() && IpRangeSpec.CanMerge(a, b)
    ensures Size(Merge(a, b).ranges) == Size(a.ranges) + Size(b.ranges)
  {
    hide Size, Range.PartFits;
    var k := MergePart(a, b);
    var c := a.ranges[k := b.ranges[k]];
    forall i | 0 <= i < |a.parts| ensures c[i] == b.ranges[i] {
      assert i != k ==> SamePart(a, b, i);
    }
    assert c == b.ranges && a.ranges[k := a.ranges[k]] == a.ranges;
    SizeAdds(a.ranges, k, a.ranges[k], b.ranges[k]);
  }

  lemma {:induction false} CompactFromKeepsSize(r: Range, rest: seq<Range>)
    requires r.Valid() && AllValid(rest)
    ensures TotalSize(CompactFrom(r, rest)) == Size(r.ranges) + TotalSize(rest)
    decreases |rest|
  {
    hide Size, CanMerge, Merge, Range.PartFits;
    if rest == [] {
      assert [r][1..] == [];
    } else if CanMerge(r, rest[0]) {
      MergeAddsSizes(r, rest[0]);
      CompactFromKeepsSize(Merge(r, rest[0]), rest[1..]);
    } else {
      CompactFromKeepsSize(rest[0], rest[1..]);
      var tail := CompactFrom(rest[0], rest[1..]);
      assert ([r] + tail)[1..] == tail;
    }
  }

  /** The counts of the compacted boxes still add up to the same number of addresses. */
  lemma {:induction false} CompactAllKeepsSize(rs: seq<Range>)
    requires AllValid(rs)
    ensures TotalSize(CompactAll(rs)) == TotalSize(rs)
    decreases |rs|
  {
    hide Size, CompactFrom;
    if rs != [] {
      CompactFromKeepsSize(rs[0], rs[1..]);
    }
    if |Compact(rs)| < |rs| {
      CompactAllKeepsSize(Compact(rs));
    }
  }

  // ----- the passes -----

  /** One pass from the left; true when it merged nothing. */
  method CompactAddrs(input: seq<Range>) returns (done: bool, out: seq<Range>)
    requires AllValid(input)
    ensures out == Compact(input)
    ensures done <==> NoneMerge(input)
    ensures done ==> out == input
    ensures AllValid(out) && (!done ==> |out| < |input|)
  {
    hide CanMerge, Merge, Range.PartFits, NoneMerge, Range.Valid, Pending, Compact;
    PassTheorem(input);
    if |input| == 0 {
      EmptyPass();
      return true, [];
    }
    out := [];
    var r := new IpRange(Address(false, [0, 0, 0, 0]));
    r.Assign(input[0]);
    PassBegins(input);
    var i := 1;
    while i < |input|
      invariant 1 <= i <= |input| && r.Value().Valid()
      invariant Pending(out, r.Value(), input, i) == Compact(input)
    {
      PassGoesOn(out, r.Value(), input, i);
      var merged := r.Merge(input[i]);
      if !merged {
        out := out + [r.Value()];
        r.Assign(input[i]);
      }
      i := i + 1;
    }
    PassEnds(out, r.Value(), input);
    out := out + [r.Value()];
    done := |out| == |input|;
  }

  /** What the pass will have put out when it is through. */
  ghost function Pending(out: seq<Range>, v: Range, input: seq<Range>, i: nat): seq<Range>
    requires v.Valid() && AllValid(input) && i <= |input|
  {
    out + CompactFrom(v, input[i..])
  }

  lemma EmptyPass()
    ensures Compact([]) == []
  {}

  lemma PassBegins(input: seq<Range>)
    requires AllValid(input) && input != []
    ensures Pending([], input[0], input, 1) == Compact(input)
  {}

  lemma PassGoesOn(out: seq<Range>, v: Range, input: seq<Range>, i: nat)
    requires v.Valid() && AllValid(input) && i < |input|
    ensures Pending(out, v, input, i) ==
      if CanMerge(v, input[i]) then Pending(out, Merge(v, input[i]), input, i + 1)
      else Pending(out + [v], input[i], input, i + 1)
  {
    hide CanMerge, Merge, Range.PartFits;
    assert input[i..][0] == input[i] && input[i..][1..] == input[i + 1..];
    assert out + ([v] + CompactFrom(input[i], input[i + 1..])) == out + [v] + CompactFrom(input[i], input[i + 1..]);
  }

  lemma PassEnds(out: seq<Range>, v: Range, input: seq<Range>)
    requires v.Valid() && AllValid(input)
    ensures Pending(out, v, input, |input|) == out + [v]
  {
    assert input[|input|..] == [];
  }

  function Singles(addrs: seq<Address>): (rs: seq<Range>)
    requires forall a :: a in addrs ==> a.Valid()
    ensures AllValid(rs)
  {
    if addrs == [] then []
    else
      SingleIsValid(addrs[0]);
      [Single(addrs[0])] + Singles(addrs[1..])
  }

  /** Compacts addresses until no neighbours merge: every address is covered as often as
      it was listed. */
  method CompactAllAddrs(addrs: seq<Address>) returns (out: seq<Range>)
    requires forall a :: a in addrs ==> a.Valid()
    ensures out == CompactAll(Singles(addrs)) && AllValid(out) && NoneMerge(out)
    ensures forall x: Address :: x.Valid() ==> Multiplicity(out, x) == multiset(addrs)[x]
    ensures TotalSize(out) == |addrs|
  {
    hide Compact, NoneMerge, Multiplicity, TotalSize, Address.Valid, Range.Valid;
    var stop;
    var singles := Singles(addrs);
    stop, out := CompactAddrs(singles);
    while !stop
      invariant AllValid(out) && CompactAll(singles) == if stop then out else CompactAll(out)
      decreases |out| + if stop then 0 else 1
    {
      stop, out := CompactAddrs(out);
    }
    CompactAllTheorem(singles);
    CompactAllKeepsSize(singles);
    SinglesSize(addrs);
    forall x: Address | x.Valid() ensures Multiplicity(singles, x) == multiset(addrs)[x] {
      SinglesMultiplicity(addrs, x);
    }
  }

  lemma {:induction false} SinglesSize(addrs: seq<Address>)
    requires forall a :: a in addrs ==> a.Valid()
    ensures TotalSize(Singles(addrs)) == |addrs|
  {
    if addrs != [] {
      SizeOfOnes(seq(|addrs[0].parts|, i => 1));
      SinglesSize(addrs[1..]);
    }
  }

  lemma {:induction false} SizeOfOnes(ones: seq<nat>)
    requires forall i :: 0 <= i < |ones| ==> ones[i] == 1
    ensures Size(ones) == 1
  {
    if ones != [] {
      SizeOfOnes(ones[..|ones| - 1]);
    }
  }

  lemma SingleCoversItself(a: Address, x: Address)
    requires a.Valid() && x.Valid()
    ensures Single(a).Valid() && (Covers(Single(a), x) <==> a == x)
  {
    SingleIsValid(a);
    if Covers(Single(a), x) {
      forall i | 0 <= i < |a.parts| ensures a.parts[i] == x.parts[i] {
        assert PartCovers(Single(a), x, i);
      }
      assert a.parts == x.parts;
    }
  }

  lemma {:induction false} SinglesMultiplicity(addrs: seq<Address>, x: Address)
    requires x.Valid() && forall a :: a in addrs ==> a.Valid()
    ensures Multiplicity(Singles(addrs), x) == multiset(addrs)[x]
  {
    hide Covers, Range.Valid;
    if addrs != [] {
      SinglesMultiplicity(addrs[1..], x);
      SingleCoversItself(addrs[0], x);
      assert addrs == [addrs[0]] + addrs[1..];
    }
  }

  // ----- a scheme spelled out and compacted -----

  /** The addresses of a box, last part fastest. */
  function AddressesOf(r: Range): (addrs: seq<Address>)
    requires r.Valid()
    ensures forall a :: a in addrs ==> a.Valid()
  {
    Starts(SpelledOut(r, |r.parts|))
  }

  function Starts(rs: seq<Range>): (addrs: seq<Address>)
    requires AllValid(rs)
    ensures |addrs| == |rs| && forall a :: a in addrs ==> a.Valid()
  {
    if rs == [] then []
    else
      CornersAreIn(rs[0]);
      [LowCorner(rs[0])] + Starts(rs[1..])
  }

  lemma {:induction false} StartsAreSingles(rs: seq<Range>)
    requires AllValid(rs) && forall s :: s in rs ==> OneWide(s, |s.parts|)
    ensures Singles(Starts(rs)) == rs
  {
    hide Range.PartFits;
    if rs != [] {
      StartsAreSingles(rs[1..]);
      var s := rs[0];
      assert s in rs;
      assert Single(LowCorner(s)).ranges == s.ranges;
      assert Single(LowCorner(s)) == s;
      assert [s] + rs[1..] == rs;
    }
  }

  /** Listing all addresses of a box in order and compacting the list gives the box back. */
  lemma CompactUndoesListing(r: Range)
    requires r.Valid()
    ensures CompactAll(Singles(AddressesOf(r))) == [r]
  {
    hide CompactAll, SpelledOut, Singles, Starts, OneWide, Range.PartFits;
    var n := |r.parts|;
    ShrunkToOne(r, n);
    forall s | s in SpelledOut(r, n) ensures |s.parts| == n {
      assert s.v6 == r.v6;
    }
    StartsAreSingles(SpelledOut(r, n));
    CompactUndoesSpelling(r, n);
  }
}
