/** When two string ranges can be merged into one, and what the merged range holds. */
module StringRangeMerge {
  import opened CText
  import opened Decimal
  import opened StringRangeSpec
  import opened StringRangeIndex

  /** How far two blocks are apart: 0 for the same members, 1 for intervals that touch,
      2 for everything that one block cannot express. */
  function BlockDiff(a: Block, b: Block): (n: nat)
    ensures n <= 2
  {
    match (a, b)
    case (Point(s), Point(t)) => if s == t then 0 else 2
    case (Interval(p, q, base, _), Interval(r, s, base', _)) =>
      if base != base' then 2
      else if p == r && q == s then 0
      else if q == r || s == p then 1
      else 2
    case _ => 2
  }

  function Diffs(bs: seq<Block>, cs: seq<Block>): nat
    requires |bs| == |cs|
  {
    if bs == [] then 0 else Diffs(bs[..|bs| - 1], cs[..|bs| - 1]) + BlockDiff(bs[|bs| - 1], cs[|bs| - 1])
  }

  lemma NoDiffs()
    ensures Diffs([], []) == 0
  {}

  lemma DiffsStep(bs: seq<Block>, cs: seq<Block>, i: nat)
    requires |bs| == |cs| && i < |bs|
    ensures Diffs(bs[..i + 1], cs[..i + 1]) == Diffs(bs[..i], cs[..i]) + BlockDiff(bs[i], cs[i])
  {
    assert bs[..i + 1][..i] == bs[..i] && cs[..i + 1][..i] == cs[..i];
  }

  lemma {:induction false} DiffsGrow(bs: seq<Block>, cs: seq<Block>, i: nat)
    requires |bs| == |cs| && i <= |bs|
    ensures Diffs(bs[..i], cs[..i]) <= Diffs(bs, cs)
    decreases |bs| - i
  {
    hide BlockDiff, Diffs;
    if i < |bs| {
      DiffsStep(bs, cs, i);
      DiffsGrow(bs, cs, i + 1);
    } else {
      assert bs[..i] == bs && cs[..i] == cs;
    }
  }

  lemma OneDiffAtMost(bs: seq<Block>, cs: seq<Block>, i: nat)
    requires |bs| == |cs| && i < |bs|
    ensures BlockDiff(bs[i], cs[i]) <= Diffs(bs, cs)
  {
    hide BlockDiff, Diffs;
    DiffsStep(bs, cs, i);
    DiffsGrow(bs, cs, i + 1);
  }

  function MergedBlock(a: Block, b: Block): Block {
    if a.Interval? && b.Interval? then
      a.(start := if b.start < a.start then b.start else a.start, stop := if b.stop > a.stop then b.stop else a.stop)
    else a
  }

  function Merged(bs: seq<Block>, cs: seq<Block>): (ms: seq<Block>)
    requires |bs| == |cs|
    ensures |ms| == |bs|
  {
    seq(|bs|, i requires 0 <= i < |bs| => MergedBlock(bs[i], cs[i]))
  }

  // ----- items by the numbers in them -----

  predicate BlockHas(b: Block, v: int) {
    if b.Point? then v == 0 else b.start <= v < b.stop
  }

  /** The two blocks share no number. */
  ghost predicate Apart(a: Block, b: Block) {
    forall v :: !(BlockHas(a, v) && BlockHas(b, v))
  }

  /** The numbers from `p` up to `q` are those of the two blocks together. */
  ghost predicate Together(a: Block, b: Block, p: int, q: int) {
    forall v {:trigger BlockHas(a, v)} :: p <= v < q <==> BlockHas(a, v) || BlockHas(b, v)
  }

  /** Intervals in one base differ by nothing if they have the same numbers, and by one if
      they share none and together are an interval. */
  lemma BlockDiffTheorem(a: Block, b: Block)
    requires a.Valid() && b.Valid() && a.Interval? && b.Interval? && a.base == b.base
    ensures BlockDiff(a, b) == 0 <==> forall v :: BlockHas(a, v) <==> BlockHas(b, v)
    ensures BlockDiff(a, b) == 1 <==> Apart(a, b) && exists p, q :: Together(a, b, p, q)
  {
    if forall v :: BlockHas(a, v) <==> BlockHas(b, v) {
      assert BlockHas(a, a.start) && BlockHas(b, b.start) && BlockHas(a, a.stop - 1) && BlockHas(b, b.stop - 1);
    }
    if BlockDiff(a, b) == 1 {
      assert Together(a, b, if a.start < b.start then a.start else b.start, if a.stop > b.stop then a.stop else b.stop);
    }
    if p, q :| Together(a, b, p, q) && Apart(a, b) {
      assert BlockHas(a, a.start) && BlockHas(b, b.start) && BlockHas(a, a.stop - 1) && BlockHas(b, b.stop - 1);
      TogetherTouch(a, b, p, q);
    }
  }

  lemma TogetherTouch(a: Block, b: Block, p: int, q: int)
    requires a.Valid() && b.Valid() && a.Interval? && b.Interval? && Together(a, b, p, q) && Apart(a, b)
    ensures a.stop == b.start || b.stop == a.start
  {
    assert BlockHas(a, a.start) && !BlockHas(b, a.start) && BlockHas(b, b.start) && !BlockHas(a, b.start);
    if a.start < b.start {
      var v := a.stop;
      assert p <= v < q ==> BlockHas(a, v) || BlockHas(b, v);
    } else {
      var v := b.stop;
      assert p <= v < q ==> BlockHas(a, v) || BlockHas(b, v);
    }
  }

  /** The numbers `vs` pick an item of the range. */
  predicate Has(bs: seq<Block>, vs: seq<int>) {
    |vs| == |bs| && forall i :: 0 <= i < |bs| ==> BlockHas(bs[i], vs[i])
  }

  function SpellBlock(b: Block, v: int): string {
    if b.Point? then b.text else if b.base == 10 then Print(v) else PrintHex(v % 0x1_0000_0000)
  }

  function Spell(bs: seq<Block>, vs: seq<int>): string
    requires |vs| == |bs|
  {
    if bs == [] then "" else Spell(bs[..|bs| - 1], vs[..|vs| - 1]) + SpellBlock(bs[|bs| - 1], vs[|vs| - 1])
  }

  function Numbers(bs: seq<Block>, ps: seq<nat>): (vs: seq<int>)
    requires |ps| == |bs|
    ensures |vs| == |bs|
  {
    seq(|bs|, i requires 0 <= i < |bs| => if bs[i].Point? then 0 else bs[i].start + ps[i])
  }

  /** Picking by position and picking by number are the same: same spelling, same choices. */
  lemma {:induction false} SpelledAtPositions(bs: seq<Block>, ps: seq<nat>)
    requires At(bs, ps)
    ensures Has(bs, Numbers(bs, ps))
    ensures Spell(bs, Numbers(bs, ps)) == Text(bs, ps)
    decreases |bs|
  {
    hide Print, PrintHex;
    if bs != [] {
      var n := |bs| - 1;
      SpelledAtPositions(bs[..n], ps[..n]);
      assert Numbers(bs, ps)[..n] == Numbers(bs[..n], ps[..n]);
    }
  }

  function Offset(b: Block, v: int): nat {
    if b.Point? || v < b.start then 0 else v - b.start
  }

  function PositionsOf(bs: seq<Block>, vs: seq<int>): (ps: seq<nat>)
    requires |vs| == |bs|
    ensures |ps| == |bs|
  {
    seq(|bs|, i requires 0 <= i < |bs| => Offset(bs[i], vs[i]))
  }

  lemma NumbersHavePositions(bs: seq<Block>, vs: seq<int>)
    requires Has(bs, vs)
    ensures At(bs, PositionsOf(bs, vs)) && Numbers(bs, PositionsOf(bs, vs)) == vs
  {
    var ps := PositionsOf(bs, vs);
    forall i | 0 <= i < |bs|
      ensures ps[i] < bs[i].Count() && Numbers(bs, ps)[i] == vs[i]
    {
      assert BlockHas(bs[i], vs[i]);
    }
  }

  ghost predicate IsItem(bs: seq<Block>, s: string) {
    exists ps :: At(bs, ps) && Text(bs, ps) == s
  }

  lemma ItemsAreSpellings(bs: seq<Block>, s: string)
    ensures IsItem(bs, s) <==> exists vs :: Has(bs, vs) && Spell(bs, vs) == s
  {
    hide Spell, Text, Numbers, PositionsOf;
    if IsItem(bs, s) {
      var ps :| At(bs, ps) && Text(bs, ps) == s;
      SameLength(bs, ps);
      SpelledAtPositions(bs, ps);
      assert Has(bs, Numbers(bs, ps)) && Spell(bs, Numbers(bs, ps)) == s;
    }
    if vs :| Has(bs, vs) && Spell(bs, vs) == s {
      HasLength(bs, vs);
      NumbersHavePositions(bs, vs);
      SpelledAtPositions(bs, PositionsOf(bs, vs));
      assert At(bs, PositionsOf(bs, vs)) && Text(bs, PositionsOf(bs, vs)) == s;
    }
  }

  lemma SameLength(bs: seq<Block>, ps: seq<nat>)
    requires At(bs, ps)
    ensures |ps| == |bs|
  {}

  lemma HasLength(bs: seq<Block>, vs: seq<int>)
    requires Has(bs, vs)
    ensures |vs| == |bs|
  {}

  // ----- block by block -----

  lemma MergedBlockHas(a: Block, b: Block, v: int)
    requires a.Valid() && b.Valid() && BlockDiff(a, b) <= 1
    ensures var m := MergedBlock(a, b);
      && m.Valid()
      && SpellBlock(m, v) == SpellBlock(a, v) == SpellBlock(b, v)
      && (BlockHas(m, v) <==> BlockHas(a, v) || BlockHas(b, v))
      && (BlockDiff(a, b) == 1 ==> !(BlockHas(a, v) && BlockHas(b, v)) && m.Count() == a.Count() + b.Count())
      && (BlockDiff(a, b) == 0 ==> (BlockHas(a, v) <==> BlockHas(b, v)) && m.Count() == a.Count() == b.Count())
  {
    hide Print, PrintHex;
  }

  lemma HasSnoc(bs: seq<Block>, vs: seq<int>)
    requires |vs| == |bs| > 0
    ensures var n := |bs| - 1;
      Has(bs, vs) <==> Has(bs[..n], vs[..n]) && BlockHas(bs[n], vs[n])
  {
    hide BlockHas;
    var n := |bs| - 1;
    if Has(bs[..n], vs[..n]) && BlockHas(bs[n], vs[n]) {
      forall i | 0 <= i < |bs| ensures BlockHas(bs[i], vs[i]) {
        if i < n {
          assert bs[..n][i] == bs[i] && vs[..n][i] == vs[i];
        }
      }
    }
  }

  lemma MergedInit(bs: seq<Block>, cs: seq<Block>)
    requires |bs| == |cs| > 0
    ensures var n := |bs| - 1;
      Merged(bs, cs)[..n] == Merged(bs[..n], cs[..n]) && Merged(bs, cs)[n] == MergedBlock(bs[n], cs[n])
  {}

  /** Merging keeps the spelling and holds the items of both; blocks that differ keep them apart. */
  lemma {:induction false} MergedHas(bs: seq<Block>, cs: seq<Block>, vs: seq<int>)
    requires |bs| == |cs| && AllValid(bs) && AllValid(cs) && Diffs(bs, cs) <= 1 && |vs| == |bs|
    ensures Spell(Merged(bs, cs), vs) == Spell(bs, vs) == Spell(cs, vs)
    ensures Has(Merged(bs, cs), vs) <==> Has(bs, vs) || Has(cs, vs)
    ensures Diffs(bs, cs) == 1 ==> !(Has(bs, vs) && Has(cs, vs))
    ensures Diffs(bs, cs) == 0 ==> (Has(bs, vs) <==> Has(cs, vs))
    decreases |bs|
  {
    hide Has, BlockHas, SpellBlock, BlockDiff, Merged, MergedBlock;
    if bs != [] {
      var n := |bs| - 1;
      MergedInit(bs, cs);
      MergedHas(bs[..n], cs[..n], vs[..n]);
      MergedBlockHas(bs[n], cs[n], vs[n]);
      HasSnoc(bs, vs);
      HasSnoc(cs, vs);
      HasSnoc(Merged(bs, cs), vs);
    } else {
      HasNothing(vs);
    }
  }

  lemma HasNothing(vs: seq<int>)
    requires vs == []
    ensures Has([], vs) && Merged([], []) == []
  {}

  lemma {:induction false} MergedIsValid(bs: seq<Block>, cs: seq<Block>)
    requires |bs| == |cs| && AllValid(bs) && AllValid(cs)
    requires Diffs(bs, cs) <= 1
    ensures AllValid(Merged(bs, cs))
    decreases |bs|
  {
    hide BlockHas, SpellBlock, BlockDiff, MergedBlock, Merged, Block.Valid, Block.Count;
    if bs != [] {
      var n := |bs| - 1;
      MergedIsValid(bs[..n], cs[..n]);
      MergedBlockHas(bs[n], cs[n], 0);
      MergedInit(bs, cs);
      var ms := Merged(bs, cs);
      forall i | 0 <= i < |ms| ensures ms[i].Valid() {
        assert i < n ==> ms[i] == ms[..n][i];
      }
    }
  }

  lemma {:induction false} MergedCount(bs: seq<Block>, cs: seq<Block>)
    requires |bs| == |cs| && AllValid(bs) && AllValid(cs) && Diffs(bs, cs) <= 1
    ensures AllValid(Merged(bs, cs))
    ensures Diffs(bs, cs) == 0 ==> Combinations(Merged(bs, cs)) == Combinations(bs) == Combinations(cs)
    ensures Diffs(bs, cs) == 1 ==> Combinations(Merged(bs, cs)) == Combinations(bs) + Combinations(cs)
    decreases |bs|
  {
    hide Combinations, BlockHas, SpellBlock, BlockDiff, MergedBlock, Merged, Block.Count;
    MergedIsValid(bs, cs);
    if bs != [] {
      var n := |bs| - 1;
      var ms := Merged(bs, cs);
      MergedCount(bs[..n], cs[..n]);
      MergedBlockHas(bs[n], cs[n], 0);
      MergedInit(bs, cs);
      CombinationsOfLast(bs);
      CombinationsOfLast(cs);
      CombinationsOfLast(ms);
      CountsAdd(Combinations(bs[..n]), Combinations(cs[..n]), bs[n].Count(), cs[n].Count());
    } else {
      assert Merged(bs, cs) == [];
      NoBlocks([], []);
    }
  }

  lemma CountsAdd(x: int, y: int, a: int, b: int)
    ensures x * (a + b) == x * a + x * b
    ensures (x + y) * a == x * a + y * a
  {}

  lemma CombinationsOfLast(bs: seq<Block>)
    requires AllValid(bs) && bs != []
    ensures Combinations(bs) == Combinations(bs[..|bs| - 1]) * bs[|bs| - 1].Count()
  {
    CombinationsSnoc(bs[..|bs| - 1], bs[|bs| - 1]);
    assert bs[..|bs| - 1] + [bs[|bs| - 1]] == bs;
  }

  /** Merging ranges that differ in one block: the counts add up, and the items of the
      merged range are those of both and no others. */
  lemma MergeTheorem(bs: seq<Block>, cs: seq<Block>)
    requires |bs| == |cs| && AllValid(bs) && AllValid(cs) && Diffs(bs, cs) == 1
    ensures AllValid(Merged(bs, cs))
    ensures Combinations(Merged(bs, cs)) == Combinations(bs) + Combinations(cs)
    ensures forall s :: IsItem(Merged(bs, cs), s) <==> IsItem(bs, s) || IsItem(cs, s)
  {
    hide Combinations, IsItem, Has, Spell, Merged, Diffs;
    MergedCount(bs, cs);
    forall s ensures IsItem(Merged(bs, cs), s) <==> IsItem(bs, s) || IsItem(cs, s) {
      MergeKeepsItem(bs, cs, s);
    }
  }

  lemma MergeKeepsItem(bs: seq<Block>, cs: seq<Block>, s: string)
    requires |bs| == |cs| && AllValid(bs) && AllValid(cs) && Diffs(bs, cs) == 1
    ensures IsItem(Merged(bs, cs), s) <==> IsItem(bs, s) || IsItem(cs, s)
  {
    hide IsItem, Has, Spell, Merged, Diffs;
    ItemsAreSpellings(bs, s);
    ItemsAreSpellings(cs, s);
    ItemsAreSpellings(Merged(bs, cs), s);
    forall vs | |vs| == |bs|
      ensures Has(Merged(bs, cs), vs) <==> Has(bs, vs) || Has(cs, vs)
      ensures Spell(Merged(bs, cs), vs) == Spell(bs, vs) == Spell(cs, vs)
    {
      MergedHas(bs, cs, vs);
    }
    forall vs | Has(bs, vs) ensures |vs| == |bs| { HasLength(bs, vs); }
    forall vs | Has(cs, vs) ensures |vs| == |cs| { HasLength(cs, vs); }
    forall vs | Has(Merged(bs, cs), vs) ensures |vs| == |bs| { HasLength(Merged(bs, cs), vs); }
  }
}
