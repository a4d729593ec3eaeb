/** The string range object: blocks with a current position each, moved by the iteration
    methods, searched from the tail and merged in place. */
module StringRanges {
  import opened CText
  import opened Wrappers
  import opened StringRangeSpec
  import opened StringRangeIndex
  import M = StringRangeMerge
  import Decimal

  /** A point or an interval together with its place in the running iteration. */
  class StringRangeBlock {
    var block: Block
    /** An interval keeps the number it shows; a point never looks at this field. */
    var thePos: int

    ghost predicate Valid()
      reads this
    {
      block.Valid() && (block.Interval? ==> block.start <= thePos < block.stop)
    }

    ghost function Position(): (p: nat)
      requires Valid()
      reads this
      ensures p < block.Count()
    {
      if block.Point? then 0 else thePos - block.start
    }

    constructor (b: Block)
      requires b.Valid()
      ensures Valid() && block == b && Position() == 0
    {
      block := b;
      thePos := if b.Interval? then b.start else 0;
    }

    method Pos() returns (p: nat)
      requires Valid()
      ensures p == Position()
    {
      if block.Point? {
        p := 0;
      } else {
        p := thePos - block.start;
      }
    }

    method AtLast() returns (last: bool)
      requires Valid()
      ensures last <==> Position() + 1 == block.Count()
    {
      last := block.Point? || thePos == block.stop - 1;
    }

    method Start()
      requires Valid()
      modifies this`thePos
      ensures Valid() && Position() == 0
    {
      if block.Interval? {
        thePos := block.start;
      }
    }

    /** A point has nowhere to go: the source aborts there. */
    method Next()
      requires Valid() && Position() + 1 < block.Count()
      modifies this`thePos
      ensures Valid() && Position() == old(Position()) + 1
    {
      thePos := thePos + 1;
    }

    method SetPos(p: nat)
      requires Valid() && p < block.Count()
      modifies this`thePos
      ensures Valid() && Position() == p
    {
      if block.Interval? {
        thePos := block.start + p;
      }
    }

    function PrintCur(): (s: string)
      requires Valid()
      reads this
      ensures s == block.Text(Position())
    {
      if block.Point? then block.text
      else if block.base == 10 then Decimal.Print(thePos)
      else PrintHex(thePos % 0x1_0000_0000)
    }

    /** Matches the block against the end of `data[..tail]`. */
    method FindTail(data: string, tail: nat) returns (r: Option<Tail>)
      requires Valid() && tail <= |data|
      ensures r == StringRangeSpec.FindTail(block, data, tail)
    {
      if block.Point? {
        r := FindPoint(data, tail);
      } else {
        r := FindInterval(data, tail);
      }
    }

    method FindPoint(data: string, tail: nat) returns (r: Option<Tail>)
      requires Valid() && tail <= |data| && block.Point?
      ensures r == StringRangeSpec.FindTail(block, data, tail)
    {
      hide CommonTail;
      var found, tailPos := MatchTail(block.text, data, tail);
      r := if found then Some(Tail(tailPos, 0)) else None;
    }

    static method MatchTail(text: string, data: string, tail: nat) returns (found: bool, tailPos: nat)
      requires tail <= |data|
      ensures tailPos == tail - CommonTail(text, data[..tail])
      ensures found <==> tailPos < tail
    {
      hide CommonTail;
      var myPos, aPos := |text| - 1, tail - 1;
      found, tailPos := false, tail;
      assert text[..|text|] == text;
      while myPos >= 0 && aPos >= 0 && text[myPos] == data[aPos]
        invariant -1 <= myPos < |text| && -1 <= aPos < tail
        invariant |text| - myPos == tail - aPos && tailPos == aPos + 1
        invariant found <==> aPos + 1 < tail
        invariant CommonTail(text, data[..tail]) == tail - 1 - aPos + CommonTail(text[..myPos + 1], data[..aPos + 1])
      {
        CommonTailStep(text, myPos + 1, data, aPos + 1);
        found := true;
        tailPos := aPos;
        myPos, aPos := myPos - 1, aPos - 1;
      }
      CommonTailStep(text, myPos + 1, data, aPos + 1);
    }

    method FindInterval(data: string, tail: nat) returns (r: Option<Tail>)
      requires Valid() && tail <= |data| && block.Interval?
      ensures r == StringRangeSpec.FindTail(block, data, tail)
    {
      hide IsInt;
      var aPos, foundPos := tail - 1, -1;
      while aPos >= 0 && IsDigit(data[aPos], 10)
        invariant -1 <= aPos < tail
        invariant foundPos == if aPos == tail - 1 then -1 else aPos + 1
        invariant DigitTail(data[..tail]) == tail - 1 - aPos + DigitTail(data[..aPos + 1])
      {
        assert data[..aPos + 1][..aPos] == data[..aPos];
        foundPos := aPos;
        aPos := aPos - 1;
      }
      assert DigitTail(data[..aPos + 1]) == 0;
      r := None;
      if foundPos >= 0 {
        var num := IsInt(data[foundPos..], 0);
        if num.Some? && block.start <= num.value < block.stop {
          r := Some(Tail(foundPos, num.value - block.start));
        }
      }
    }

    /** Widens an interval by one that touches it or equals it. */
    method Merge(b: Block)
      requires Valid() && b.Valid() && M.BlockDiff(block, b) <= 1
      modifies this`block
      ensures Valid() && block == M.MergedBlock(old(block), b)
    {
      if block.Interval? {
        block := block.(start := if b.start < block.start then b.start else block.start,
                        stop := if b.stop > block.stop then b.stop else block.stop);
      }
    }
  }

  class StringRange {
    var theBlocks: seq<StringRangeBlock>

    ghost predicate Valid()
      reads this, theBlocks
    {
      && (forall i :: 0 <= i < |theBlocks| ==> theBlocks[i].Valid())
      && (forall i, j :: 0 <= i < j < |theBlocks| ==> theBlocks[i] != theBlocks[j])
    }

    ghost function Blocks(): (bs: seq<Block>)
      reads this, theBlocks
      ensures |bs| == |theBlocks|
    {
      seq(|theBlocks|, i requires 0 <= i < |theBlocks| reads this, theBlocks => theBlocks[i].block)
    }

    ghost function Positions(): (ps: seq<nat>)
      requires Valid()
      reads this, theBlocks
      ensures |ps| == |theBlocks|
    {
      seq(|theBlocks|, i requires 0 <= i < |theBlocks| && theBlocks[i].Valid() reads this, theBlocks
          => theBlocks[i].Position())
    }

    lemma Shape()
      requires Valid()
      ensures AllValid(Blocks()) && At(Blocks(), Positions())
    {}

    /** How many items there are; an empty range claims none. */
    method Count() returns (cnt: int)
      requires Valid()
      ensures AllValid(Blocks())
      ensures cnt == if theBlocks == [] then 0 else Combinations(Blocks())
    {
      hide Combinations;
      ghost var bs := Blocks();
      Shape();
      cnt := if |theBlocks| > 0 then 1 else 0;
      var i := 0;
      assert bs[0..] == bs;
      while i < |theBlocks|
        invariant 0 <= i <= |theBlocks|
        invariant theBlocks != [] ==> cnt * Combinations(bs[i..]) == Combinations(bs)
        invariant theBlocks == [] ==> cnt == 0
      {
        CombinationsStep(bs, i);
        MulThree(cnt, theBlocks[i].block.Count(), Combinations(bs[i + 1..]));
        cnt := cnt * theBlocks[i].block.Count();
        i := i + 1;
      }
      assert bs[i..] == [];
      NoBlocks([], []);
    }

    /** Index of a member, read off its tail block by block; numbers are read where they
        stand in memory, without regard to where the member ends. */
    method Find(member: string, beyond: string) returns (r: Option<nat>)
      requires Valid()
      ensures AllValid(Blocks()) && r == StringRangeSpec.Find(Blocks(), member, beyond)
    {
      hide Combinations, Position, FindTail, StringRangeBlock.Valid, FindTails, Joined;
      ghost var bs := Blocks();
      Shape();
      var data := member + beyond;
      var pos, cnt, tailPos: nat, i := 0, 1, |member|, |theBlocks| - 1;
      ghost var idxs: seq<nat> := [];
      JoinedNothing(FindTails(bs, data, tailPos));
      assert bs[|bs|..] == [] && bs[..|bs|] == bs;
      NoBlocks([], []);
      while i >= 0
        invariant -1 <= i < |theBlocks| && tailPos <= |member| && |idxs| == |bs| - 1 - i
        invariant cnt == Combinations(bs[i + 1..]) && pos == Position(bs[i + 1..], idxs)
        invariant Joined(FindTails(bs[..i + 1], data, tailPos), idxs) == FindTails(bs, data, |member|)
      {
        var t := theBlocks[i].FindTail(data, tailPos);
        FindOneTail(bs, i, data, tailPos, idxs);
        if t.None? {
          return None;
        }
        CombinationsStep(bs, i);
        PositionStep(bs[i..], [t.value.idx] + idxs);
        tailPos := t.value.pos;
        idxs := [t.value.idx] + idxs;
        assert bs[i..][1..] == bs[i + 1..] && idxs[1..] + [] == idxs[1..];
        pos := pos + t.value.idx * cnt;
        cnt := cnt * theBlocks[i].block.Count();
        i := i - 1;
      }
      assert bs[0..] == bs && bs[..0] == [];
      AllTailsFound(data, tailPos, idxs);
      r := Some(pos);
    }

    /** Index of the current combination. */
    method IterPos() returns (pos: nat)
      requires Valid()
      ensures AllValid(Blocks()) && pos == Position(Blocks(), Positions())
    {
      hide Combinations, Position, StringRangeBlock.Valid;
      ghost var bs, ps := Blocks(), Positions();
      Shape();
      pos := 0;
      var cnt, i := 1, |theBlocks| - 1;
      assert bs[|bs|..] == [] && ps[|ps|..] == [];
      NoBlocks([], []);
      while i >= 0
        invariant -1 <= i < |theBlocks|
        invariant cnt == Combinations(bs[i + 1..]) && pos == Position(bs[i + 1..], ps[i + 1..])
      {
        CombinationsStep(bs, i);
        PositionStep(bs[i..], ps[i..]);
        assert bs[i..][1..] == bs[i + 1..] && ps[i..][1..] == ps[i + 1..];
        var p := theBlocks[i].Pos();
        pos := pos + p * cnt;
        cnt := cnt * theBlocks[i].block.Count();
        i := i - 1;
      }
      assert bs[0..] == bs && ps[0..] == ps;
    }

    method CountOf(i: nat) returns (c: nat)
      requires Valid() && i < |theBlocks|
      ensures AllValid(Blocks()) && c == Blocks()[i].Count()
    {
      Shape();
      c := theBlocks[i].block.Count();
    }

    method SetBlock(i: nat, pos: nat)
      requires Valid() && i < |theBlocks| && pos < Blocks()[i].Count()
      modifies theBlocks[i]
      ensures Valid() && Blocks() == old(Blocks()) && Positions() == old(Positions())[i := pos]
    {
      theBlocks[i].SetPos(pos);
    }

    method StartBlock(i: nat)
      requires Valid() && i < |theBlocks|
      modifies theBlocks[i]
      ensures Valid() && Blocks() == old(Blocks()) && Positions() == old(Positions())[i := 0]
    {
      theBlocks[i].Start();
    }

    /** Turns block `i` on unless it shows its last position. */
    method NextBlock(i: nat) returns (turned: bool)
      requires Valid() && i < |theBlocks|
      modifies theBlocks[i]
      ensures Valid() && Blocks() == old(Blocks())
      ensures turned <==> old(Positions())[i] + 1 < Blocks()[i].Count()
      ensures Positions() == if turned then old(Positions())[i := old(Positions())[i] + 1] else old(Positions())
    {
      var last := theBlocks[i].AtLast();
      turned := !last;
      if turned {
        theBlocks[i].Next();
      }
    }

    method StartIter()
      requires Valid()
      modifies theBlocks
      ensures Valid() && Blocks() == old(Blocks())
      ensures forall i :: 0 <= i < |theBlocks| ==> Positions()[i] == 0
      ensures AllValid(Blocks()) && Position(Blocks(), Positions()) == 0
    {
      hide Combinations, Position, Valid, Blocks, Positions;
      var i := 0;
      while i < |theBlocks|
        invariant 0 <= i <= |theBlocks| && Valid() && Blocks() == old(Blocks())
        invariant forall j :: 0 <= j < i ==> Positions()[j] == 0
      {
        StartBlock(i);
        i := i + 1;
      }
      Shape();
      ZerosArePositionZero(Blocks(), Positions());
    }

    /** Moves on to the combination of index `count`, setting blocks from the right and
        stopping as soon as the distance is used up.  The result is false where the source
        aborts: for indexes behind the current one and beyond the range. */
    method SkipIter(count: int) returns (ok: bool)
      requires Valid()
      modifies theBlocks
      ensures Valid() && Blocks() == old(Blocks()) && AllValid(Blocks())
      ensures var d := count - old(Position(Blocks(), Positions()));
        && (ok <==> 0 <= d < Combinations(Blocks()))
        && (ok ==> forall i :: 0 <= i < |theBlocks| ==>
          Positions()[i] == Digit(Blocks(), d, i)
          || (Digit(Blocks(), d, i) == 0 && Positions()[i] == old(Positions())[i]))
      ensures ok && (forall i :: 0 <= i < |theBlocks| ==> old(Positions())[i] == 0) ==>
        Position(Blocks(), Positions()) == count
    {
      hide Combinations, Position, Digit, Valid, Blocks, Positions;
      ghost var ps := Positions();
      Shape();
      ZerosArePositionZero(Blocks(), ps);
      var at := IterPos();
      if count < at {
        return false;
      }
      var check := SkipBy(count - at);
      ok := check == count - at;
      Shape();
      if ok && forall i :: 0 <= i < |theBlocks| ==> ps[i] == 0 {
        assert Positions() == Digits(Blocks(), count);
        DigitsOfPosition(Blocks(), count);
      }
    }

    method SkipBy(d: nat) returns (check: nat)
      requires Valid()
      modifies theBlocks
      ensures Valid() && Blocks() == old(Blocks()) && AllValid(Blocks())
      ensures check == d <==> d < Combinations(Blocks())
      ensures check == d ==> forall i :: 0 <= i < |theBlocks| ==>
          Positions()[i] == Digit(Blocks(), d, i)
          || (Digit(Blocks(), d, i) == 0 && Positions()[i] == old(Positions())[i])
    {
      hide Combinations, Digit, Below, RightOf, Valid, Blocks, Positions;
      ghost var bs, ps := Blocks(), Positions();
      Shape();
      var right, i := 1, |theBlocks| - 1;
      check := 0;
      RightEnds(bs);
      BelowIs(bs, d, |bs|);
      while d > check && i >= 0
        invariant -1 <= i < |theBlocks| && Valid() && Blocks() == bs
        invariant right == RightOf(bs, i + 1) && check == Below(bs, d, i + 1)
        invariant forall j :: i < j < |bs| ==> Positions()[j] == Digit(bs, d, j)
        invariant forall j :: 0 <= j <= i ==> Positions()[j] == ps[j]
        decreases i
      {
        var c := CountOf(i);
        SkipStep(bs, d, i, right, c);
        var pos := (d / right) % c;
        SetBlock(i, pos);
        check := check + pos * right;
        right := right * c;
        i := i - 1;
      }
      BelowIs(bs, d, i + 1);
      if i >= 0 && check == d {
        RestIsZero(bs, d, i);
      }
    }

    /** Steps to the next combination; false when the last one is left and all start over. */
    method NextIter() returns (more: bool)
      requires Valid()
      modifies theBlocks
      ensures Valid() && Blocks() == old(Blocks()) && AllValid(Blocks())
      ensures var at := old(Position(Blocks(), Positions()));
        && (more <==> at + 1 < Combinations(Blocks()))
        && Position(Blocks(), Positions()) == if more then at + 1 else 0
    {
      hide Combinations, Position, Valid, Blocks, Positions;
      more := NextIterAt(|theBlocks| - 1);
      Shape();
      assert Blocks()[..|theBlocks|] == Blocks() && Positions()[..|theBlocks|] == Positions();
      assert old(Positions())[..|theBlocks|] == old(Positions());
    }

    method NextIterAt(level: int) returns (more: bool)
      requires Valid() && -1 <= level < |theBlocks|
      modifies theBlocks
      ensures Valid() && Blocks() == old(Blocks()) && AllValid(Blocks())
      ensures Positions()[level + 1..] == old(Positions())[level + 1..]
      ensures Stepped(Blocks()[..level + 1], old(Positions())[..level + 1], Positions()[..level + 1], more)
      decreases level
    {
      hide Combinations, Position, Valid, Blocks, Positions, Stepped;
      ghost var bs, ps := Blocks(), Positions();
      Shape();
      if level < 0 {
        SteppedOff(bs[..level + 1], ps[..level + 1]);
        return false;
      }
      SplitAt(bs, ps, level);
      more := NextBlock(level);
      Shape();
      SplitAt(bs, Positions(), level);
      if more {
        SteppedOn(bs[..level], ps[..level], bs[level], ps[level]);
      } else {
        StartBlock(level);
        ghost var qs := Positions();
        more := NextIterAt(level - 1);
        Shape();
        SplitAt(bs, Positions(), level);
        assert qs[level..][0] == Positions()[level..][0] == 0;
        assert Positions()[level + 1..] == Positions()[level..][1..] == qs[level..][1..];
        SteppedOver(bs[..level], ps[..level], Positions()[..level], bs[level], ps[level], more);
      }
    }

    /** Puts the current combination into text. */
    method CurrentIter() returns (str: string)
      requires Valid()
      ensures str == Text(Blocks(), Positions())
    {
      str := "";
      var i := 0;
      while i < |theBlocks|
        invariant 0 <= i <= |theBlocks|
        invariant str == Text(Blocks()[..i], Positions()[..i])
      {
        assert Blocks()[..i + 1][..i] == Blocks()[..i] && Positions()[..i + 1][..i] == Positions()[..i];
        var b := theBlocks[i];
        str := str + b.PrintCur();
        i := i + 1;
      }
      assert Blocks()[..i] == Blocks() && Positions()[..i] == Positions();
    }

    /** The item of a given index; not ok where the source aborts. */
    method StrAt(idx: int) returns (ok: bool, str: string)
      requires Valid()
      modifies theBlocks
      ensures Valid() && Blocks() == old(Blocks()) && AllValid(Blocks())
      ensures ok <==> 0 <= idx < Combinations(Blocks())
      ensures ok ==> str == Item(Blocks(), idx) && Position(Blocks(), Positions()) == idx
    {
      hide Combinations, Position, Digit, Text, Valid, Blocks, Positions;
      StartIter();
      ok := SkipIter(idx);
      str := "";
      if ok {
        Shape();
        assert Positions() == Digits(Blocks(), idx);
        DigitsOfPosition(Blocks(), idx);
        str := CurrentIter();
      }
    }

    /** All items, first to last.  The empty range, which counts none, lists one empty item. */
    method ToStrs() returns (strs: seq<string>)
      requires Valid()
      modifies theBlocks
      ensures Valid() && Blocks() == old(Blocks()) && AllValid(Blocks())
      ensures |strs| == Combinations(Blocks())
      ensures forall i :: 0 <= i < |strs| ==> strs[i] == Item(Blocks(), i)
    {
      hide Combinations, Position, Digits, Text, Valid, Blocks, Positions;
      ghost var bs := Blocks();
      StartIter();
      strs := [];
      var more := true;
      while more
        invariant Valid() && Blocks() == bs && AllValid(bs)
        invariant more ==> Position(bs, Positions()) == |strs| < Combinations(bs)
        invariant !more ==> |strs| == Combinations(bs)
        invariant forall i :: 0 <= i < |strs| ==> strs[i] == Item(bs, i)
        decreases more, Combinations(bs) - |strs|
      {
        Shape();
        PositionHasDigits(bs, Positions());
        var str := CurrentIter();
        strs := strs + [str];
        more := NextIter();
      }
    }

    /** Ranges merge when their blocks differ in one place only, by touching intervals. */
    method CanMergeSameType(r: StringRange) returns (can: bool)
      requires Valid() && r.Valid()
      ensures can <==> theBlocks == [] || (|theBlocks| == |r.theBlocks| && M.Diffs(Blocks(), r.Blocks()) == 1)
    {
      hide Valid, StringRangeBlock.Valid, M.BlockDiff, M.Diffs;
      ghost var bs, cs := Blocks(), r.Blocks();
      if |theBlocks| == 0 {
        return true;
      }
      if |theBlocks| != |r.theBlocks| {
        return false;
      }
      var diffCount, i := 0, 0;
      assert M.Diffs(bs[..0], cs[..0]) == 0 by { M.NoDiffs(); }
      while diffCount <= 1 && i < |theBlocks|
        invariant 0 <= i <= |theBlocks| && diffCount == M.Diffs(bs[..i], cs[..i])
      {
        M.DiffsStep(bs, cs, i);
        diffCount := diffCount + M.BlockDiff(theBlocks[i].block, r.theBlocks[i].block);
        i := i + 1;
      }
      M.DiffsGrow(bs, cs, i);
      assert bs[..|bs|] == bs && cs[..|cs|] == cs;
      can := diffCount == 1;
    }

    /** Takes the other range in.  The other range keeps its own blocks. */
    method MergeSameType(r: StringRange)
      requires Valid() && r.Valid()
      requires theBlocks == [] || (|theBlocks| == |r.theBlocks| && M.Diffs(Blocks(), r.Blocks()) == 1)
      requires forall i, j :: 0 <= i < |theBlocks| && 0 <= j < |r.theBlocks| ==> theBlocks[i] != r.theBlocks[j]
      requires r != this
      modifies this, theBlocks
      ensures Valid() && r.Valid() && r.Blocks() == old(r.Blocks())
      ensures Blocks() == if old(theBlocks) == [] then r.Blocks() else M.Merged(old(Blocks()), r.Blocks())
    {
      hide M.BlockDiff, M.MergedBlock;
      if |theBlocks| > 0 {
        ghost var bs, cs := Blocks(), r.Blocks();
        var i := 0;
        while i < |theBlocks|
          invariant 0 <= i <= |theBlocks| && theBlocks == old(theBlocks) && Valid()
          invariant forall j :: 0 <= j < i ==> theBlocks[j].block == M.MergedBlock(bs[j], cs[j])
          invariant forall j :: i <= j < |theBlocks| ==> theBlocks[j].block == bs[j]
        {
          M.OneDiffAtMost(bs, cs, i);
          theBlocks[i].Merge(r.theBlocks[i].block);
          i := i + 1;
        }
      } else {
        Append(r);
      }
    }

    method Append(r: StringRange)
      requires Valid() && r.Valid() && r != this && theBlocks == []
      modifies this
      ensures Valid() && fresh(theBlocks) && Blocks() == r.Blocks()
    {
      var i := 0;
      while i < |r.theBlocks|
        invariant 0 <= i <= |r.theBlocks| && |theBlocks| == i
        invariant fresh(theBlocks) && Valid()
        invariant forall j :: 0 <= j < i ==> theBlocks[j].block == r.theBlocks[j].block
      {
        var b := new StringRangeBlock(r.theBlocks[i].block);
        theBlocks := theBlocks + [b];
        i := i + 1;
      }
    }
  }

  /** What one call of `nextIter` makes of the combination `ps`. */
  ghost predicate Stepped(bs: seq<Block>, ps: seq<nat>, qs: seq<nat>, more: bool)
    requires AllValid(bs) && At(bs, ps) && At(bs, qs)
  {
    && (more <==> Position(bs, ps) + 1 < Combinations(bs))
    && Position(bs, qs) == if more then Position(bs, ps) + 1 else 0
  }

  lemma SteppedOff(bs: seq<Block>, ps: seq<nat>)
    requires bs == [] && ps == []
    ensures AllValid(bs) && At(bs, ps) && Stepped(bs, ps, ps, false)
  {}

  lemma SteppedOn(bs: seq<Block>, ps: seq<nat>, b: Block, p: nat)
    requires AllValid(bs) && b.Valid() && At(bs, ps) && p + 1 < b.Count()
    ensures AllValid(bs + [b]) && At(bs + [b], ps + [p]) && At(bs + [b], ps + [p + 1])
    ensures Stepped(bs + [b], ps + [p], ps + [p + 1], true)
  {
    hide Position, Combinations;
    StepOn(bs, ps, b, p);
  }

  lemma SteppedOver(bs: seq<Block>, ps: seq<nat>, qs: seq<nat>, b: Block, p: nat, more: bool)
    requires AllValid(bs) && b.Valid() && At(bs, ps) && At(bs, qs) && p + 1 == b.Count()
    requires Stepped(bs, ps, qs, more)
    ensures AllValid(bs + [b]) && At(bs + [b], ps + [p]) && At(bs + [b], qs + [0])
    ensures Stepped(bs + [b], ps + [p], qs + [0], more)
  {
    hide Position, Combinations;
    StepOn(bs, ps, b, p);
    PositionSnoc(bs, ps, b, p);
    PositionSnoc(bs, qs, b, 0);
    var q, k := Position(bs, ps), b.Count();
    assert (q + 1) * k == q * k + k;
  }

  lemma SplitAt(bs: seq<Block>, ps: seq<nat>, level: nat)
    requires AllValid(bs) && At(bs, ps) && level < |bs|
    ensures bs[..level + 1] == bs[..level] + [bs[level]] && ps[..level + 1] == ps[..level] + [ps[level]]
    ensures AllValid(bs[..level]) && At(bs[..level], ps[..level])
    ensures bs[level].Valid() && ps[level] < bs[level].Count()
  {}

  lemma PositionStep(bs: seq<Block>, ps: seq<nat>)
    requires AllValid(bs) && |ps| == |bs| > 0
    ensures Position(bs, ps) == ps[0] * Combinations(bs[1..]) + Position(bs[1..], ps[1..])
  {}

  lemma CommonTailStep(a: string, m: nat, b: string, n: nat)
    requires m <= |a| && n <= |b|
    ensures CommonTail(a[..m], b[..n]) ==
      if m > 0 && n > 0 && a[m - 1] == b[n - 1] then 1 + CommonTail(a[..m - 1], b[..n - 1]) else 0
  {
    if m > 0 && n > 0 {
      assert a[..m][..m - 1] == a[..m - 1] && b[..n][..n - 1] == b[..n - 1];
    }
  }

  ghost function Joined(found: Option<seq<nat>>, idxs: seq<nat>): Option<seq<nat>> {
    if found.None? then None else Some(found.value + idxs)
  }

  /** One block more, matched at the tail, in front of what was matched already. */
  lemma FindOneTail(bs: seq<Block>, i: nat, s: string, tail: nat, idxs: seq<nat>)
    requires i < |bs| && tail <= |s|
    ensures var t := FindTail(bs[i], s, tail);
      Joined(FindTails(bs[..i + 1], s, tail), idxs) ==
        if t.None? then None else Joined(FindTails(bs[..i], s, t.value.pos), [t.value.idx] + idxs)
  {
    hide FindTail;
    assert bs[..i + 1][..i] == bs[..i] && bs[..i + 1][i] == bs[i];
    var t := FindTail(bs[i], s, tail);
    if t.Some? {
      JoinedStep(FindTails(bs[..i], s, t.value.pos), t.value.idx, idxs);
    }
  }

  lemma AllTailsFound(s: string, tail: nat, idxs: seq<nat>)
    requires tail <= |s|
    ensures Joined(FindTails([], s, tail), idxs) == Some(idxs)
  {
    assert [] + idxs == idxs;
  }

  lemma JoinedNothing(found: Option<seq<nat>>)
    ensures Joined(found, []) == found
  {
    if found.Some? {
      assert found.value + [] == found.value;
    }
  }

  lemma JoinedStep(found: Option<seq<nat>>, idx: nat, idxs: seq<nat>)
    ensures Joined(Joined(found, [idx]), idxs) == Joined(found, [idx] + idxs)
  {
    if found.Some? {
      assert found.value + [idx] + idxs == found.value + ([idx] + idxs);
    }
  }

  ghost function RightOf(bs: seq<Block>, i: nat): nat
    requires AllValid(bs) && i <= |bs|
  {
    Combinations(bs[i..])
  }

  lemma RightEnds(bs: seq<Block>)
    requires AllValid(bs)
    ensures RightOf(bs, 0) == Combinations(bs) && RightOf(bs, |bs|) == 1
  {
    assert bs[0..] == bs && bs[|bs|..] == [];
  }

  /** What the blocks from `i` on make of the index `d`. */
  ghost function Below(bs: seq<Block>, d: nat, i: nat): nat
    requires AllValid(bs) && i <= |bs|
  {
    d % Combinations(bs[i..])
  }

  lemma BelowIs(bs: seq<Block>, d: nat, i: nat)
    requires AllValid(bs) && i <= |bs|
    ensures Below(bs, d, i) == d <==> d < RightOf(bs, i)
    ensures Below(bs, d, i) <= d
    ensures RightOf(bs, i) == 1 ==> Below(bs, d, i) == 0
  {
    hide Combinations;
  }

  lemma SkipStep(bs: seq<Block>, d: nat, i: nat, right: nat, c: nat)
    requires AllValid(bs) && i < |bs| && right == RightOf(bs, i + 1) && c == bs[i].Count()
    ensures right > 0 && c > 0
    ensures var pos := (d / right) % c;
      && pos == Digit(bs, d, i) < c
      && right * c == RightOf(bs, i)
      && Below(bs, d, i + 1) + pos * right == Below(bs, d, i)
  {
    hide Combinations;
    CombinationsStep(bs, i);
    DigitIs(bs, d, i);
    ModStep(d, right, c);
  }

  /** Once the remainder is the whole index, all digits further left are zero. */
  lemma {:induction false} RestIsZero(bs: seq<Block>, d: nat, i: nat)
    requires AllValid(bs) && i < |bs| && d < RightOf(bs, i + 1)
    ensures forall j :: 0 <= j <= i ==> Digit(bs, d, j) == 0
    ensures d < Combinations(bs)
  {
    hide Combinations, Digit;
    HighDigitsAreZero(bs, d, i);
    if i > 0 {
      RestIsZero(bs, d, i - 1);
    } else {
      assert bs[0..] == bs;
    }
  }
}
