/** String ranges as mixed-radix numbers: positions, items, and exactly when an item's
    index can be recovered from its text. */
module StringRangeSpec {
  import opened CInts
  import opened CText
  import opened Wrappers
  import opened Decimal
  import opened Numerals

  datatype Block = Point(text: string) | Interval(start: int, stop: int, base: int, isolated: bool) {
    predicate Valid() { Interval? ==> INT_MIN <= start < stop <= INT_MAX && (base == 10 || base == 16) }

    function Count(): int { if Point? then 1 else stop - start }

    /** What the block contributes to the item at one of its positions. */
    function Text(pos: nat): string {
      if Point? then text
      else if base == 10 then Print(start + pos)
      else PrintHex((start + pos) % 0x1_0000_0000)
    }
  }

  function PrintHex(n: nat): (s: string)
    ensures s != ""
  {
    var d := n % 16;
    var c := if d < 10 then '0' + d as char else 'a' + (d - 10) as char;
    if n < 16 then [c] else PrintHex(n / 16) + [c]
  }

  predicate LowerHex(s: string) {
    forall i :: 0 <= i < |s| ==> s[i] in LOWER
  }

  /** Base 16 prints the numeral in lower case, without a prefix or leading zeros. */
  lemma {:induction false} HexSpells(n: nat)
    ensures Spells(PrintHex(n), n, 16) && LowerHex(PrintHex(n))
    ensures n > 0 ==> PrintHex(n)[0] != '0'
    ensures n == 0 ==> PrintHex(n) == "0"
  {
    hide PrintHex;
    var s := PrintHex(n);
    LastHexDigit(n);
    HexDigit(n % 16);
    if n < 16 {
      assert s[..0] == "";
    } else {
      HexSpells(n / 16);
      assert s[..|s| - 1] == PrintHex(n / 16);
    }
  }

  lemma LastHexDigit(n: nat)
    ensures PrintHex(n) == (if n < 16 then "" else PrintHex(n / 16)) + [LOWER[n % 16]]
  {
    HexDigit(n % 16);
  }

  lemma HexDigit(d: nat)
    requires d < 16
    ensures LOWER[d] == if d < 10 then '0' + d as char else 'a' + (d - 10) as char
    ensures LOWER[d] in LOWER && (LOWER[d] == '0' <==> d == 0)
  {}

  /** ... and there is no other such numeral. */
  lemma {:induction false} OnlyHex(s: string, n: nat)
    requires s != "" && Spells(s, n, 16) && LowerHex(s) && (|s| > 1 ==> s[0] != '0')
    ensures s == PrintHex(n)
  {
    hide PrintHex, IsSign;
    var init, c := s[..|s| - 1], s[|s| - 1];
    LowerSign(c, n % 16);
    LastHexDigit(n);
    assert s == init + [c];
    if init == "" {
      assert n / 16 == 0;
    } else {
      LeadIsPositive(init, n / 16);
      OnlyHex(init, n / 16);
    }
  }

  lemma LowerSign(c: char, d: nat)
    requires d < 16 && IsSign(c, d) && c in LOWER
    ensures c == LOWER[d]
  {
    var i :| 0 <= i < 16 && LOWER[i] == c;
    SignsAreDigits(c, i);
    SignsAreDigits(c, d);
  }

  lemma {:induction false} LeadIsPositive(s: string, n: nat)
    requires s != "" && Spells(s, n, 16) && s[0] != '0'
    ensures n > 0
  {
    hide IsSign;
    if |s| == 1 {
      SignsAreDigits(s[0], 0);
      SignsAreDigits('0', 0);
    } else {
      LeadIsPositive(s[..|s| - 1], n / 16);
    }
  }

  /** What a block prints: its own text, or the number in its base, in base 16 as 32 bits. */
  lemma BlockText(b: Block, pos: nat)
    requires b.Valid() && pos < b.Count()
    ensures b.Point? ==> b.Text(pos) == b.text
    ensures b.Interval? && b.base == 10 ==>
      var v := b.start + pos;
      var s := b.Text(pos);
      if v < 0 then s[0] == '-' && Spells(s[1..], 0 - v, 10) else Spells(s, v, 10)
    ensures b.Interval? && b.base == 16 ==>
      var v := b.start + pos;
      var s := b.Text(pos);
      LowerHex(s) && (|s| > 1 ==> s[0] != '0') && Spells(s, if v < 0 then v + 0x1_0000_0000 else v, 16)
  {
    hide Spells, PrintHex, PrintNat;
    if b.Interval? {
      var v := b.start + pos;
      if b.base == 10 {
        PrintSpells(if v < 0 then 0 - v else v);
      } else {
        HexSpells(v % 0x1_0000_0000);
      }
    }
  }

  predicate AllValid(bs: seq<Block>) {
    forall i :: 0 <= i < |bs| ==> bs[i].Valid()
  }

  /** A position for every block. */
  predicate At(bs: seq<Block>, ps: seq<nat>) {
    |ps| == |bs| && forall i :: 0 <= i < |bs| ==> ps[i] < bs[i].Count()
  }

  /** How many combinations of positions there are. */
  function Combinations(bs: seq<Block>): (n: nat)
    requires AllValid(bs)
    ensures n > 0
  {
    if bs == [] then 1
    else
      Positive(bs[0].Count(), Combinations(bs[1..]));
      bs[0].Count() * Combinations(bs[1..])
  }

  lemma Positive(a: int, b: int)
    requires a > 0 && b > 0
    ensures a * b > 0
  {}

  /** The index of a combination: the leftmost block turns slowest. */
  function Position(bs: seq<Block>, ps: seq<nat>): nat
    requires AllValid(bs) && |ps| == |bs|
  {
    if bs == [] then 0 else ps[0] * Combinations(bs[1..]) + Position(bs[1..], ps[1..])
  }

  function Text(bs: seq<Block>, ps: seq<nat>): string
    requires |ps| == |bs|
  {
    if bs == [] then "" else Text(bs[..|bs| - 1], ps[..|ps| - 1]) + bs[|bs| - 1].Text(ps[|ps| - 1])
  }

  lemma {:induction false} PositionInRange(bs: seq<Block>, ps: seq<nat>)
    requires AllValid(bs) && At(bs, ps)
    ensures Position(bs, ps) < Combinations(bs)
  {
    if bs != [] {
      PositionInRange(bs[1..], ps[1..]);
      var c := Combinations(bs[1..]);
      DigitFits(ps[0], bs[0].Count(), Position(bs[1..], ps[1..]), c);
    }
  }

  lemma DigitFits(p: nat, n: int, r: nat, c: nat)
    requires p < n && r < c
    ensures p * c + r < n * c
  {
    assert (p + 1) * c <= n * c;
    assert (p + 1) * c == p * c + c;
  }

  /** Different combinations have different indexes. */
  lemma {:induction false} PositionIsUnique(bs: seq<Block>, ps: seq<nat>, qs: seq<nat>)
    requires AllValid(bs) && At(bs, ps) && At(bs, qs)
    requires Position(bs, ps) == Position(bs, qs)
    ensures ps == qs
    decreases |bs|
  {
    if bs != [] {
      var c := Combinations(bs[1..]);
      PositionInRange(bs[1..], ps[1..]);
      PositionInRange(bs[1..], qs[1..]);
      SameDigit(ps[0], Position(bs[1..], ps[1..]), qs[0], Position(bs[1..], qs[1..]), c);
      PositionIsUnique(bs[1..], ps[1..], qs[1..]);
      assert ps == [ps[0]] + ps[1..] && qs == [qs[0]] + qs[1..];
    }
  }

  lemma SameDigit(p: nat, r: nat, q: nat, s: nat, c: nat)
    requires r < c && s < c && p * c + r == q * c + s
    ensures p == q && r == s
  {
    if p != q {
      var d := p - q;
      assert d * c == s - r;
      if d > 0 {
        MulGrows(d, c);
      } else {
        MulGrows(-d, c);
      }
      assert false;
    }
  }

  lemma MulGrows(d: int, c: nat)
    requires d >= 1
    ensures d * c >= c
  {
    assert d * c - c == (d - 1) * c;
  }

  // ----- reading from the tail -----

  datatype Tail = Tail(pos: nat, idx: nat)

  /** Length of the longest common suffix. */
  function CommonTail(a: string, b: string): (n: nat)
    ensures n <= |a| && n <= |b|
  {
    if a != "" && b != "" && a[|a| - 1] == b[|b| - 1] then 1 + CommonTail(a[..|a| - 1], b[..|b| - 1])
    else 0
  }

  lemma {:induction false} CommonTailIsLongest(a: string, b: string)
    ensures var n := CommonTail(a, b);
      a[|a| - n..] == b[|b| - n..] && (n < |a| && n < |b| ==> a[|a| - n - 1] != b[|b| - n - 1])
  {
    if a != "" && b != "" && a[|a| - 1] == b[|b| - 1] {
      var x, y := a[..|a| - 1], b[..|b| - 1];
      CommonTailIsLongest(x, y);
      var n := CommonTail(x, y);
      TailSnoc(a, n);
      TailSnoc(b, n);
    }
  }

  lemma TailSnoc(a: string, n: nat)
    requires n < |a|
    ensures a[|a| - n - 1..] == a[..|a| - 1][|a| - 1 - n..] + [a[|a| - 1]]
  {}

  /** Length of the digit run that ends the text. */
  function DigitTail(s: string): (n: nat)
    ensures n <= |s|
    ensures forall i :: |s| - n <= i < |s| ==> IsDigit(s[i], 10)
    ensures n < |s| ==> !IsDigit(s[|s| - n - 1], 10)
  {
    if s != "" && IsDigit(s[|s| - 1], 10) then 1 + DigitTail(s[..|s| - 1]) else 0
  }

  /** Matches a block against the end of `s[..tail]`.  A point is content with part of
      its text; a number is read to its end even beyond `tail`, and in the base its
      spelling suggests. */
  function FindTail(b: Block, s: string, tail: nat): (r: Option<Tail>)
    requires tail <= |s|
    ensures r.Some? ==> r.value.pos < tail && r.value.idx < b.Count()
  {
    if b.Point? then
      var n := CommonTail(b.text, s[..tail]);
      if n == 0 then None else Some(Tail(tail - n, 0))
    else
      var n := DigitTail(s[..tail]);
      var num := IsInt(s[tail - n..], 0);
      if n > 0 && num.Some? && b.start <= num.value < b.stop then Some(Tail(tail - n, num.value - b.start))
      else None
  }

  /** The positions that `find` reads off, block by block from the right. */
  function FindTails(bs: seq<Block>, s: string, tail: nat): (r: Option<seq<nat>>)
    requires tail <= |s|
    ensures r.Some? ==> At(bs, r.value)
  {
    if bs == [] then Some([])
    else
      var t := FindTail(bs[|bs| - 1], s, tail);
      if t.None? then None
      else
        var ps := FindTails(bs[..|bs| - 1], s, t.value.pos);
        if ps.None? then None
        else
          AtSnoc(bs, ps.value, t.value.idx);
          Some(ps.value + [t.value.idx])
  }

  lemma AtSnoc(bs: seq<Block>, ps: seq<nat>, p: nat)
    requires bs != [] && At(bs[..|bs| - 1], ps) && p < bs[|bs| - 1].Count()
    ensures At(bs, ps + [p])
  {
    hide Block.Count;
    forall i | 0 <= i < |bs| ensures (ps + [p])[i] < bs[i].Count() {
      assert i < |bs| - 1 ==> bs[..|bs| - 1][i] == bs[i];
    }
  }

  /** `beyond` is the memory behind the member, into which a number may be read. */
  function Find(bs: seq<Block>, member: string, beyond: string): Option<nat>
    requires AllValid(bs)
  {
    var ps := FindTails(bs, member + beyond, |member|);
    if ps.None? then None else Some(Position(bs, ps.value))
  }

  // ----- numbers that stand on their own -----

  predicate OnlyZeros(s: string) {
    forall i :: 0 <= i < |s| ==> s[i] == '0'
  }

  /** Reading the digits of `v` in front of `f` yields `v` again. */
  predicate Stands(v: int, f: string) {
    && 0 <= v <= INT_MAX
    && if v > 0 then f == "" || !IsDigit(f[0], 10)
       else if HexPrefixed("0" + f) then OnlyZeros(f[1..][..DigitRun(f[1..], 16)])
       else OnlyZeros(f[..DigitRun(f, 8)])
  }

  lemma {:induction false} ValueOfZeros(s: string, base: nat)
    requires AllDigits(s, base) && 2 <= base <= 36
    ensures Value(s, base) == 0 <==> OnlyZeros(s)
  {
    if s != "" {
      var init, c := s[..|s| - 1], s[|s| - 1];
      ValueOfZeros(init, base);
      MulZero(Value(init, base), base);
      ZeroDigit(c);
      OnlyZerosSnoc(init, c);
      assert s == init + [c];
    }
  }

  lemma MulZero(v: nat, base: nat)
    requires base > 0
    ensures v * base >= v
  {}

  lemma ZeroDigit(c: char)
    ensures DigitOf(c) == 0 <==> c == '0'
  {}

  lemma OnlyZerosSnoc(init: string, c: char)
    ensures OnlyZeros(init + [c]) <==> OnlyZeros(init) && c == '0'
  {
    var s := init + [c];
    if OnlyZeros(s) {
      assert s[|init|] == c;
      assert forall i :: 0 <= i < |init| ==> init[i] == s[i];
    }
  }

  lemma {:induction false} MoreDigitsMore(a: string, b: string)
    requires AllDigits(a + b, 10) && AllDigits(a, 10) && b != ""
    ensures Value(a + b, 10) >= 10 * Value(a, 10)
    decreases |b|
  {
    var s := a + b;
    var b' := b[..|b| - 1];
    assert s[..|s| - 1] == a + b';
    if b' == "" {
      assert a + b' == a;
    } else {
      MoreDigitsMore(a, b');
    }
  }

  /** Text that opens with a digit is converted from its first character on. */
  lemma IsIntOfDigits(s: string)
    requires s != "" && IsDigit(s[0], 10)
    ensures StrToInt(s, 0) == Unsigned(s, 0)
    ensures Unsigned(s, 0).Some? ==> Unsigned(s, 0).value >= 0
  {
    hide Unsigned;
    SpanIs(s, 0, c => IsSpace(c));
    assert s[0..] == s;
    UnsignedIsNatural(s);
  }

  lemma UnsignedIsNatural(s: string)
    ensures Unsigned(s, 0).Some? ==> Unsigned(s, 0).value >= 0
  {}

  lemma UnsignedPositive(v: nat, f: string)
    requires v > 0
    ensures var u := Unsigned(PrintNat(v) + f, 0);
      u.Some? && (u.value == v <==> f == "" || !IsDigit(f[0], 10))
  {
    hide PrintNat, Value;
    var t := PrintNat(v);
    var s := t + f;
    assert s[0] == t[0] != '0';
    assert ChosenBase(s, 0) == 10;
    var n := DigitRun(f, 10);
    assert forall i :: |t| <= i < |s| ==> s[i] == f[i - |t|];
    DigitRunIs(s, |t| + n, 10);
    assert s[..|t| + n] == t + f[..n];
    ValueOfPrint(v);
    if n == 0 {
      assert t + f[..0] == t;
    } else {
      MoreDigitsMore(t, f[..n]);
    }
  }

  lemma UnsignedZeroHex(f: string)
    requires HexPrefixed("0" + f)
    ensures var u := Unsigned("0" + f, 0);
      u.Some? && (u.value == 0 <==> OnlyZeros(f[1..][..DigitRun(f[1..], 16)]))
  {
    hide Value, OnlyZeros;
    var s := "0" + f;
    assert s[2..] == f[1..];
    ValueOfZeros(f[1..][..DigitRun(f[1..], 16)], 16);
  }

  lemma UnsignedZeroOctal(f: string)
    requires !HexPrefixed("0" + f)
    ensures var u := Unsigned("0" + f, 0);
      u.Some? && (u.value == 0 <==> OnlyZeros(f[..DigitRun(f, 8)]))
  {
    hide Value, OnlyZeros, HexPrefixed;
    var s := "0" + f;
    var n := DigitRun(f, 8);
    assert forall i :: 1 <= i < |s| ==> s[i] == f[i - 1];
    DigitRunIs(s, 1 + n, 8);
    assert s[..1 + n] == "0" + f[..n];
    ValueOfZeros(s[..1 + n], 8);
    ZeroThenZeros(f[..n]);
  }

  lemma ZeroThenZeros(f: string)
    ensures OnlyZeros("0" + f) <==> OnlyZeros(f)
  {
    var s := "0" + f;
    assert forall i :: 1 <= i < |s| ==> s[i] == f[i - 1];
    if OnlyZeros(s) {
      assert forall i :: 0 <= i < |f| ==> f[i] == s[1 + i];
    }
  }

  /** A printed number is read back exactly when what follows lets it stand. */
  lemma ReadsIffStands(v: nat, f: string)
    requires v <= INT_MAX
    ensures IsInt(Print(v) + f, 0) == Some(v) <==> Stands(v, f)
    ensures IsInt(Print(v) + f, 0).Some? ==> IsInt(Print(v) + f, 0).value >= 0
  {
    hide Unsigned, StrToInt, OnlyZeros, HexPrefixed;
    var s := Print(v) + f;
    assert s[0] == Print(v)[0];
    IsIntOfDigits(s);
    if v > 0 {
      UnsignedPositive(v, f);
    } else if HexPrefixed("0" + f) {
      UnsignedZeroHex(f);
    } else {
      UnsignedZeroOctal(f);
    }
  }

  // ----- matching one block at its own text -----

  predicate EndsInDigit(s: string) {
    s != "" && IsDigit(s[|s| - 1], 10)
  }

  lemma {:induction false} CommonTailOfOwn(pre: string, t: string)
    ensures CommonTail(t, pre + t) == |t|
  {
    if t != "" {
      assert (pre + t)[..|pre + t| - 1] == pre + t[..|t| - 1];
      CommonTailOfOwn(pre, t[..|t| - 1]);
    }
  }

  lemma {:induction false} DigitTailOfDigits(pre: string, t: string)
    requires AllDigits(t, 10)
    ensures DigitTail(pre + t) == DigitTail(pre) + |t|
  {
    if t == "" {
      assert pre + t == pre;
    } else {
      assert (pre + t)[..|pre + t| - 1] == pre + t[..|t| - 1];
      DigitTailOfDigits(pre, t[..|t| - 1]);
    }
  }

  lemma PointTail(b: Block, pre: string, rest: string)
    requires b.Point?
    ensures var t := FindTail(b, pre + b.text + rest, |pre + b.text|);
      t == if b.text == "" then None else Some(Tail(|pre|, 0))
  {
    assert (pre + b.text + rest)[..|pre + b.text|] == pre + b.text;
    CommonTailOfOwn(pre, b.text);
  }

  /** A number whose left neighbour is no digit is found where it is, if it stands. */
  lemma NumberTail(b: Block, v: nat, pre: string, rest: string)
    requires b.Interval? && b.Valid() && b.start <= v < b.stop && !EndsInDigit(pre)
    ensures var t := FindTail(b, pre + Print(v) + rest, |pre + Print(v)|);
      if Stands(v, rest) then t == Some(Tail(|pre|, v - b.start))
      else t.None? || t.value.idx != v - b.start
  {
    hide IsInt, Stands, PrintNat, DigitTail;
    var s, tail := pre + Print(v) + rest, |pre + Print(v)|;
    assert s[..tail] == pre + Print(v);
    DigitTailOfDigits(pre, Print(v));
    NoDigitTail(pre);
    assert s[|pre|..] == Print(v) + rest;
    ReadsIffStands(v, rest);
  }

  lemma NoDigitTail(pre: string)
    requires !EndsInDigit(pre)
    ensures DigitTail(pre) == 0
  {}

  /** A number after a digit drags that digit along. */
  lemma RunOnTail(b: Block, v: nat, pre: string, rest: string)
    requires b.Interval? && EndsInDigit(pre)
    ensures var s := pre + Print(v) + rest;
      var t := FindTail(b, s, |pre + Print(v)|);
      t.None? || (t.value.pos < |pre| && s[..t.value.pos] == pre[..t.value.pos] && !EndsInDigit(pre[..t.value.pos]))
  {
    hide IsInt, PrintNat;
    var s, tail := pre + Print(v) + rest, |pre + Print(v)|;
    assert s[..tail] == pre + Print(v);
    DigitTailOfDigits(pre, Print(v));
    var n := DigitTail(pre);
    assert n > 0;
    assert tail - (n + |Print(v)|) == |pre| - n;
    assert s[..|pre| - n] == pre[..|pre| - n];
  }

  /** A negative number is never read as itself. */
  lemma NegativeTail(b: Block, v: int, s: string, tail: nat)
    requires tail <= |s| && b.Interval? && v < 0
    ensures var t := FindTail(b, s, tail);
      t.Some? ==> t.value.idx != v - b.start
  {
    hide StrToInt;
    var n := DigitTail(s[..tail]);
    if n > 0 {
      assert IsDigit(s[..tail][tail - n], 10);
      assert s[tail - n..][0] == s[tail - n];
      IsIntOfDigits(s[tail - n..]);
    }
  }

  /** A block whose text ends in a digit finds nothing where the text does not. */
  lemma NothingBeforeTheNumber(b: Block, pos: nat, s: string, tail: nat)
    requires tail <= |s| && b.Valid() && pos < b.Count() && !EndsInDigit(s[..tail])
    requires b.Interval? ==> b.base == 10
    requires b.Text(pos) == "" || EndsInDigit(b.Text(pos))
    ensures FindTail(b, s, tail).None?
  {
    if b.Interval? {
      NoDigitTail(s[..tail]);
    }
  }

  // ----- whole items -----

  predicate Decimals(bs: seq<Block>) {
    forall i :: 0 <= i < |bs| && bs[i].Interval? ==> bs[i].base == 10
  }

  /** The last block stands alone: a point shows; a number is not negative, has no digit
      before it, and nothing after it that would be read as part of it. */
  predicate LastStands(bs: seq<Block>, ps: seq<nat>, rest: string)
    requires |ps| == |bs| > 0
  {
    var n := |bs| - 1;
    if bs[n].Point? then bs[n].text != ""
    else
      && bs[n].start + ps[n] >= 0
      && !EndsInDigit(Text(bs[..n], ps[..n]))
      && Stands(bs[n].start + ps[n], rest)
  }

  predicate AllStand(bs: seq<Block>, ps: seq<nat>, rest: string)
    requires |ps| == |bs|
  {
    var n := |bs| - 1;
    bs == [] || (LastStands(bs, ps, rest) && AllStand(bs[..n], ps[..n], bs[n].Text(ps[n]) + rest))
  }

  lemma TextOfLast(bs: seq<Block>, ps: seq<nat>, rest: string)
    requires |ps| == |bs| > 0
    ensures var n := |bs| - 1;
      var pre, text := Text(bs[..n], ps[..n]), bs[n].Text(ps[n]);
      Text(bs, ps) == pre + text && Text(bs, ps) + rest == pre + text + rest == pre + (text + rest)
  {
    hide Block.Text;
  }

  /** Behind a digit nothing but failure follows. */
  lemma FailsBehindDigits(bs: seq<Block>, ps: seq<nat>, s: string, tail: nat)
    requires AllValid(bs) && Decimals(bs) && At(bs, ps) && tail <= |s|
    requires EndsInDigit(Text(bs, ps)) && !EndsInDigit(s[..tail])
    ensures FindTails(bs, s, tail).None?
  {
    hide FindTail;
    var n := |bs| - 1;
    TextOfLast(bs, ps, "");
    NothingBeforeTheNumber(bs[n], ps[n], s, tail);
  }

  lemma LastIsFound(bs: seq<Block>, ps: seq<nat>, rest: string)
    requires AllValid(bs) && Decimals(bs) && At(bs, ps) && bs != []
    ensures var n := |bs| - 1;
      var pre := Text(bs[..n], ps[..n]);
      var s := pre + bs[n].Text(ps[n]) + rest;
      var t := FindTail(bs[n], s, |pre + bs[n].Text(ps[n])|);
      if LastStands(bs, ps, rest) then t == Some(Tail(|pre|, ps[n]))
      else t.None? || t.value.idx != ps[n] || FindTails(bs[..n], s, t.value.pos).None?
  {
    hide FindTail, Stands, Print;
    var n := |bs| - 1;
    var b, pre := bs[n], Text(bs[..n], ps[..n]);
    var s, tail := pre + b.Text(ps[n]) + rest, |pre + b.Text(ps[n])|;
    if b.Point? {
      PointTail(b, pre, rest);
    } else {
      var v := b.start + ps[n];
      if v < 0 {
        NegativeTail(b, v, s, tail);
      } else if EndsInDigit(pre) {
        RunOnTail(b, v, pre, rest);
        var t := FindTail(b, s, tail);
        if t.Some? {
          FailsBehindDigits(bs[..n], ps[..n], s, t.value.pos);
        }
      } else {
        NumberTail(b, v, pre, rest);
      }
    }
  }

  lemma FindTailsStep(bs: seq<Block>, s: string, tail: nat, ps: seq<nat>)
    requires |ps| == |bs| > 0 && tail <= |s|
    ensures var n := |bs| - 1;
      var t := FindTail(bs[n], s, tail);
      FindTails(bs, s, tail) == Some(ps) <==>
        t.Some? && t.value.idx == ps[n] && FindTails(bs[..n], s, t.value.pos) == Some(ps[..n])
  {
    hide FindTail;
    var n := |bs| - 1;
    var t := FindTail(bs[n], s, tail);
    assert ps == ps[..n] + [ps[n]];
    if t.Some? && FindTails(bs[..n], s, t.value.pos).Some? {
      var qs := FindTails(bs[..n], s, t.value.pos).value + [t.value.idx];
      assert |qs| == n + 1 && qs[..n] == FindTails(bs[..n], s, t.value.pos).value && qs[n] == t.value.idx;
    }
  }

  lemma FitsInit(bs: seq<Block>, ps: seq<nat>)
    requires AllValid(bs) && Decimals(bs) && At(bs, ps) && bs != []
    ensures var n := |bs| - 1;
      AllValid(bs[..n]) && Decimals(bs[..n]) && At(bs[..n], ps[..n])
  {}

  /** Matching an item block by block gives its own positions exactly when all blocks stand. */
  lemma {:induction false} FindsOwnPositions(bs: seq<Block>, ps: seq<nat>, rest: string)
    requires AllValid(bs) && Decimals(bs) && At(bs, ps)
    ensures FindTails(bs, Text(bs, ps) + rest, |Text(bs, ps)|) == Some(ps) <==> AllStand(bs, ps, rest)
    decreases |bs|
  {
    hide FindTail, LastStands, FindTails, Text, AllValid, Decimals, Block.Text;
    if bs == [] {
      FindsNothing(rest);
    } else {
      var n := |bs| - 1;
      FitsInit(bs, ps);
      TextOfLast(bs, ps, rest);
      LastIsFound(bs, ps, rest);
      FindsOwnPositions(bs[..n], ps[..n], bs[n].Text(ps[n]) + rest);
      FindTailsStep(bs, Text(bs, ps) + rest, |Text(bs, ps)|, ps);
    }
  }

  lemma FindsNothing(rest: string)
    ensures FindTails([], Text([], []) + rest, |Text([], [])|) == Some([])
  {}

  /** `find` inverts `item` at a combination exactly when every block of it stands. */
  lemma FindTheorem(bs: seq<Block>, ps: seq<nat>, beyond: string)
    requires AllValid(bs) && Decimals(bs) && At(bs, ps)
    ensures Find(bs, Text(bs, ps), beyond) == Some(Position(bs, ps)) <==> AllStand(bs, ps, beyond)
  {
    hide FindTails, Position, AllStand;
    FindsOwnPositions(bs, ps, beyond);
    var qs := FindTails(bs, Text(bs, ps) + beyond, |Text(bs, ps)|);
    if qs.Some? && Position(bs, qs.value) == Position(bs, ps) {
      PositionIsUnique(bs, ps, qs.value);
    }
  }

  /** Points show; numbers are decimal, non-negative and set off by points that neither
      end nor begin in a digit, nor begin with the letter of a hexadecimal prefix. */
  predicate WellSpaced(bs: seq<Block>) {
    forall i :: 0 <= i < |bs| ==> Spaced(bs, i)
  }

  predicate Spaced(bs: seq<Block>, i: nat)
    requires i < |bs|
  {
    if bs[i].Point? then bs[i].text != ""
    else
      && bs[i].base == 10 && bs[i].start >= 0
      && (i > 0 ==> bs[i - 1].Point? && !EndsInDigit(bs[i - 1].text))
      && (i + 1 < |bs| ==> bs[i + 1].Point? && Harmless(bs[i + 1].text))
  }

  predicate Harmless(s: string) {
    s != "" ==> !IsDigit(s[0], 10) && s[0] != 'x' && s[0] != 'X'
  }

  lemma HarmlessStands(v: int, f: string)
    requires 0 <= v <= INT_MAX && Harmless(f)
    ensures Stands(v, f)
  {
    if v == 0 {
      SpanIs(f, 0, c => IsDigit(c, 8));
    }
  }

  lemma HarmlessText(t: string, rest: string)
    requires t != "" && Harmless(t)
    ensures Harmless(t + rest)
  {}

  lemma WellSpacedInit(bs: seq<Block>)
    requires WellSpaced(bs) && bs != []
    ensures WellSpaced(bs[..|bs| - 1])
  {
    hide Harmless, EndsInDigit;
    var n := |bs| - 1;
    forall i | 0 <= i < n ensures Spaced(bs[..n], i) {
      assert Spaced(bs, i);
    }
  }

  lemma EndOfText(bs: seq<Block>, ps: seq<nat>)
    requires |ps| == |bs| > 0 && bs[|bs| - 1].Point? && !EndsInDigit(bs[|bs| - 1].text)
    requires bs[|bs| - 1].text != ""
    ensures !EndsInDigit(Text(bs, ps))
  {
    TextOfLast(bs, ps, "");
  }

  lemma WellSpacedLast(bs: seq<Block>, ps: seq<nat>, rest: string)
    requires AllValid(bs) && At(bs, ps) && WellSpaced(bs) && bs != []
    requires bs[|bs| - 1].Interval? ==> Harmless(rest)
    ensures LastStands(bs, ps, rest)
  {
    hide Stands, EndsInDigit, Harmless, Text, AllValid, At;
    var n := |bs| - 1;
    assert Spaced(bs, n);
    if bs[n].Interval? {
      LastFits(bs, ps);
      HarmlessStands(bs[n].start + ps[n], rest);
      if n > 0 {
        assert Spaced(bs, n - 1);
        EndOfText(bs[..n], ps[..n]);
      } else {
        assert !EndsInDigit("") by { NoEnd(); }
        assert Text(bs[..n], ps[..n]) == "" by { NoText(bs[..n], ps[..n]); }
      }
    }
  }

  lemma LastFits(bs: seq<Block>, ps: seq<nat>)
    requires AllValid(bs) && At(bs, ps) && bs != []
    ensures |ps| == |bs| && bs[|bs| - 1].Valid() && ps[|bs| - 1] < bs[|bs| - 1].Count()
  {}

  lemma NoEnd()
    ensures !EndsInDigit("")
  {}

  lemma NoText(bs: seq<Block>, ps: seq<nat>)
    requires bs == [] && |ps| == |bs|
    ensures Text(bs, ps) == ""
  {}

  lemma {:induction false} WellSpacedStands(bs: seq<Block>, ps: seq<nat>, rest: string)
    requires AllValid(bs) && At(bs, ps) && WellSpaced(bs)
    requires bs != [] && bs[|bs| - 1].Interval? ==> Harmless(rest)
    ensures AllStand(bs, ps, rest)
    decreases |bs|
  {
    hide LastStands, Harmless, WellSpaced, EndsInDigit, Text;
    if bs != [] {
      var n := |bs| - 1;
      WellSpacedInit(bs);
      WellSpacedLast(bs, ps, rest);
      if n > 0 && bs[n - 1].Interval? {
        ShownAfterNumber(bs);
        HarmlessText(bs[n].text, rest);
      }
      WellSpacedStands(bs[..n], ps[..n], bs[n].Text(ps[n]) + rest);
    }
  }

  lemma ShownAfterNumber(bs: seq<Block>)
    requires WellSpaced(bs) && |bs| >= 2 && bs[|bs| - 2].Interval?
    ensures bs[|bs| - 1].Point? && bs[|bs| - 1].text != "" && Harmless(bs[|bs| - 1].text)
  {
    hide Harmless, EndsInDigit;
    assert Spaced(bs, |bs| - 2) && Spaced(bs, |bs| - 1);
  }

  /** In a well-spaced range every item is found at its own index, unless it ends in a
      number that memory goes on. */
  lemma WellSpacedIsFound(bs: seq<Block>, ps: seq<nat>, beyond: string)
    requires AllValid(bs) && At(bs, ps) && WellSpaced(bs)
    requires bs != [] && bs[|bs| - 1].Interval? ==> Harmless(beyond)
    ensures Find(bs, Text(bs, ps), beyond) == Some(Position(bs, ps))
  {
    hide Find, Position, AllStand, Text, Harmless, EndsInDigit;
    WellSpacedStands(bs, ps, beyond);
    WellSpacedIsDecimal(bs);
    FindTheorem(bs, ps, beyond);
  }

  lemma WellSpacedIsDecimal(bs: seq<Block>)
    requires WellSpaced(bs)
    ensures Decimals(bs)
  {
    hide Harmless, EndsInDigit;
    forall i | 0 <= i < |bs| && bs[i].Interval? ensures bs[i].base == 10 {
      assert Spaced(bs, i);
    }
  }

  /** The letter clause is needed: item 0 of `[0]` followed by `x1f` is not found,
      because the number in it is read in base 16. */
  lemma HexLookalikeIsLost()
    ensures var bs, ps := [Interval(0, 1, 10, false), Point("x1f")], [0, 0];
      AllValid(bs) && At(bs, ps) && Text(bs, ps) == "0x1f" && Find(bs, "0x1f", "") != Some(Position(bs, ps))
  {
    hide FindTails;
    var bs: seq<Block>, ps: seq<nat> := [Interval(0, 1, 10, false), Point("x1f")], [0, 0];
    FindTheorem(bs, ps, "");
    var f := "x1f";
    assert HexPrefixed("0" + f);
    DigitRunIs("1f", 2, 16);
    assert f[1..] == "1f" && f[1..][..2] == "1f";
    assert "1f"[0] != '0';
    assert !Stands(0, f);
    assert bs[..1] == [bs[0]] && ps[..1] == [0];
    assert !LastStands(bs[..1], ps[..1], f);
    assert bs[1].Text(0) + "" == f;
  }

  /** So is the one about memory: item 1 of `[0-19]` with a 9 behind it in memory is found
      elsewhere or not at all. */
  lemma MemoryGoesOn()
    ensures var bs, ps := [Interval(0, 20, 10, false)], [1];
      AllValid(bs) && At(bs, ps) && Find(bs, Text(bs, ps), "9") != Some(Position(bs, ps))
  {
    hide FindTails, Position;
    var bs: seq<Block>, ps: seq<nat> := [Interval(0, 20, 10, false)], [1];
    FindTheorem(bs, ps, "9");
    assert !Stands(1, "9");
    assert !LastStands(bs, ps, "9");
  }
}
