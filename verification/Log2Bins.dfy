/** The arithmetic of the log2 histogram: values to bins and back, and the size and
    use-count groups of the time histograms. */
module Log2Bins {
  import opened CInts

  function Pow2(n: nat): (p: nat)
    ensures p > 0
  {
    if n == 0 then 1 else 2 * Pow2(n - 1)
  }

  /** A bin per value below 512; from there on 256 bins for every doubling. */
  function BinOf(v: nat): (b: nat) {
    if v < 512 then v else 256 + BinOf(v / 2)
  }

  /** The smallest value of a bin. */
  function ValOf(b: nat): (v: nat)
    ensures b >= 256 ==> v >= 256
  {
    if b < 512 then b else 2 * ValOf(b - 256)
  }

  /** The loop: shift until nothing is left, counting; then place the value in its super-bin. */
  method Val2Bin(val: nat) returns (bin: nat)
    requires val <= INT_MAX
    ensures bin == BinOf(val)
  {
    var v := val / 512;
    if v == 0 {
      return val;
    }
    var p := 1;
    ghost var q := val / 2;
    assert Pow2(1) == 2;
    while v / 2 > 0
      invariant p >= 1 && v >= 1
      invariant v == q / 256 && 256 <= q
      invariant BinOf(val) == 256 * p + BinOf(q)
      invariant q * Pow2(p) <= val < (q + 1) * Pow2(p)
      decreases v
    {
      Halved(val, q, Pow2(p));
      v := v / 2;
      p := p + 1;
      q := q / 2;
    }
    assert 256 <= q < 512;
    SuperBin(val, q, p);
    var minVal := Pow2(8 + p);
    var offset := (val - minVal) / Pow2(p);
    bin := (p + 1) * 256 + offset;
  }

  /** The shifts of the value's super-bin: no intermediate result leaves 32 bits. */
  lemma SuperBin(val: nat, q: nat, p: nat)
    requires 256 <= q < 512 && p >= 1 && val <= INT_MAX
    requires q * Pow2(p) <= val < (q + 1) * Pow2(p)
    ensures Pow2(8 + p) == 256 * Pow2(p) <= val <= INT_MAX
    ensures (val - Pow2(8 + p)) / Pow2(p) == q - 256
  {
    Pow2Of8(p);
    hide Pow2;
    var w := Pow2(p);
    assert (q - 256) * w == q * w - 256 * w && (q - 256 + 1) * w == (q + 1) * w - 256 * w;
    assert 0 <= (q - 256) * w;
    DivideExactly(val - 256 * w, q - 256, w);
  }

  lemma Pow2Of8(p: nat)
    ensures Pow2(8 + p) == 256 * Pow2(p)
  {
    Pow2Adds(8, p);
    assert Pow2(4) == 16;
    Pow2Adds(4, 4);
  }

  lemma {:induction false} Pow2Adds(a: nat, b: nat)
    ensures Pow2(a + b) == Pow2(a) * Pow2(b)
  {
    if a > 0 {
      Pow2Adds(a - 1, b);
    }
  }

  lemma DivideExactly(x: int, q: int, w: int)
    requires w > 0 && q * w <= x < (q + 1) * w
    ensures x / w == q
  {
    var d := x / w;
    assert x == d * w + x % w;
    if d < q {
      MulOrder(d + 1, q, w);
      assert false;
    }
    if d > q {
      MulOrder(q + 1, d, w);
      assert false;
    }
  }

  lemma MulOrder(a: int, b: int, w: int)
    requires a <= b && w >= 0
    ensures a * w <= b * w
  {}

  /** Halving the quotient doubles the divisor. */
  lemma Halved(x: nat, y: nat, w: nat)
    requires y * w <= x < (y + 1) * w
    ensures y / 2 * (2 * w) <= x < (y / 2 + 1) * (2 * w)
  {
    var h := y / 2;
    assert h * (2 * w) == 2 * h * w && (h + 1) * (2 * w) == (2 * h + 2) * w;
    if y == 2 * h {
      assert (y + 1) * w <= (2 * h + 2) * w;
    } else {
      assert y == 2 * h + 1;
      assert 2 * h * w <= y * w;
    }
  }

  /** The shift expression of the source. */
  function Bin2Val(bin: nat): nat {
    if bin >= 512 then
      var offset := bin % 256;
      var p := (bin - offset) / 256 - 1;
      Pow2(8 + p) + offset * Pow2(p)
    else bin
  }

  lemma SuperBinForm(bin: nat)
    requires bin >= 256
    ensures Bin2Val(bin) == (256 + bin % 256) * Pow2(bin / 256 - 1)
  {
    var offset, p := bin % 256, bin / 256 - 1;
    Pow2Of8(p);
    if bin < 512 {
      assert p == 0;
    }
  }

  lemma {:induction false} Bin2ValIsValOf(bin: nat)
    ensures Bin2Val(bin) == ValOf(bin)
  {
    if bin >= 512 {
      hide Bin2Val;
      var b := bin - 256;
      Bin2ValIsValOf(b);
      SuperBinForm(b);
      SuperBinForm(bin);
      OneSuperBinDown(bin);
      Doubled(256 + b % 256, Pow2(b / 256 - 1));
    }
  }

  lemma OneSuperBinDown(bin: nat)
    requires bin >= 512
    ensures (bin - 256) % 256 == bin % 256 && (bin - 256) / 256 == bin / 256 - 1
    ensures Pow2(bin / 256 - 1) == 2 * Pow2((bin - 256) / 256 - 1)
  {}

  lemma Doubled(x: nat, p: nat)
    ensures x * (2 * p) == 2 * (x * p)
  {}

  /** A bin's width: 1 below 512, then doubling with every super-bin. */
  lemma {:induction false} Width(b: nat)
    ensures ValOf(b) < ValOf(b + 1)
    ensures b < 512 ==> ValOf(b + 1) == ValOf(b) + 1
    ensures b >= 512 ==> 256 * (ValOf(b + 1) - ValOf(b)) <= ValOf(b)
  {
    if b >= 512 {
      Width(b - 256);
    } else if b == 511 {
      assert ValOf(512) == 2 * ValOf(256);
    }
  }

  lemma {:induction false} ValOfIncreases(a: nat, b: nat)
    requires a < b
    ensures ValOf(a) < ValOf(b)
    decreases b - a
  {
    Width(a);
    if a + 1 < b {
      ValOfIncreases(a + 1, b);
    }
  }

  /** A value lies in its bin: bins tile the values without gap or overlap. */
  lemma {:induction false} InItsBin(v: nat)
    ensures ValOf(BinOf(v)) <= v < ValOf(BinOf(v) + 1)
  {
    if v >= 512 {
      InItsBin(v / 2);
      assert BinOf(v / 2) >= 256 by { BigBins(v / 2); }
      assert ValOf(BinOf(v)) == 2 * ValOf(BinOf(v / 2));
      assert ValOf(BinOf(v) + 1) == 2 * ValOf(BinOf(v / 2) + 1);
    } else {
      Width(v);
    }
  }

  lemma {:induction false} BigBins(v: nat)
    requires v >= 256
    ensures BinOf(v) >= 256
  {}

  /** A bin is found again from its smallest value: the two maps are a Galois pair. */
  lemma BinOfValOf(b: nat)
    ensures BinOf(ValOf(b)) == b
  {
    var v := ValOf(b);
    InItsBin(v);
    if BinOf(v) < b {
      if BinOf(v) + 1 < b { ValOfIncreases(BinOf(v) + 1, b); }
    } else if BinOf(v) > b {
      ValOfIncreases(b, BinOf(v));
    }
  }

  lemma BinOfIsMonotone(u: nat, v: nat)
    requires u <= v
    ensures BinOf(u) <= BinOf(v)
  {
    InItsBin(u);
    InItsBin(v);
    if BinOf(v) < BinOf(u) && BinOf(v) + 1 < BinOf(u) {
      ValOfIncreases(BinOf(v) + 1, BinOf(u));
    }
  }

  lemma {:induction false} AllOnes(n: nat)
    ensures BinOf(Pow2(9 + n) - 1) == 256 * n + 511
    ensures Pow2(9 + n) >= 512
  {
    if n == 0 {
      Pow2Of8(1);
    } else {
      AllOnes(n - 1);
      assert (Pow2(9 + n) - 1) / 2 == Pow2(8 + n) - 1;
    }
  }

  lemma LastBin()
    ensures BinOf(INT_MAX) == 6143
  {
    Pow2Of8(23);
    Pow2Of8(15);
    Pow2Of8(7);
    assert Pow2(7) == 128 by {
      Pow2Adds(4, 3);
    }
    AllOnes(22);
  }

  /** The whole promise for 32-bit values: `bin2Val` undoes `val2Bin` up to the bin's
      width, which is 1 below 512 and at most a 256th of the value from there on; every
      reachable bin is recovered, and no value leaves 32 bits. */
  lemma PrecisionTheorem(v: nat)
    requires v <= INT_MAX
    ensures var b := BinOf(v);
            && b <= 6143
            && Bin2Val(b) <= v <= INT_MAX
            && BinOf(Bin2Val(b)) == b
            && (b < 6143 ==> v < Bin2Val(b + 1) <= INT_MAX)
            && (v < 512 ==> Bin2Val(b + 1) - Bin2Val(b) == 1)
            && (v >= 512 ==> 256 * (Bin2Val(b + 1) - Bin2Val(b)) <= v)
  {
    hide BinOf, ValOf, Bin2Val;
    var b := BinOf(v);
    LastBin();
    BinOfIsMonotone(v, INT_MAX);
    Bin2ValIsValOf(b);
    Bin2ValIsValOf(b + 1);
    InItsBin(v);
    BinOfValOf(b);
    Width(b);
    InItsBin(INT_MAX);
    if b < 6143 && b + 1 < 6143 {
      ValOfIncreases(b + 1, 6143);
    }
    if v >= 512 {
      BigBins(v / 2);
    }
  }

  // ----- groups -----

  /** log2 by counting shifts. */
  method LogSmth(x: nat) returns (n: nat)
    requires x > 0
    ensures Pow2(n) <= x < Pow2(n + 1)
  {
    n := 0;
    var y := x;
    while y / 2 > 0
      invariant y >= 1
      invariant y * Pow2(n) <= x < (y + 1) * Pow2(n)
      decreases y
    {
      Halved(x, y, Pow2(n));
      y := y / 2;
      n := n + 1;
    }
  }

  /** Powers of two by shifting. */
  method ExpSmth(n: nat) returns (x: nat)
    ensures x == Pow2(n)
  {
    x := 1;
    for i := 0 to n
      invariant x == Pow2(i)
    {
      x := x * 2;
    }
  }

  /** The largest size of a size group. */
  function SizeGroupMax(grp: nat): int {
    if grp == 0 then 99 else if grp == 1 then 1023 else 1024 * Pow2(grp - 2 + 1) - 1
  }

  /** The size group of a size: the only one whose range holds it. */
  method SizeGroupId(sz: nat) returns (grp: nat)
    ensures sz <= SizeGroupMax(grp)
    ensures grp > 0 ==> SizeGroupMax(grp - 1) < sz
  {
    if sz < 100 {
      return 0;
    }
    if sz < 1024 {
      return 1;
    }
    var n := LogSmth(sz / 1024);
    assert Pow2(n) <= sz / 1024 < Pow2(n + 1);
    grp := 2 + n;
  }

  /** The largest use count of a use-count group. */
  function UseGroupMax(grp: nat): int {
    if grp < 4 then grp + 1 else 4 + Pow2(grp - 4 + 1) - 1
  }

  method UseGroupId(uses: nat) returns (grp: nat)
    requires uses > 0
    ensures uses <= UseGroupMax(grp)
    ensures grp > 0 ==> UseGroupMax(grp - 1) < uses
  {
    if uses <= 4 {
      return uses - 1;
    }
    var n := LogSmth(uses - 4);
    assert n == 0 ==> Pow2(n) == 1;
    grp := 4 + n;
  }

  /** Group ranges follow one another, so the group of a size (or use count) is unique. */
  lemma {:induction false} GroupMaxIncreases(a: nat, b: nat)
    requires a < b
    ensures SizeGroupMax(a) < SizeGroupMax(b) && UseGroupMax(a) < UseGroupMax(b)
    decreases b - a
  {
    assert Pow2(1) == 2 && Pow2(0) == 1;
    if a + 1 < b {
      GroupMaxIncreases(a + 1, b);
    }
  }
}
