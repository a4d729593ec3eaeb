/** Which combination of positions carries a given index, what stepping to the next one
    does, and which items two merged ranges have. */
module StringRangeIndex {
  import opened CText
  import opened Wrappers
  import opened StringRangeSpec

  // ----- random access -----

  /** The position block `i` takes in the combination of index `d`. */
  function Digit(bs: seq<Block>, d: nat, i: nat): (p: nat)
    requires AllValid(bs) && i < |bs|
    ensures p < bs[i].Count()
  {
    (d / Combinations(bs[i + 1..])) % bs[i].Count()
  }

  function Digits(bs: seq<Block>, d: nat): (ps: seq<nat>)
    requires AllValid(bs)
    ensures At(bs, ps)
  {
    seq(|bs|, i requires 0 <= i < |bs| => Digit(bs, d, i))
  }

  /** The item of a given index. */
  function Item(bs: seq<Block>, d: nat): string
    requires AllValid(bs)
  {
    Text(bs, Digits(bs, d))
  }

  lemma ModStep(d: nat, right: nat, c: nat)
    requires right > 0 && c > 0
    ensures right * c > 0
    ensures d % (right * c) == (d / right % c) * right + d % right
  {
    var q := d / right;
    Positive(right, c);
    Rearranged(d, right, q, c, d % right, q / c, q % c);
    DivisionIsUnique(d, right * c, q / c, (q % c) * right + d % right);
  }

  lemma Rearranged(d: nat, right: nat, q: nat, c: nat, r: nat, h: nat, p: nat)
    requires d == right * q + r && q == c * h + p && r < right && p < c
    ensures d == (right * c) * h + (p * right + r)
    ensures p * right + r < right * c
  {
    MulThree(right, c, h);
    assert right * (c * h + p) == right * (c * h) + right * p;
    DigitFits(p, c, r, right);
  }

  lemma DivisionIsUnique(d: nat, m: nat, q: nat, r: nat)
    requires m > 0 && d == m * q + r && r < m
    ensures d % m == r && d / m == q
  {
    SameDigit(d / m, d % m, q, r, m);
  }

  /** The digits from `i` on carry what is left of the index after division by their count. */
  lemma {:induction false} DigitsCarryRemainder(bs: seq<Block>, d: nat, i: nat)
    requires AllValid(bs) && i <= |bs|
    ensures Position(bs[i..], Digits(bs, d)[i..]) == d % Combinations(bs[i..])
    decreases |bs| - i
  {
    hide Combinations, Digit;
    if i == |bs| {
      NoBlocks(bs[i..], Digits(bs, d)[i..]);
    } else {
      DigitsCarryRemainder(bs, d, i + 1);
      var ps := Digits(bs, d);
      assert bs[i..][1..] == bs[i + 1..] && ps[i..][1..] == ps[i + 1..];
      CombinationsStep(bs, i);
      var right, c := Combinations(bs[i + 1..]), bs[i].Count();
      DigitIs(bs, d, i);
      ModStep(d, right, c);
    }
  }

  lemma NoBlocks(bs: seq<Block>, ps: seq<nat>)
    requires bs == [] && ps == []
    ensures AllValid(bs) && Combinations(bs) == 1 && Position(bs, ps) == 0
  {}

  lemma CombinationsStep(bs: seq<Block>, i: nat)
    requires AllValid(bs) && i < |bs|
    ensures Combinations(bs[i..]) == Combinations(bs[i + 1..]) * bs[i].Count()
  {
    assert bs[i..][1..] == bs[i + 1..];
  }

  lemma DigitIs(bs: seq<Block>, d: nat, i: nat)
    requires AllValid(bs) && i < |bs|
    ensures Digits(bs, d)[i] == (d / Combinations(bs[i + 1..])) % bs[i].Count()
  {}

  /** Positions and indexes correspond one to one. */
  lemma DigitsOfPosition(bs: seq<Block>, d: nat)
    requires AllValid(bs) && d < Combinations(bs)
    ensures Position(bs, Digits(bs, d)) == d
  {
    hide Combinations, Position, Digits;
    DigitsCarryRemainder(bs, d, 0);
    assert bs[0..] == bs && Digits(bs, d)[0..] == Digits(bs, d);
  }

  lemma PositionHasDigits(bs: seq<Block>, ps: seq<nat>)
    requires AllValid(bs) && At(bs, ps)
    ensures ps == Digits(bs, Position(bs, ps))
  {
    hide Combinations, Position, Digits;
    PositionInRange(bs, ps);
    DigitsOfPosition(bs, Position(bs, ps));
    PositionIsUnique(bs, ps, Digits(bs, Position(bs, ps)));
  }

  /** `find(item(d)) == d` exactly when every block of the item stands, whatever lies behind
      the item in memory. */
  lemma FindInvertsItem(bs: seq<Block>, d: nat, beyond: string)
    requires AllValid(bs) && Decimals(bs) && d < Combinations(bs)
    ensures Find(bs, Item(bs, d), beyond) == Some(d) <==> AllStand(bs, Digits(bs, d), beyond)
  {
    hide Combinations, Position, Digits, Find, AllStand, Text;
    DigitsOfPosition(bs, d);
    FindTheorem(bs, Digits(bs, d), beyond);
  }

  lemma WellSpacedFindInvertsItem(bs: seq<Block>, d: nat, beyond: string)
    requires AllValid(bs) && WellSpaced(bs) && d < Combinations(bs)
    requires bs != [] && bs[|bs| - 1].Interval? ==> Harmless(beyond)
    ensures Find(bs, Item(bs, d), beyond) == Some(d)
  {
    hide Combinations, Position, Digits, Find, Text, WellSpaced;
    DigitsOfPosition(bs, d);
    WellSpacedIsFound(bs, Digits(bs, d), beyond);
  }

  /** Once the index is used up, every digit further left is zero. */
  lemma HighDigitsAreZero(bs: seq<Block>, d: nat, i: nat)
    requires AllValid(bs) && i < |bs| && d < Combinations(bs[i + 1..])
    ensures Digit(bs, d, i) == 0
    ensures d < Combinations(bs[i..])
  {
    hide Combinations;
    var right, c := Combinations(bs[i + 1..]), bs[i].Count();
    CombinationsStep(bs, i);
    TooSmallToShow(d, right, c);
  }

  lemma TooSmallToShow(d: nat, right: nat, c: nat)
    requires d < right && c > 0
    ensures (d / right) % c == 0 && d < c * right
  {
    MulGrows(c, right);
    DivisionIsUnique(d, right, 0, d);
    ZeroMod(d / right, c);
  }

  lemma ZeroMod(z: nat, c: nat)
    requires z == 0 && c > 0
    ensures z % c == 0
  {}

  lemma {:induction false} ZerosArePositionZero(bs: seq<Block>, ps: seq<nat>)
    requires AllValid(bs) && |ps| == |bs|
    ensures (forall i :: 0 <= i < |ps| ==> ps[i] == 0) ==> Position(bs, ps) == 0
  {
    if bs != [] {
      ZerosArePositionZero(bs[1..], ps[1..]);
    }
  }

  // ----- one step -----

  lemma {:induction false} CombinationsSnoc(bs: seq<Block>, b: Block)
    requires AllValid(bs) && b.Valid()
    ensures AllValid(bs + [b]) && Combinations(bs + [b]) == Combinations(bs) * b.Count()
  {
    var cs := bs + [b];
    if bs == [] {
      assert cs[1..] == [];
    } else {
      assert cs[1..] == bs[1..] + [b];
      CombinationsSnoc(bs[1..], b);
      MulThree(bs[0].Count(), Combinations(bs[1..]), b.Count());
    }
  }

  lemma MulThree(a: int, b: int, c: int)
    ensures a * (b * c) == (a * b) * c
  {}

  lemma {:induction false} PositionSnoc(bs: seq<Block>, ps: seq<nat>, b: Block, p: nat)
    requires AllValid(bs) && b.Valid() && |ps| == |bs|
    ensures AllValid(bs + [b]) && Position(bs + [b], ps + [p]) == Position(bs, ps) * b.Count() + p
    decreases |bs|
  {
    hide Combinations;
    var cs, qs := bs + [b], ps + [p];
    if bs == [] {
      assert cs[1..] == [] && qs[1..] == [];
      NoBlocks([], []);
    } else {
      assert cs[1..] == bs[1..] + [b] && qs[1..] == ps[1..] + [p];
      PositionSnoc(bs[1..], ps[1..], b, p);
      CombinationsSnoc(bs[1..], b);
      Spread(ps[0], Combinations(bs[1..]), Position(bs[1..], ps[1..]), b.Count());
    }
  }

  lemma Spread(p: int, c: int, r: int, k: int)
    ensures p * (c * k) + r * k == (p * c + r) * k
  {}

  /** Turning the last wheel by one, or sending it back to zero and the others on by one. */
  lemma StepOn(bs: seq<Block>, ps: seq<nat>, b: Block, p: nat)
    requires AllValid(bs) && b.Valid() && At(bs, ps) && p < b.Count()
    ensures AllValid(bs + [b])
    ensures var pos, n := Position(bs + [b], ps + [p]), Combinations(bs + [b]);
      && pos < n
      && (p + 1 < b.Count() ==> pos + 1 < n && Position(bs + [b], ps + [p + 1]) == pos + 1)
      && (p + 1 == b.Count() ==> (pos + 1 < n <==> Position(bs, ps) + 1 < Combinations(bs)))
  {
    hide Combinations, Position;
    PositionSnoc(bs, ps, b, p);
    PositionSnoc(bs, ps, b, p + 1);
    CombinationsSnoc(bs, b);
    PositionInRange(bs, ps);
    var q, c, k := Position(bs, ps), Combinations(bs), b.Count();
    DigitFits(q, c, p, k);
    Carry(q, c, p, k);
  }

  lemma Carry(q: nat, c: nat, p: nat, k: nat)
    requires q < c && p < k
    ensures p + 1 < k ==> q * k + p + 1 < c * k
    ensures p + 1 == k ==> (q * k + p + 1 < c * k <==> q + 1 < c)
    ensures p + 1 == k ==> q * k + p + 1 == (q + 1) * k
  {
    assert (q + 1) * k == q * k + k;
    assert c * k - (q + 1) * k == (c - (q + 1)) * k;
    if q + 1 < c {
      MulGrows(c - (q + 1), k);
    }
  }
}
