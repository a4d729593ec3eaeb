/** What the digits of a numeral mean, fixed by two alphabets: every reader and printer of
    integers in the model agrees with it. */
module Numerals {
  import opened CInts
  import opened CText
  import opened Decimal
  import opened Wrappers

  const LOWER := "0123456789abcdef"
  const UPPER := "0123456789ABCDEF"

  /** The character is the digit `d`, in either case. */
  predicate IsSign(c: char, d: nat)
    requires d < 16
  {
    c == LOWER[d] || c == UPPER[d]
  }

  /** The text is a numeral for `n`, most significant digit first, leading zeros allowed. */
  predicate Spells(s: string, n: nat, base: nat)
    requires 2 <= base <= 16
  {
    if s == "" then n == 0
    else IsSign(s[|s| - 1], n % base) && Spells(s[..|s| - 1], n / base, base)
  }

  /** No digit of the base goes on where the text begins. */
  predicate StopsDigits(s: string, base: nat)
    requires base <= 16
  {
    s == "" || forall d :: 0 <= d < base ==> !IsSign(s[0], d)
  }

  lemma SignsAreDigits(c: char, d: nat)
    requires d < 16
    ensures IsSign(c, d) <==> DigitOf(c) == d
  {
    assert forall i :: 0 <= i < 10 ==> LOWER[i] == UPPER[i] == '0' + i as char;
    assert forall i :: 10 <= i < 16 ==> LOWER[i] == 'a' + (i - 10) as char && UPPER[i] == 'A' + (i - 10) as char;
  }

  lemma DigitsAreSigns(base: nat)
    requires base <= 16
    ensures forall c :: IsDigit(c, base) <==> exists d :: 0 <= d < base && IsSign(c, d)
  {
    forall c ensures IsDigit(c, base) <==> exists d :: 0 <= d < base && IsSign(c, d) {
      if IsDigit(c, base) {
        SignsAreDigits(c, DigitOf(c));
      }
      forall d | 0 <= d < base && IsSign(c, d) ensures IsDigit(c, base) {
        SignsAreDigits(c, d);
      }
    }
  }

  lemma {:induction false} SpelledHasValue(s: string, n: nat, base: nat)
    requires 2 <= base <= 16 && Spells(s, n, base)
    ensures AllDigits(s, base) && Value(s, base) == n
  {
    hide IsSign, IsDigit, Value, AllDigits;
    if s != "" {
      var init, c := s[..|s| - 1], s[|s| - 1];
      SpelledHasValue(init, n / base, base);
      SignsAreDigits(c, n % base);
      LastDigit(s, base);
      assert Value(init, base) == n / base;
      Recombines(n, base, Value(init, base), DigitOf(c));
    } else {
      NoDigits(base);
    }
  }

  lemma NoDigits(base: nat)
    ensures AllDigits("", base) && Value("", base) == 0
  {}

  lemma Recombines(n: nat, base: nat, q: nat, r: nat)
    requires base > 0 && q == n / base && r == n % base
    ensures q * base + r == n
  {}

  lemma LastDigit(s: string, base: nat)
    requires s != "" && AllDigits(s[..|s| - 1], base) && IsDigit(s[|s| - 1], base)
    ensures AllDigits(s, base) && Value(s, base) == Value(s[..|s| - 1], base) * base + DigitOf(s[|s| - 1])
  {
    forall i | 0 <= i < |s| ensures IsDigit(s[i], base) {
      assert i < |s| - 1 ==> s[i] == s[..|s| - 1][i];
    }
  }

  lemma {:induction false} ValueIsSpelled(s: string, base: nat)
    requires 2 <= base <= 16 && AllDigits(s, base)
    ensures Spells(s, Value(s, base), base)
  {
    hide IsSign;
    if s != "" {
      var init, c := s[..|s| - 1], s[|s| - 1];
      ValueIsSpelled(init, base);
      SignsAreDigits(c, DigitOf(c));
      DivMod(Value(init, base), DigitOf(c), base);
    }
  }

  /** Evaluating digits from the left and spelling agree. */
  lemma ValueTheorem(s: string, n: nat, base: nat)
    requires 2 <= base <= 16
    ensures Spells(s, n, base) <==> AllDigits(s, base) && Value(s, base) == n
  {
    if Spells(s, n, base) {
      SpelledHasValue(s, n, base);
    } else if AllDigits(s, base) {
      ValueIsSpelled(s, base);
    }
  }

  lemma DivMod(q: nat, r: nat, base: nat)
    requires r < base
    ensures (q * base + r) / base == q && (q * base + r) % base == r
  {
    var n := q * base + r;
    Multiples(n / base - q, base, r - n % base);
  }

  lemma Multiples(k: int, base: int, rest: int)
    requires k * base == rest && 0 - base < rest < base
    ensures k == 0
  {}

  // ----- reading -----

  /** A lone zero in front of an x may be the prefix of base 16. */
  predicate MayPrefix(s: string, rest: string) {
    s == "0" && rest != "" && (rest[0] == 'x' || rest[0] == 'X')
  }

  /** A number as `isInt` answers it. */
  function Narrowed(sign: string, n: nat): Option<int> {
    var v := if sign == "-" then 0 - n else n;
    if INT_MIN <= v <= INT_MAX then Some(v) else None
  }

  predicate Blank(s: string) {
    forall i :: 0 <= i < |s| ==> IsSpace(s[i])
  }

  /** What may stand in front of a numeral. */
  predicate Lead(blanks: string, sign: string) {
    Blank(blanks) && (sign == "" || sign == "+" || sign == "-")
  }

  lemma SkipsLead(blanks: string, sign: string, u: string, base: nat)
    requires Lead(blanks, sign)
    requires u == "" || (!IsSpace(u[0]) && u[0] != '+' && u[0] != '-')
    ensures StrToInt(blanks + (sign + u), base) ==
      (if sign == "-" && Unsigned(u, base).Some? then Some(0 - Unsigned(u, base).value) else Unsigned(u, base))
  {
    hide Unsigned, IsSpace;
    var t := sign + u;
    NoSpaces();
    SpanIs(blanks + t, |blanks|, c => IsSpace(c));
    assert (blanks + t)[|blanks|..] == t;
    assert sign != "" ==> t[1..] == u && t[0] == sign[0];
    assert sign == "" ==> t == u;
  }

  /** White space is space, tab, line feed, vertical tab, form feed and carriage return. */
  lemma SixBlanks(c: char)
    ensures IsSpace(c) <==> c in " \t\n\r" || c as int == 11 || c as int == 12
  {}

  lemma NoSpaces()
    ensures !IsSpace('+') && !IsSpace('-')
    ensures forall c :: IsDigit(c, 16) ==> !IsSpace(c) && c != '+' && c != '-'
  {}

  lemma StopsRun(s: string, n: nat, rest: string, base: nat)
    requires 2 <= base <= 16 && Spells(s, n, base) && StopsDigits(rest, base)
    ensures DigitRun(s + rest, base) == |s| && AllDigits(s, base) && Value(s, base) == n
    ensures (s + rest)[..|s|] == s
  {
    hide IsSign, Value, DigitRun, IsDigit;
    SpelledHasValue(s, n, base);
    if rest != "" {
      StopsDigit(rest, base);
    }
    DigitRunIs(s + rest, |s|, base);
  }

  lemma StopsDigit(rest: string, base: nat)
    requires base <= 16 && StopsDigits(rest, base) && rest != ""
    ensures !IsDigit(rest[0], base)
  {
    hide IsSign;
    if IsDigit(rest[0], base) {
      SignsAreDigits(rest[0], DigitOf(rest[0]));
    }
  }

  lemma UnsignedReads(s: string, n: nat, rest: string, base: nat, b: nat)
    requires 2 <= b <= 16 && Spells(s, n, b) && StopsDigits(rest, b) && !MayPrefix(s, rest)
    requires base == b || (base == 0 && s != "" && b == if s[0] == '0' then 8 else 10)
    ensures Unsigned(s + rest, base) == if s == "" then None else Some(n)
  {
    hide Spells, StopsDigits, DigitRun, Value;
    StopsRun(s, n, rest, b);
    if rest != "" {
      StopsDigit(rest, b);
    }
    NoPrefix(s, rest, b);
  }

  lemma NoPrefix(s: string, rest: string, base: nat)
    requires AllDigits(s, base) && base <= 16 && !MayPrefix(s, rest)
    requires s == "" ==> rest == "" || !IsDigit(rest[0], base)
    ensures base > 0 ==> !HexPrefixed(s + rest)
  {
    if |s| >= 2 {
      assert IsDigit(s[1], base) && (s + rest)[1] == s[1];
    }
  }

  /** A numeral behind blanks and a sign is read as its number, up to the first character
      that is no digit; without a numeral nothing is read. */
  lemma ReadsNumeral(blanks: string, sign: string, s: string, n: nat, rest: string, base: nat)
    requires 2 <= base <= 16 && Lead(blanks, sign) && Spells(s, n, base)
    requires StopsDigits(rest, base) && !MayPrefix(s, rest)
    requires s == "" && rest != "" ==> !IsSpace(rest[0]) && rest[0] != '+' && rest[0] != '-'
    ensures IsInt(blanks + (sign + (s + rest)), base) == if s == "" then None else Narrowed(sign, n)
  {
    hide Spells, StopsDigits, Unsigned, StrToInt;
    UnsignedReads(s, n, rest, base, base);
    StartsPlain(s, n, rest, base);
    SkipsLead(blanks, sign, s + rest, base);
  }

  lemma StartsPlain(s: string, n: nat, rest: string, base: nat)
    requires 2 <= base <= 16 && Spells(s, n, base)
    requires s == "" && rest != "" ==> !IsSpace(rest[0]) && rest[0] != '+' && rest[0] != '-'
    ensures var u := s + rest;
      u != "" ==> !IsSpace(u[0]) && u[0] != '+' && u[0] != '-'
  {
    hide Spells;
    SpelledHasValue(s, n, base);
    NoSpaces();
  }

  /** With base 0 the numeral itself says which: a leading zero is octal, else decimal. */
  lemma ReadsByLook(blanks: string, sign: string, s: string, n: nat, rest: string)
    requires Lead(blanks, sign) && s != ""
    requires var b := if s[0] == '0' then 8 else 10;
      Spells(s, n, b) && StopsDigits(rest, b)
    requires !MayPrefix(s, rest)
    ensures IsInt(blanks + (sign + (s + rest)), 0) == Narrowed(sign, n)
  {
    hide Spells, StopsDigits, Unsigned, StrToInt;
    var b := if s[0] == '0' then 8 else 10;
    UnsignedReads(s, n, rest, 0, b);
    StartsPlain(s, n, rest, b);
    SkipsLead(blanks, sign, s + rest, 0);
  }

  /** The prefix of base 16 is skipped where base 16 is asked for or left open. */
  lemma ReadsPrefixed(blanks: string, sign: string, prefix: string, s: string, n: nat, rest: string, base: nat)
    requires base == 0 || base == 16
    requires Lead(blanks, sign) && (prefix == "0x" || prefix == "0X")
    requires s != "" && Spells(s, n, 16) && StopsDigits(rest, 16)
    ensures IsInt(blanks + (sign + (prefix + (s + rest))), base) == Narrowed(sign, n)
  {
    hide Spells, StopsDigits, Unsigned, StrToInt;
    var u := prefix + (s + rest);
    StopsRun(s, n, rest, 16);
    assert IsDigit(u[2], 16);
    assert u[2..] == s + rest;
    PrefixedReads(u, s, n, base);
    SkipsLead(blanks, sign, u, base);
  }

  lemma PrefixedReads(u: string, s: string, n: nat, base: nat)
    requires base == 0 || base == 16
    requires HexPrefixed(u) && DigitRun(u[2..], 16) == |s| > 0 && u[2..][..|s|] == s
    requires AllDigits(s, 16) && Value(s, 16) == n
    ensures Unsigned(u, base) == Some(n)
  {
    hide DigitRun, Value;
  }

  /** Every hexadecimal digit, in either case, reads as its place in the alphabet. */
  lemma ReadsHexDigit(d: nat)
    requires d < 16
    ensures IsInt([LOWER[d]] + "\r\n", 16) == IsInt([UPPER[d]] + "\r\n", 16) == Some(d)
  {
    hide IsInt, IsSign;
    StopsAtBlank("\r\n", 16);
    forall c | c == LOWER[d] || c == UPPER[d] ensures IsInt([c] + "\r\n", 16) == Some(d) {
      OneSign(c, d);
      ReadsNumeral("", "", [c], d, "\r\n", 16);
      assert "" + ("" + ([c] + "\r\n")) == [c] + "\r\n";
    }
  }

  lemma OneSign(c: char, d: nat)
    requires d < 16 && (c == LOWER[d] || c == UPPER[d])
    ensures Spells([c], d, 16)
  {
    assert [c][..0] == "";
  }

  lemma StopsAtBlank(rest: string, base: nat)
    requires base <= 16 && rest != "" && (rest[0] == '\r' || rest[0] == ';' || rest[0] == ' ' || rest[0] == '.')
    ensures StopsDigits(rest, base)
  {
    hide IsSign;
    forall d | 0 <= d < base ensures !IsSign(rest[0], d) {
      SignsAreDigits(rest[0], d);
    }
  }

  // ----- printing -----

  /** Printing gives the decimal numeral without leading zeros. */
  lemma PrintSpells(n: nat)
    ensures Spells(PrintNat(n), n, 10)
    ensures |PrintNat(n)| > 1 ==> PrintNat(n)[0] != '0'
  {
    hide Spells;
    ValueOfPrint(n);
    ValueIsSpelled(PrintNat(n), 10);
  }

  /** ... and there is no other. */
  lemma OnlyPrint(s: string, n: nat)
    requires Spells(s, n, 10) && s != "" && (|s| > 1 ==> s[0] != '0')
    ensures s == PrintNat(n)
  {
    hide Spells;
    SpelledHasValue(s, n, 10);
    if s[0] == '0' {
      assert s == "0";
    }
    PrintOfValue(s);
  }
}
