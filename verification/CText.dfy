/** The C text routines the parsers lean on: the `isspace` and digit classes,
    `strtoll` as called with bases 0, 10 and 16, and `isInt`, which narrows its
    result to a 32-bit integer.  None of them is told where the caller's buffer
    ends: they stop at the first byte they cannot use. */
module CText {
  import opened CInts
  import opened Wrappers

  predicate IsSpace(c: char) {
    c == ' ' || '\t' <= c <= '\r'
  }

  /** The digit a character stands for; 36 when it stands for none. */
  function DigitOf(c: char): (d: nat)
    ensures '0' <= c <= '9' <==> d < 10
    ensures d <= 36
  {
    if '0' <= c <= '9' then (c - '0') as nat
    else if 'a' <= c <= 'z' then (c - 'a') as nat + 10
    else if 'A' <= c <= 'Z' then (c - 'A') as nat + 10
    else 36
  }

  predicate IsDigit(c: char, base: nat) {
    DigitOf(c) < base
  }

  predicate AllDigits(s: string, base: nat) {
    forall i :: 0 <= i < |s| ==> IsDigit(s[i], base)
  }

  /** The number written by a run of digits, most significant first. */
  function Value(s: string, base: nat): (v: nat)
    requires AllDigits(s, base)
  {
    if s == "" then 0 else Value(s[..|s| - 1], base) * base + DigitOf(s[|s| - 1])
  }

  /** Length of the longest prefix whose characters all satisfy `p`. */
  function Span(s: string, p: char -> bool): (n: nat)
    ensures n <= |s|
    ensures forall i :: 0 <= i < n ==> p(s[i])
    ensures n < |s| ==> !p(s[n])
  {
    if s == "" || !p(s[0]) then 0 else 1 + Span(s[1..], p)
  }

  function SpaceRun(s: string): nat { Span(s, c => IsSpace(c)) }

  function DigitRun(s: string, base: nat): nat { Span(s, c => IsDigit(c, base)) }

  predicate HexPrefixed(s: string) {
    |s| >= 3 && s[0] == '0' && (s[1] == 'x' || s[1] == 'X') && IsDigit(s[2], 16)
  }

  /** The base `strtoll` settles on for the unsigned text `s`. */
  function ChosenBase(s: string, base: nat): nat {
    if base != 0 then base
    else if HexPrefixed(s) then 16
    else if s != "" && s[0] == '0' then 8
    else 10
  }

  function Unsigned(s: string, base: nat): Option<int> {
    var b := ChosenBase(s, base);
    var body := if b == 16 && HexPrefixed(s) then s[2..] else s;
    var n := DigitRun(body, b);
    if n == 0 then None else Some(Value(body[..n], b))
  }

  /** An optional sign and the digits behind it. */
  function Signed(t: string, base: nat): Option<int> {
    if t != "" && t[0] == '-' then
      var u := Unsigned(t[1..], base);
      if u.None? then None else Some(-u.value)
    else if t != "" && t[0] == '+' then Unsigned(t[1..], base)
    else Unsigned(t, base)
  }

  /** `strtoll(s, &end, base)` on unbounded integers; `None` when nothing converts. */
  function StrToInt(s: string, base: nat): Option<int> {
    Signed(s[SpaceRun(s)..], base)
  }

  /** `isInt`: a conversion that also has to fit a 32-bit integer. */
  function IsInt(s: string, base: nat): (r: Option<int>)
    ensures r.Some? ==> INT_MIN <= r.value <= INT_MAX
  {
    var r := StrToInt(s, base);
    if r.Some? && INT_MIN <= r.value <= INT_MAX then r else None
  }

  // ----- what lies beyond the first unusable byte does not matter -----

  lemma {:induction false} SpanIsLocal(s: string, rest: string, p: char -> bool)
    requires Span(s, p) < |s|
    ensures Span(s + rest, p) == Span(s, p)
  {
    if s != "" && p(s[0]) {
      assert (s + rest)[1..] == s[1..] + rest;
      SpanIsLocal(s[1..], rest, p);
    } else {
      assert (s + rest)[0] == s[0];
    }
  }

  lemma {:induction false} SpanIs(s: string, n: nat, p: char -> bool)
    requires n <= |s|
    requires forall i :: 0 <= i < n ==> p(s[i])
    requires n == |s| || !p(s[n])
    ensures Span(s, p) == n
  {
    if n > 0 {
      SpanIs(s[1..], n - 1, p);
    }
  }

  lemma DigitRunIs(s: string, n: nat, base: nat)
    requires n <= |s|
    requires forall i :: 0 <= i < n ==> IsDigit(s[i], base)
    requires n == |s| || !IsDigit(s[n], base)
    ensures DigitRun(s, base) == n
  {
    SpanIs(s, n, c => IsDigit(c, base));
  }

  lemma UnsignedIsLocal(s: string, rest: string, base: nat)
    requires base <= 16
    requires s != "" && s[|s| - 1] == '\n'
    ensures Unsigned(s + rest, base) == Unsigned(s, base)
  {
    var whole := s + rest;
    assert forall i :: 0 <= i < |s| ==> whole[i] == s[i];
    assert HexPrefixed(whole) == HexPrefixed(s);
    var b := ChosenBase(s, base);
    assert ChosenBase(whole, base) == b && b <= 16;
    var skip := if b == 16 && HexPrefixed(s) then 2 else 0;
    assert skip == 2 ==> |s| > 2;
    var body := s[skip..];
    assert whole[skip..] == body + rest;
    assert !IsDigit(body[|body| - 1], b);
    SpanIsLocal(body, rest, c => IsDigit(c, b));
    var n := DigitRun(body, b);
    assert (body + rest)[..n] == body[..n];
  }

  lemma SignedIsLocal(t: string, rest: string, base: nat)
    requires base <= 16
    requires |t| > 1 && t[|t| - 1] == '\n'
    ensures Signed(t + rest, base) == Signed(t, base)
  {
    hide Unsigned;
    var whole := t + rest;
    assert whole[0] == t[0] && whole[1..] == t[1..] + rest;
    UnsignedIsLocal(if t[0] == '-' || t[0] == '+' then t[1..] else t, rest, base);
  }

  /** On a line that holds something besides white space, conversion never looks past the line. */
  lemma IsIntIsLocal(line: string, rest: string, base: nat)
    requires base <= 16
    requires line != "" && line[|line| - 1] == '\n'
    requires SpaceRun(line) < |line|
    ensures IsInt(line + rest, base) == IsInt(line, base)
  {
    hide Signed;
    SpanIsLocal(line, rest, c => IsSpace(c));
    var n := SpaceRun(line);
    assert IsSpace('\n') && !IsSpace(line[n]);
    assert (line + rest)[n..] == line[n..] + rest;
    SignedIsLocal(line[n..], rest, base);
  }

  lemma OneDigit(base: nat)
    requires 2 <= base <= 16
    ensures Signed("1", base) == Some(1) && Signed("?", base) == None
  {
    hide DigitRun;
    DigitRunIs("1", 1, base);
    DigitRunIs("?", 0, base);
    assert "1"[..1] == "1" && Value("1", base) == Value("", base) * base + 1;
  }

  lemma SkipsBlanks(line: string, rest: string)
    requires SpaceRun(line) == |line| && rest != "" && !IsSpace(rest[0])
    ensures SpaceRun(line + rest) == |line|
  {
    hide IsSpace;
    SpanOnBlanks(line);
    SpanIs(line + rest, |line|, c => IsSpace(c));
  }

  lemma {:induction false} SpanOnBlanks(line: string)
    requires SpaceRun(line) == |line|
    ensures forall i :: 0 <= i < |line| ==> IsSpace(line[i])
  {
    hide IsSpace;
    if line != "" {
      SpanOnBlanks(line[1..]);
      forall i | 0 <= i < |line| ensures IsSpace(line[i]) {
        assert i > 0 ==> line[i] == line[1..][i - 1];
      }
    }
  }

  /** On an all-blank line, conversion depends on what lies beyond it. */
  lemma BlankLineIsNotLocal(line: string, base: nat)
    requires 2 <= base <= 16 && SpaceRun(line) == |line|
    ensures IsInt(line + "1", base) == Some(1) && IsInt(line + "?", base) == None
  {
    hide Signed, SpaceRun;
    SkipsBlanks(line, "1");
    SkipsBlanks(line, "?");
    assert (line + "1")[|line|..] == "1" && (line + "?")[|line|..] == "?";
    OneDigit(base);
  }

  /** Conversion of a line is independent of what follows exactly if the line is not blank. */
  lemma ConversionTheorem(line: string, base: nat)
    requires 2 <= base <= 16 && line != "" && line[|line| - 1] == '\n'
    ensures SpaceRun(line) < |line| <==> forall rest :: IsInt(line + rest, base) == IsInt(line, base)
  {
    hide IsInt, SpaceRun;
    if SpaceRun(line) < |line| {
      forall rest ensures IsInt(line + rest, base) == IsInt(line, base) {
        IsIntIsLocal(line, rest, base);
      }
    } else {
      RunIsNoLonger(line);
      BlankLineIsNotLocal(line, base);
      assert IsInt(line + "1", base) != IsInt(line + "?", base);
    }
  }

  lemma RunIsNoLonger(s: string)
    ensures SpaceRun(s) <= |s|
  {}
}
