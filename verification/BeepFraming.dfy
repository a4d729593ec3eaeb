/** BEEP frames (section 2.2.1 of RFC 3080): what a session prints, how it parses, and
    the numbering that ties the two. */
module BeepFraming {
  import opened CInts
  import opened CText
  import opened Wrappers
  import opened Decimal

  datatype MsgType = MSG | RPY | ANS | ERR | NUL

  datatype Msg = Msg(kind: Option<MsgType>, channel: int, no: int, seqNo: int, ansNo: int, image: string)

  const NoMsg := Msg(None, -1, -1, -1, -1, "")

  function TypeStr(t: MsgType): (s: string)
    ensures |s| == 3
  {
    match t
    case MSG => "MSG"
    case RPY => "RPY"
    case ANS => "ANS"
    case ERR => "ERR"
    case NUL => "NUL"
  }

  /** A message as it is put on the wire, numbered by its channel. */
  datatype Outgoing = Outgoing(kind: MsgType, channel: int, no: int, seqNo: int, ansNo: int, image: string) {
    function Route(): string {
      TypeStr(kind) + " " + Print(channel) + " " + Print(no)
    }

    function Numbers(): string {
      Route() + " ." + " " + Print(seqNo) + " " + Print(|image|)
    }

    function Header(): string {
      Numbers() + (if kind == ANS then " " + Print(ansNo) else "") + "\r\n"
    }

    function Frame(): string {
      Header() + image + "END" + "\r\n"
    }

    predicate Printable() {
      && 0 <= channel <= INT_MAX && 0 <= no <= INT_MAX && 0 <= seqNo <= INT_MAX && |image| <= INT_MAX
      && INT_MIN <= ansNo <= INT_MAX
    }

    /** What the peer should make of it; only ANS frames carry an answer number. */
    function Received(): Msg {
      Msg(Some(kind), channel, no, seqNo, if kind == ANS then ansNo else -1, image)
    }
  }

  // ----- reading -----

  /** Unread input and the two reasons for not reading on. */
  datatype In = In(buf: string, needMore: bool, error: bool) {
    predicate Good() { !needMore && !error }

    function Fail(): In { this.(error := true) }

    function WantMore(): In { this.(needMore := true) }

    function Drop(n: nat): In
      requires n <= |buf|
    {
      this.(buf := buf[n..])
    }

    function SkipStr(s: string): (In, bool) {
      if !Good() then (this, false)
      else if |buf| < |s| then (WantMore(), false)
      else if s <= buf then (Drop(|s|), true)
      else (this, false)
    }

    /** One space is skipped; its absence is not noticed. */
    function SkipSpace(): In {
      if !Good() then this
      else if buf == "" then WantMore()
      else if IsSpace(buf[0]) then Drop(1)
      else this
    }

    function SkipChar(c: char): In {
      if !Good() then this
      else if buf == "" then WantMore()
      else if buf[0] == c then Drop(1)
      else Fail()
    }

    function SkipCrLf(): (In, bool) {
      var (i, ok) := SkipStr("\r\n");
      if ok then (i, true) else i.SkipStr("\n")
    }

    function SkipTrailer(): (In, bool) {
      var (i, ok) := SkipStr("END");
      var (j, ok') := if ok then i.SkipCrLf() else (i, false);
      if ok' then (j, true) else if j.Good() then (j.Fail(), false) else (j, false)
    }

    function GetInt(): (In, int) {
      if !Good() then (this, -1)
      else
        match ScanInt(buf)
        case None => (Fail(), -1)
        case Some(scan) => (Drop(scan.used), scan.n)
    }

    function Field(): (In, int) { SkipSpace().GetInt() }

    function SkipDot(): In { SkipSpace().SkipChar('.') }

    function GetStr(len: nat): (In, string) {
      if !Good() then (this, "")
      else if len <= |buf| then (Drop(len), buf[..len])
      else (WantMore(), "")
    }
  }

  datatype Scan = Scan(n: int, used: nat)

  /** A run of digits.  It may well end the content: the extraction succeeds there too, and
      the stream is then taken to stand at the end. */
  function ScanDigits(s: string): (r: Option<Scan>)
    ensures r.Some? ==> r.value.used <= |s|
  {
    var n := DigitRun(s, 10);
    if n == 0 then None else Some(Scan(Value(s[..n], 10), n))
  }

  /** Formatted extraction of a decimal `int`: white space, a sign, digits. */
  function ScanInt(s: string): (r: Option<Scan>)
    ensures r.Some? ==> r.value.used <= |s|
  {
    var sp := SpaceRun(s);
    var signed := sp < |s| && (s[sp] == '-' || s[sp] == '+');
    var start := if signed then sp + 1 else sp;
    match ScanDigits(s[start..])
    case None => None
    case Some(d) =>
      var v := if signed && s[sp] == '-' then -d.n else d.n;
      if INT_MIN <= v <= INT_MAX then Some(Scan(v, start + d.used)) else None
  }

  function ReadType(i: In): (In, Option<MsgType>) {
    var (i1, isMsg) := i.SkipStr("MSG");
    if isMsg then (i1, Some(MSG)) else
    var (i2, isRpy) := i1.SkipStr("RPY");
    if isRpy then (i2, Some(RPY)) else
    var (i3, isAns) := i2.SkipStr("ANS");
    if isAns then (i3, Some(ANS)) else
    var (i4, isErr) := i3.SkipStr("ERR");
    if isErr then (i4, Some(ERR)) else
    var (i5, isNul) := i4.SkipStr("NUL");
    if isNul then (i5, Some(NUL)) else (i5, None)
  }

  /** Everything between the message type and the payload. */
  datatype Head = Head(channel: int, no: int, seqNo: int, size: int, ansNo: int)

  function ReadHead(i: In, kind: Option<MsgType>, ansNo: int): (In, Head) {
    var (i1, channel) := i.Field();
    var (i2, no) := i1.Field();
    var (i3, seqNo) := i2.SkipDot().Field();
    var (i4, size) := i3.Field();
    var (i5, ans) := if kind == Some(ANS) then i4.Field() else (i4, ansNo);
    (i5.SkipCrLf().0, Head(channel, no, seqNo, size, ans))
  }

  /** The message read into `m`, and whether a trailer closed it. */
  datatype Parsed = Parsed(i: In, m: Msg, complete: bool)

  function ReadFrame(i: In, kind: Option<MsgType>, m: Msg): Parsed {
    var (i1, h) := ReadHead(i, kind, m.ansNo);
    var (i2, image) := if h.size >= 0 then i1.GetStr(h.size) else (i1, m.image);
    var (i3, complete) := i2.SkipTrailer();
    Parsed(i3, Msg(kind, h.channel, h.no, h.seqNo, h.ansNo, image), complete)
  }

  // ----- channels -----

  datatype Chan = Chan(id: int, nextMsgNo: int, nextSeqNo: int, expMsgNo: int, expSeqNo: int) {
    /** The first message sets what is expected; later ones must match. */
    function Consumed(m: Msg): (r: (Chan, bool))
      ensures r.0.id == id
    {
      if expMsgNo >= 0 && m.no != expMsgNo then (this, false)
      else
        var c := this.(expMsgNo := m.no + 1, expSeqNo := if expSeqNo < 0 then m.seqNo else expSeqNo);
        if m.seqNo != c.expSeqNo then (c, false)
        else (c.(expSeqNo := c.expSeqNo + |m.image|), true)
    }

    function Attempted(): Chan { this.(nextMsgNo := nextMsgNo + 1) }

    function Added(len: nat): Chan { this.(nextSeqNo := nextSeqNo + len) }
  }

  function NewChan(id: int): Chan { Chan(id, 0, 0, -1, -1) }

  /** Index of the first channel with this id; the number of channels if there is none. */
  function Find(chans: seq<Chan>, id: int): (k: nat)
    ensures k <= |chans|
    ensures k < |chans| ==> chans[k].id == id
    ensures forall j :: 0 <= j < k ==> chans[j].id != id
  {
    if chans == [] || chans[0].id == id then 0 else 1 + Find(chans[1..], id)
  }

  /** A complete message goes to its channel, which checks the numbers. */
  function Delivery(i: In, chans: seq<Chan>, m: Msg): (r: (In, seq<Chan>))
    ensures |r.1| == |chans|
  {
    var k := Find(chans, m.channel);
    if k == |chans| then (i.Fail(), chans)
    else if !i.Good() then (i, chans)
    else
      var (c, ok) := chans[k].Consumed(m);
      (if ok then i else i.Fail(), chans[k := c])
  }

  /** The input side of a session after a `getMsg`, the message, and the verdict. */
  datatype Got = Got(i: In, chans: seq<Chan>, m: Msg, ok: bool)

  function GetMsg(i: In, chans: seq<Chan>, m: Msg): Got {
    if !i.Good() then Got(i, chans, m, false)
    else
      var (i1, kind) := ReadType(i);
      if kind.None? && i1.Good() then Got(i1.Fail(), chans, m.(kind := None), false)
      else
        var p := ReadFrame(i1, kind, m);
        var (i2, chans') := if p.complete then Delivery(p.i, chans, p.m) else (p.i, chans);
        Got(if i2.needMore then i2.(buf := i.buf) else i2, chans', p.m, i2.Good())
  }

  // ----- a frame read back -----

  lemma ScansDigits(n: nat, rest: string)
    requires rest == "" || !IsDigit(rest[0], 10)
    ensures ScanDigits(PrintNat(n) + rest) == Some(Scan(n, |PrintNat(n)|))
  {
    DigitRunOfPrint(n, rest);
    ValueOfPrint(n);
    assert (PrintNat(n) + rest)[..|PrintNat(n)|] == PrintNat(n);
  }

  lemma ScansPrinted(n: int, rest: string)
    requires INT_MIN <= n <= INT_MAX
    requires rest == "" || !IsDigit(rest[0], 10)
    ensures ScanInt(Print(n) + rest) == Some(Scan(n, |Print(n)|))
  {
    hide ScanDigits, PrintNat;
    if n < 0 {
      ScansNegative(-n, rest);
    } else {
      ScansNatural(n, rest);
    }
  }

  lemma ScansNatural(n: nat, rest: string)
    requires n <= INT_MAX
    requires rest == "" || !IsDigit(rest[0], 10)
    ensures ScanInt(PrintNat(n) + rest) == Some(Scan(n, |PrintNat(n)|))
  {
    hide ScanDigits, PrintNat;
    var s := PrintNat(n) + rest;
    ScansDigits(n, rest);
    assert s[0] == PrintNat(n)[0];
    SpanIs(s, 0, c => IsSpace(c));
    assert s[0..] == s;
  }

  lemma ScansNegative(n: nat, rest: string)
    requires 0 < n <= -INT_MIN
    requires rest == "" || !IsDigit(rest[0], 10)
    ensures ScanInt("-" + PrintNat(n) + rest) == Some(Scan(0 - n, 1 + |PrintNat(n)|))
  {
    hide ScanDigits, PrintNat;
    var s := "-" + PrintNat(n) + rest;
    ScansDigits(n, rest);
    SpanIs(s, 0, c => IsSpace(c));
    assert s[1..] == PrintNat(n) + rest;
    assert s[0..] == s;
  }

  /** A space, a printed number and something that is not a digit. */
  lemma ReadsNumber(n: int, rest: string)
    requires INT_MIN <= n <= INT_MAX
    requires rest == "" || !IsDigit(rest[0], 10)
    ensures In(" " + Print(n) + rest, false, false).Field() == (In(rest, false, false), n)
  {
    hide ScanInt;
    var s := " " + Print(n) + rest;
    assert s[1..] == Print(n) + rest;
    ScansPrinted(n, rest);
    assert s[1..][|Print(n)|..] == rest;
  }

  lemma ReadsCrLf(rest: string)
    ensures In("\r\n" + rest, false, false).SkipCrLf() == (In(rest, false, false), true)
  {
    assert ("\r\n" + rest)[2..] == rest;
  }

  lemma ReadsType(t: MsgType, rest: string)
    ensures ReadType(In(TypeStr(t) + rest, false, false)) == (In(rest, false, false), Some(t))
  {
    var s := TypeStr(t) + rest;
    assert s[3..] == rest;
    assert forall i :: 0 <= i < 3 ==> s[i] == TypeStr(t)[i];
    assert forall u :: TypeStr(u) <= s ==> TypeStr(u)[0] == s[0] && TypeStr(u)[1] == s[1];
    assert TypeStr(t) <= s;
  }

  lemma ReadsHead(o: Outgoing, rest: string)
    requires o.Printable()
    ensures ReadHead(In(o.Header()[3..] + rest, false, false), Some(o.kind), -1)
         == (In(rest, false, false), Head(o.channel, o.no, o.seqNo, |o.image|, o.Received().ansNo))
  {
    hide Print, In.Field, In.SkipDot, In.SkipCrLf;
    var eol := "\r\n" + rest;
    var ans := if o.kind == ANS then " " + Print(o.ansNo) + eol else eol;
    var size := " " + Print(|o.image|) + ans;
    var seqNo := " " + Print(o.seqNo) + size;
    var dot := " ." + seqNo;
    var no := " " + Print(o.no) + dot;
    var channel := " " + Print(o.channel) + no;
    HeaderPieces(o, rest, channel);
    ReadsNumber(o.channel, no);
    ReadsNumber(o.no, dot);
    SkipsDot(seqNo);
    ReadsNumber(o.seqNo, size);
    ReadsNumber(|o.image|, ans);
    if o.kind == ANS {
      ReadsNumber(o.ansNo, eol);
    }
    ReadsCrLf(rest);
  }

  lemma SkipsDot(rest: string)
    ensures In(" ." + rest, false, false).SkipDot() == In(rest, false, false)
  {
    assert (" ." + rest)[1..] == "." + rest && ("." + rest)[1..] == rest;
  }

  lemma HeaderPieces(o: Outgoing, rest: string, all: string)
    requires all == " " + Print(o.channel) + (" " + Print(o.no) + (" ." + (" " + Print(o.seqNo) + (" " + Print(|o.image|)
                  + (if o.kind == ANS then " " + Print(o.ansNo) + ("\r\n" + rest) else "\r\n" + rest)))))
    ensures o.Header()[3..] + rest == all
  {
    hide Print;
    var t := o.Header()[3..];
    assert o.Header() == TypeStr(o.kind) + t;
  }

  /** `getMsg` on an encoded frame delivers the message and stops behind the frame,
      provided the channel expects these numbers. */
  lemma ReadsFrame(o: Outgoing, rest: string)
    requires o.Printable()
    ensures ReadType(In(o.Frame() + rest, false, false)).1 == Some(o.kind)
    ensures ReadFrame(ReadType(In(o.Frame() + rest, false, false)).0, Some(o.kind), NoMsg)
         == Parsed(In(rest, false, false), o.Received(), true)
  {
    hide ReadHead, ReadType, Outgoing.Header;
    HeaderStarts(o);
    var tail := o.image + ("END" + ("\r\n" + rest));
    var s := o.Header()[3..] + tail;
    assert o.Frame() + rest == TypeStr(o.kind) + s;
    ReadsType(o.kind, s);
    ReadsHead(o, tail);
    assert tail[..|o.image|] == o.image && tail[|o.image|..] == "END" + ("\r\n" + rest);
    assert ("END" + ("\r\n" + rest))[3..] == "\r\n" + rest;
    ReadsCrLf(rest);
  }

  // ----- a frame cut short -----

  lemma BodyTorn(o: Outgoing, n: nat, chans: seq<Chan>)
    requires o.Printable()
    requires |o.Header()| <= n < |o.Frame()|
    ensures var g := GetMsg(In(o.Frame()[..n], false, false), chans, NoMsg);
            !g.ok && g.i == In(o.Frame()[..n], true, false) && g.chans == chans
  {
    hide ReadHead, ReadType, Delivery, Outgoing.Header;
    var head, tail := o.Header(), (o.image + "END" + "\r\n")[..n - |o.Header()|];
    HeaderStarts(o);
    assert o.Frame()[..n] == TypeStr(o.kind) + (head[3..] + tail);
    ReadsType(o.kind, head[3..] + tail);
    ReadsHead(o, tail);
    var i := In(tail, false, false);
    if |o.image| <= |tail| {
      assert tail[|o.image|..] == ("END" + "\r\n")[..|tail| - |o.image|];
      TornTrailer(|tail| - |o.image|);
    }
  }

  /** The cut leaves a number without its first digit: nothing but a space or a sign of it
      is there. */
  predicate CutsBeforeDigits(h: string, n: nat) {
    0 < n < |h| && ((h[n - 1] == ' ' && h[n] != '.') || h[n - 1] == '-')
  }

  /** Reading ran out of content, or failed if the cut was a bad one. */
  predicate Torn(i: In, bad: bool) {
    if bad then i.error else !i.error && (i.needMore || i.buf == "")
  }

  /** Reading stands in `s`, of which the first `k` bytes are there, or ran out before. */
  predicate Reached(i: In, s: string, k: int, bad: bool) {
    if k >= 0 then k < |s| && i == In(s[..k], false, false) && bad == CutsBeforeDigits(s, k)
    else Torn(i, bad)
  }

  lemma {:induction false} PrefixIsSmaller(s: string, k: nat)
    requires k <= |s| && AllDigits(s, 10)
    ensures Value(s[..k], 10) <= Value(s, 10)
  {
    if k < |s| {
      var init := s[..|s| - 1];
      PrefixIsSmaller(init, k);
      assert init[..k] == s[..k];
    } else {
      assert s[..k] == s;
    }
  }

  lemma ScansTornDigits(n: nat, k: nat)
    requires 0 < k <= |PrintNat(n)|
    ensures var r := ScanDigits(PrintNat(n)[..k]);
      r.Some? && r.value.used == k && r.value.n <= n
  {
    hide PrintNat;
    var t := PrintNat(n);
    DigitRunIs(t[..k], k, 10);
    PrefixIsSmaller(t, k);
    ValueOfPrint(n);
    assert t[..k][..k] == t[..k];
  }

  lemma ScanNatIsNonNegative(s: string)
    ensures ScanDigits(s).Some? ==> ScanDigits(s).value.n >= 0
  {}

  /** The beginning of a number scans to its end, unless it is a sign or nothing. */
  lemma ScansTorn(v: int, k: nat)
    requires INT_MIN <= v <= INT_MAX && k <= |Print(v)|
    ensures var r := ScanInt(Print(v)[..k]);
      if k == 0 || (k == 1 && v < 0) then r.None? else r.Some? && r.value.used == k
  {
    hide ScanDigits, ScanInt, PrintNat;
    if k == 0 {
      NothingToScan();
    } else if v < 0 {
      assert Print(v)[..k] == "-" + PrintNat(-v)[..k - 1];
      if k == 1 {
        NothingToScan();
        ScansSigned("", -v);
      } else {
        ScansTornDigits(-v, k - 1);
        ScansSigned(PrintNat(-v)[..k - 1], -v);
      }
    } else {
      ScansTornDigits(v, k);
      StartsWithDigit(v);
      ScansUnsigned(Print(v)[..k], v);
    }
  }

  lemma StartsWithDigit(v: nat)
    ensures PrintNat(v) != "" && IsDigit(PrintNat(v)[0], 10)
  {}

  lemma ScansSigned(t: string, v: nat)
    requires v <= INT_MAX + 1 && (ScanDigits(t).Some? ==> ScanDigits(t).value.n <= v)
    ensures ScanInt("-" + t).Some? <==> ScanDigits(t).Some?
    ensures ScanDigits(t).Some? ==> ScanInt("-" + t).value.used == ScanDigits(t).value.used + 1
  {
    hide ScanDigits;
    SpanIs("-" + t, 0, c => IsSpace(c));
    assert ("-" + t)[0..] == "-" + t && ("-" + t)[1..] == t;
    ScanNatIsNonNegative(t);
  }

  lemma ScansUnsigned(t: string, v: nat)
    requires v <= INT_MAX && t != "" && IsDigit(t[0], 10)
    requires ScanDigits(t).Some? && ScanDigits(t).value.n <= v
    ensures ScanInt(t).Some? && ScanInt(t).value.used == ScanDigits(t).value.used
  {
    hide ScanDigits;
    SpanIs(t, 0, c => IsSpace(c));
    assert t[0..] == t;
    ScanNatIsNonNegative(t);
  }

  lemma NothingToScan()
    ensures ScanDigits("").None? && SpaceRun("") == 0 && SpaceRun("-") == 0
    ensures ScanInt("").None?
  {}

  lemma TornField(i: In, bad: bool)
    requires Torn(i, bad)
    ensures Torn(i.Field().0, bad) && Torn(i.SkipDot(), bad)
  {
    hide ScanInt;
  }

  lemma FieldInside(v: int, rest: string, k: nat)
    requires INT_MIN <= v <= INT_MAX && rest != "" && k <= |Print(v)|
    ensures var s := " " + Print(v) + rest;
      k < |s| && Torn(In(s[..k], false, false).Field().0, CutsBeforeDigits(s, k))
  {
    hide ScanInt;
    var s := " " + Print(v) + rest;
    if k > 0 {
      assert s[..k] == " " + Print(v)[..k - 1] && s[..k][1..] == Print(v)[..k - 1];
      ScansTorn(v, k - 1);
      Digitals(v, k - 1);
      assert s[k] == Print(v)[k - 1] && (k > 1 ==> s[k - 1] == Print(v)[k - 2]);
    }
  }

  /** What characters a printed number has, and where. */
  lemma Digitals(v: int, k: nat)
    requires k < |Print(v)|
    ensures Print(v)[k] == '-' <==> k == 0 && v < 0
    ensures Print(v)[k] != '.' && Print(v)[k] != ' '
    ensures k > 0 ==> (Print(v)[k - 1] == '-' <==> k == 1 && v < 0) && Print(v)[k - 1] != ' '
  {
    hide PrintNat;
  }

  lemma FieldStage(v: int, rest: string, i: In, k: int, bad: bool)
    requires INT_MIN <= v <= INT_MAX && rest != "" && !IsDigit(rest[0], 10)
    requires Reached(i, " " + Print(v) + rest, k, bad)
    ensures Reached(i.Field().0, rest, k - 1 - |Print(v)|, bad)
  {
    hide Print, In.Field, ScanInt;
    var s, a := " " + Print(v) + rest, 1 + |Print(v)|;
    if k < 0 {
      TornField(i, bad);
    } else if k < a {
      FieldInside(v, rest, k);
    } else {
      assert s[..k] == " " + Print(v) + rest[..k - a];
      ReadsNumber(v, rest[..k - a]);
      Digitals(v, |Print(v)| - 1);
      LastIsDigit(v);
      assert s[a - 1] == Print(v)[|Print(v)| - 1];
    }
  }

  lemma LastIsDigit(v: int)
    ensures Print(v)[|Print(v)| - 1] != '-' && Print(v)[|Print(v)| - 1] != ' '
  {
    hide PrintNat;
  }

  lemma DotStage(rest: string, i: In, k: int, bad: bool)
    requires rest != "" && Reached(i, " ." + rest, k, bad)
    ensures Reached(i.SkipDot(), rest, k - 2, bad)
  {
    hide ScanInt;
    var s := " ." + rest;
    if k < 0 {
      TornField(i, bad);
    } else if k >= 2 {
      assert s[..k] == " ." + rest[..k - 2];
      SkipsDot(rest[..k - 2]);
    } else if k == 1 {
      assert s[..1][1..] == "";
    }
  }

  lemma CrLfStage(i: In, k: int, bad: bool)
    requires Reached(i, "\r\n", k, bad)
    ensures var r := i.SkipCrLf().0;
      if bad then r.error else r.needMore && !r.error
  {}

  /** A header cut short. */
  lemma HeaderTorn(o: Outgoing, m: nat)
    requires o.Printable() && 3 + m < |o.Header()|
    ensures var r := ReadHead(In(o.Header()[3..][..m], false, false), Some(o.kind), -1).0;
      if CutsBeforeDigits(o.Header(), 3 + m) then r.error else r.needMore && !r.error
  {
    hide Print, In.Field, In.SkipDot, In.SkipCrLf, Reached;
    var eol := "\r\n";
    var ans := if o.kind == ANS then " " + Print(o.ansNo) + eol else eol;
    var size := " " + Print(|o.image|) + ans;
    var seqNo := " " + Print(o.seqNo) + size;
    var dot := " ." + seqNo;
    var no := " " + Print(o.no) + dot;
    var channel := " " + Print(o.channel) + no;
    HeaderPieces(o, "", channel);
    var i, bad := In(o.Header()[3..][..m], false, false), CutsBeforeDigits(o.Header(), 3 + m);
    ReachedHeader(o, m, channel);
    var k := m as int;
    FieldStage(o.channel, no, i, k, bad);
    var i1, k1 := i.Field().0, k - 1 - |Print(o.channel)|;
    FieldStage(o.no, dot, i1, k1, bad);
    var i2, k2 := i1.Field().0, k1 - 1 - |Print(o.no)|;
    DotStage(seqNo, i2, k2, bad);
    FieldStage(o.seqNo, size, i2.SkipDot(), k2 - 2, bad);
    var i3, k3 := i2.SkipDot().Field().0, k2 - 2 - 1 - |Print(o.seqNo)|;
    FieldStage(|o.image|, ans, i3, k3, bad);
    var i4, k4 := i3.Field().0, k3 - 1 - |Print(|o.image|)|;
    if o.kind == ANS {
      FieldStage(o.ansNo, eol, i4, k4, bad);
      CrLfStage(i4.Field().0, k4 - 1 - |Print(o.ansNo)|, bad);
    } else {
      CrLfStage(i4, k4, bad);
    }
  }

  lemma ReachedHeader(o: Outgoing, m: nat, all: string)
    requires 3 + m < |o.Header()| && o.Header()[3..] + "" == all
    ensures Reached(In(o.Header()[3..][..m], false, false), all, m, CutsBeforeDigits(o.Header(), 3 + m))
  {
    hide Outgoing.Header;
    HeaderStarts(o);
    var h := o.Header();
    assert h[3..] == all;
    assert h[2] == TypeStr(o.kind)[2];
  }

  lemma StoppedHead(i: In, kind: Option<MsgType>, m: Msg)
    requires !ReadHead(i, kind, m.ansNo).0.Good()
    ensures var p := ReadFrame(i, kind, m);
      p.i == ReadHead(i, kind, m.ansNo).0 && !p.complete
  {
    hide ReadHead;
  }

  lemma StuckHead(i: In, kind: Option<MsgType>, ansNo: int)
    requires !i.Good()
    ensures ReadHead(i, kind, ansNo).0 == i
  {}

  lemma TypeTorn(s: string)
    requires |s| < 3
    ensures ReadType(In(s, false, false)) == (In(s, true, false), None)
  {}

  /** A frame cut anywhere makes `getMsg` ask for more, put everything back and touch no
      channel, except where the cut leaves a number without its first digit: that is
      reported as malformed. */
  lemma TornFrameTheorem(o: Outgoing, n: nat, chans: seq<Chan>)
    requires o.Printable() && n < |o.Frame()|
    ensures var g := GetMsg(In(o.Frame()[..n], false, false), chans, NoMsg);
            && !g.ok && g.chans == chans
            && (CutsBeforeDigits(o.Header(), n) ==> g.i.error)
            && (!CutsBeforeDigits(o.Header(), n) ==> g.i == In(o.Frame()[..n], true, false))
  {
    hide ReadHead, ReadType, ReadFrame, Delivery, Outgoing.Header;
    HeaderStarts(o);
    var h, s := o.Header(), o.Frame()[..n];
    if n >= |h| {
      BodyTorn(o, n, chans);
    } else if n < 3 {
      assert s == TypeStr(o.kind)[..n];
      TypeTorn(s);
      StuckHead(In(s, true, false), None, -1);
      StoppedHead(In(s, true, false), None, NoMsg);
      assert n > 0 ==> h[n - 1] == TypeStr(o.kind)[n - 1];
    } else {
      assert s == TypeStr(o.kind) + h[3..][..n - 3];
      ReadsType(o.kind, h[3..][..n - 3]);
      HeaderTorn(o, n - 3);
      StoppedHead(In(h[3..][..n - 3], false, false), Some(o.kind), NoMsg);
    }
  }

  lemma HeaderStarts(o: Outgoing)
    ensures o.Header() == TypeStr(o.kind) + o.Header()[3..]
  {
    hide Print;
  }

  lemma TornTrailer(n: nat)
    requires n < 5
    ensures var (i, complete) := In(("END" + "\r\n")[..n], false, false).SkipTrailer();
            !complete && i.needMore && !i.error
  {
    var s := ("END" + "\r\n")[..n];
    if n >= 3 {
      assert s[..3] == "END" && |s[3..]| < 2;
    }
  }
}
