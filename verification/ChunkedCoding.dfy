/** `HttpFindCrlf`: the line ends at the first LF; the CRs glued to its left belong
    to the terminator. */
module HttpText {
  import opened CText
  import opened Wrappers

  datatype Crlf = Crlf(beg: nat, end: nat)

  function FirstLf(s: string): nat { Span(s, c => c != '\n') }

  /** Where the run of CRs that ends just before index `i` begins. */
  function CrRunStart(s: string, i: nat): (b: nat)
    requires i <= |s|
    ensures b <= i
    ensures forall j :: b <= j < i ==> s[j] == '\r'
    ensures b > 0 ==> s[b - 1] != '\r'
  {
    if i > 0 && s[i - 1] == '\r' then CrRunStart(s, i - 1) else i
  }

  function FindCrlf(s: string): (r: Option<Crlf>)
    ensures r.None? <==> '\n' !in s
    ensures r.Some? ==> r.value.beg < r.value.end <= |s| && s[r.value.end - 1] == '\n'
    ensures r.Some? ==> '\n' !in s[..r.value.end - 1]
    ensures r.Some? ==> forall j :: r.value.beg <= j < r.value.end - 1 ==> s[j] == '\r'
    ensures r.Some? && r.value.beg > 0 ==> s[r.value.beg - 1] != '\r'
  {
    var i := FirstLf(s);
    if i < |s| then Some(Crlf(CrRunStart(s, i), i + 1)) else None
  }

  /** The scanning loop, with the offset of the pending CR run or -1. */
  method HttpFindCrlf(buf: string) returns (r: Option<Crlf>)
    ensures r == FindCrlf(buf)
  {
    var crOff: int := -1;
    for i := 0 to |buf|
      invariant '\n' !in buf[..i]
      invariant crOff < 0 ==> CrRunStart(buf, i) == i
      invariant crOff >= 0 ==> CrRunStart(buf, i) == crOff < i
    {
      var c := buf[i];
      if c == '\n' {
        SpanIs(buf, i, x => x != '\n');
        return Some(Crlf(if crOff < 0 then i else crOff, i + 1));
      }
      if crOff < 0 {
        if c == '\r' { crOff := i; }
      } else if c != '\r' {
        crOff := -1;
      }
    }
    assert buf[..|buf|] == buf;
    SpanIs(buf, |buf|, x => x != '\n');
    r := None;
  }

  lemma {:induction false} CrRunStartIsLocal(s: string, rest: string, i: nat)
    requires i <= |s|
    ensures CrRunStart(s + rest, i) == CrRunStart(s, i)
  {
    if i > 0 && s[i - 1] == '\r' {
      CrRunStartIsLocal(s, rest, i - 1);
    }
  }

  /** More input never moves a terminator that is already there. */
  lemma FindCrlfIsLocal(s: string, rest: string)
    requires FindCrlf(s).Some?
    ensures FindCrlf(s + rest) == FindCrlf(s)
  {
    SpanIsLocal(s, rest, c => c != '\n');
    CrRunStartIsLocal(s, rest, FirstLf(s));
  }

  /** The terminator of a line whose text holds no LF and does not end in CR. */
  lemma FindCrlfOfLine(line: string, rest: string)
    requires '\n' !in line
    requires line != "" ==> line[|line| - 1] != '\r'
    ensures FindCrlf(line + "\r\n" + rest) == Some(Crlf(|line|, |line| + 2))
  {
    var s := line + "\r\n" + rest;
    SpanIs(s, |line| + 1, c => c != '\n');
    assert CrRunStart(s, |line| + 1) == CrRunStart(s, |line|) == |line|;
  }
}

/** The incremental decoder of the chunked transfer coding (section 3.6.1 of RFC 2616). */
module ChunkedDecoding {
  import opened CInts
  import opened CText
  import opened Numerals
  import opened Wrappers
  import opened HttpText

  datatype Phase = ChunkBeg | ChunkBody | ChunkEnd | Trailer | MessageEnd

  /** Everything the decoder and its owner remember between two calls. */
  datatype Decoder = Decoder(
    phase: Phase,
    chunkSize: int,
    left: int,
    error: bool,
    content: string,        // handed to the next parser, hence to the owner
    trailers: seq<string>,  // header lines reported to the owner
    endsSeen: nat)          // end-of-trailer notifications
  {
    predicate Halted() { error || phase == MessageEnd }
  }

  const Fresh := Decoder(ChunkBeg, -1, -1, false, "", [], 0)

  /** What the step functions complain about when it fails, plus the single end of trailer. */
  predicate Coherent(d: Decoder) {
    && (d.phase == ChunkBeg ==> d.chunkSize < 0)
    && (d.phase == ChunkBody ==> 0 < d.left <= d.chunkSize <= INT_MAX)
    && (d.phase == ChunkEnd ==> d.left == 0)
    && (d.phase == Trailer ==> d.chunkSize == 0)
    && d.endsSeen == (if d.phase == MessageEnd then 1 else 0)
  }

  /** A step consumes `used` bytes, or stalls for more, or fails. */
  datatype Stepped = Stepped(d: Decoder, used: nat, stalled: bool)

  /** `buf` is what the caller shows; `after` is whatever memory follows it. */
  function StepChunkBeg(d: Decoder, buf: string, after: string): Stepped {
    match FindCrlf(buf)
    case None => Stepped(d, 0, true)
    case Some(crlf) =>
      match IsInt(buf + after, 16)
      case None => Stepped(d.(error := true), 0, false)
      case Some(size) =>
        if size < 0 then Stepped(d.(error := true), 0, false)
        else Stepped(d.(chunkSize := size, left := size, phase := if size == 0 then Trailer else ChunkBody),
                     crlf.end, false)
  }

  function StepChunkBody(d: Decoder, buf: string): Stepped
    requires d.left > 0
  {
    var n := if d.left <= |buf| then d.left else |buf|;
    var d' := d.(content := d.content + buf[..n], left := d.left - n);
    if d'.left == 0 then Stepped(d'.(phase := ChunkEnd), n, false) else Stepped(d', n, true)
  }

  function StepChunkEnd(d: Decoder, buf: string): Stepped {
    match FindCrlf(buf)
    case None => Stepped(d, 0, true)
    case Some(crlf) =>
      if crlf.beg != 0 then Stepped(d.(error := true), 0, false)
      else Stepped(d.(chunkSize := -1, phase := ChunkBeg), crlf.end, false)
  }

  function StepTrailerHeader(d: Decoder, buf: string): Stepped {
    match FindCrlf(buf)
    case None => Stepped(d, 0, true)
    case Some(crlf) =>
      if crlf.beg > 0 then Stepped(d.(trailers := d.trailers + [buf[..crlf.beg]]), crlf.end, false)
      else Stepped(d.(phase := MessageEnd, endsSeen := d.endsSeen + 1), crlf.end, false)
  }

  function Step(d: Decoder, buf: string, after: string): (r: Stepped)
    requires Coherent(d) && !d.Halted()
    ensures r.used <= |buf|
    ensures Coherent(r.d)
    ensures !r.stalled && !r.d.error ==> r.used > 0
    ensures r.d.error ==> r.used == 0
  {
    match d.phase
    case ChunkBeg => StepChunkBeg(d, buf, after)
    case ChunkBody => StepChunkBody(d, buf)
    case ChunkEnd => StepChunkEnd(d, buf)
    case _ => StepTrailerHeader(d, buf)
  }

  /** A decoder together with the input it has not consumed. */
  datatype Progress = Progress(d: Decoder, pending: string)

  /** One `parse` call: step until the decoder stalls, fails or reaches the message end. */
  function Parse(d: Decoder, buf: string, after: string): (r: Progress)
    requires Coherent(d)
    ensures Coherent(r.d)
    ensures |r.pending| <= |buf| && r.pending == buf[|buf| - |r.pending|..]
    decreases |buf|, !d.error
  {
    if d.Halted() || buf == "" then Progress(d, buf)
    else
      var s := Step(d, buf, after);
      if s.stalled then Progress(s.d, buf[s.used..]) else Parse(s.d, buf[s.used..], after)
  }

  /** A slice of the stream and the memory that happens to follow it in the buffer. */
  datatype Slice = Slice(bytes: string, after: string)

  /** Successive `parse` calls; each is shown the unconsumed bytes and the next slice. */
  function Feed(p: Progress, slices: seq<Slice>): (r: Progress)
    requires Coherent(p.d)
    ensures Coherent(r.d)
    decreases |slices|
  {
    if slices == [] then p
    else Feed(Parse(p.d, p.pending + slices[0].bytes, slices[0].after), slices[1..])
  }

  function Joined(slices: seq<Slice>): string {
    if slices == [] then "" else slices[0].bytes + Joined(slices[1..])
  }

  predicate BlankSizeLine(d: Decoder, buf: string) {
    d.phase == ChunkBeg && FindCrlf(buf).Some? && SpaceRun(buf[..FindCrlf(buf).value.end]) == FindCrlf(buf).value.end
  }

  /** Somewhere down the stream a chunk-size line holds nothing but white space. */
  predicate MeetsBlankSizeLine(d: Decoder, buf: string)
    requires Coherent(d)
    decreases |buf|, !d.error
  {
    if d.Halted() || buf == "" then false
    else if BlankSizeLine(d, buf) then true
    else
      var s := Step(d, buf, "");
      !s.stalled && MeetsBlankSizeLine(s.d, buf[s.used..])
  }

  // ----- slicing -----

  lemma ChunkBegIsLocal(d: Decoder, buf: string, rest: string, after: string, after': string)
    requires d.phase == ChunkBeg && !BlankSizeLine(d, buf)
    requires FindCrlf(buf).Some?
    ensures StepChunkBeg(d, buf + rest, after') == StepChunkBeg(d, buf, after)
  {
    hide IsInt, SpaceRun;
    FindCrlfIsLocal(buf, rest);
    var end := FindCrlf(buf).value.end;
    SizeIsLocal(buf, end, after);
    assert (buf + rest)[..end] == buf[..end];
    SizeIsLocal(buf + rest, end, after');
  }

  lemma SizeIsLocal(buf: string, end: nat, after: string)
    requires 0 < end <= |buf| && buf[end - 1] == '\n'
    requires SpaceRun(buf[..end]) != end
    ensures IsInt(buf + after, 16) == IsInt(buf[..end], 16)
  {
    hide IsInt;
    IsIntIsLocal(buf[..end], buf[end..] + after, 16);
    assert buf[..end] + (buf[end..] + after) == buf + after;
  }

  lemma TrailerHeaderIsLocal(d: Decoder, buf: string, rest: string)
    requires FindCrlf(buf).Some?
    ensures StepTrailerHeader(d, buf + rest) == StepTrailerHeader(d, buf)
  {
    FindCrlfIsLocal(buf, rest);
    var beg := FindCrlf(buf).value.beg;
    assert (buf + rest)[..beg] == buf[..beg];
  }

  /** A step that does not stall is unaffected by bytes or memory further on. */
  lemma StepIsLocal(d: Decoder, buf: string, rest: string, after: string, after': string)
    requires Coherent(d) && !d.Halted() && !BlankSizeLine(d, buf)
    requires !Step(d, buf, after).stalled
    ensures Step(d, buf + rest, after') == Step(d, buf, after)
  {
    match d.phase
    case ChunkBeg => ChunkBegIsLocal(d, buf, rest, after, after');
    case ChunkBody => assert (buf + rest)[..d.left] == buf[..d.left];
    case ChunkEnd => FindCrlfIsLocal(buf, rest);
    case Trailer => TrailerHeaderIsLocal(d, buf, rest);
  }

  lemma BlankIsLocal(d: Decoder, buf: string, rest: string)
    requires FindCrlf(buf).Some?
    ensures BlankSizeLine(d, buf + rest) == BlankSizeLine(d, buf)
  {
    FindCrlfIsLocal(buf, rest);
    var end := FindCrlf(buf).value.end;
    assert (buf + rest)[..end] == buf[..end];
  }

  /** Outside the chunk data a stalled step leaves everything as it was. */
  lemma StallKeepsAll(d: Decoder, buf: string, after: string)
    requires Coherent(d) && !d.Halted() && d.phase != ChunkBody
    requires Step(d, buf, after).stalled
    ensures Step(d, buf, after) == Stepped(d, 0, true)
  {}

  lemma BlankStaysBlank(d: Decoder, buf: string, rest: string)
    requires BlankSizeLine(d, buf)
    ensures BlankSizeLine(d, buf + rest)
  {
    BlankIsLocal(d, buf, rest);
  }

  /** A call on `a + b` does what a call on `a` and one on the leftovers and `b` do. */
  lemma {:induction false} ParseSplits(d: Decoder, a: string, b: string, after: string, after': string)
    requires Coherent(d)
    requires !MeetsBlankSizeLine(d, a + b)
    ensures !MeetsBlankSizeLine(Parse(d, a, after).d, Parse(d, a, after).pending + b)
    ensures Parse(d, a + b, after')
         == Parse(Parse(d, a, after).d, Parse(d, a, after).pending + b, after')
    decreases |a|, !d.error
  {
    hide Step, BlankSizeLine;
    if d.Halted() || a == "" {
      return;
    }
    if BlankSizeLine(d, a) {
      BlankStaysBlank(d, a, b);
    }
    var s := Step(d, a, after);
    if s.stalled {
      if d.phase == ChunkBody {
        StalledBody(d, a, b, after, after');
        assert "" + b == b;
      } else {
        StallKeepsAll(d, a, after);
        assert a[0..] == a;
      }
    } else {
      StepIsLocal(d, a, b, after, after');
      StepIsLocal(d, a, b, after, "");
      assert (a + b)[s.used..] == a[s.used..] + b;
      ParseSplits(s.d, a[s.used..], b, after, after');
    }
  }

  /** One body step of a run. */
  lemma ParseBody(d: Decoder, buf: string, after: string)
    requires Coherent(d) && d.phase == ChunkBody && !d.error && buf != ""
    ensures var s := StepChunkBody(d, buf);
      && Coherent(s.d) && s.used <= |buf|
      && Parse(d, buf, after) ==
           (if s.stalled then Progress(s.d, buf[s.used..]) else Parse(s.d, buf[s.used..], after))
      && MeetsBlankSizeLine(d, buf) == (!s.stalled && MeetsBlankSizeLine(s.d, buf[s.used..]))
  {
    hide StepChunkBody;
    BodyStep(d, buf, after);
    BodyStep(d, buf, "");
  }

  lemma BodyStep(d: Decoder, buf: string, after: string)
    requires Coherent(d) && d.phase == ChunkBody && !d.error
    ensures Step(d, buf, after) == StepChunkBody(d, buf)
  {
    hide StepChunkBody;
  }

  /** The body phase may stop anywhere inside the chunk data. */
  lemma StalledBody(d: Decoder, a: string, b: string, after: string, after': string)
    requires Coherent(d) && d.phase == ChunkBody && !d.error && a != ""
    requires Step(d, a, after).stalled
    ensures Parse(d, a, after).pending == ""
    ensures Parse(d, a + b, after') == Parse(Parse(d, a, after).d, b, after')
    ensures MeetsBlankSizeLine(d, a + b) == MeetsBlankSizeLine(Parse(d, a, after).d, b)
  {
    hide Parse, MeetsBlankSizeLine, Step, StepChunkBody;
    BodyStep(d, a, after);
    ParseBody(d, a, after);
    BodyStalls(d, a);
    var s := StepChunkBody(d, a);
    if b == "" {
      assert a + b == a;
      NothingToParse(s.d, after');
      ParseBody(d, a, after');
    } else {
      BodyContinues(d, a, b);
      ParseBody(d, a + b, after');
      ParseBody(s.d, b, after');
      var whole, tail := StepChunkBody(d, a + b), StepChunkBody(s.d, b);
      assert (a + b)[whole.used..] == b[tail.used..];
    }
  }

  lemma BodyStalls(d: Decoder, a: string)
    requires d.left > 0 && StepChunkBody(d, a).stalled
    ensures |a| < d.left && StepChunkBody(d, a).used == |a|
    ensures StepChunkBody(d, a).d.phase == d.phase && StepChunkBody(d, a).d.error == d.error
  {}

  lemma NothingToParse(d: Decoder, after: string)
    requires Coherent(d)
    ensures Parse(d, "", after) == Progress(d, "") && !MeetsBlankSizeLine(d, "")
  {}

  lemma BodyContinues(d: Decoder, a: string, b: string)
    requires 0 <= |a| < d.left
    ensures StepChunkBody(d, a).d.left > 0
    ensures var tail := StepChunkBody(StepChunkBody(d, a).d, b);
            StepChunkBody(d, a + b) == tail.(used := |a| + tail.used)
  {
    var s := StepChunkBody(d, a);
    var n := if s.d.left <= |b| then s.d.left else |b|;
    assert a[..|a|] == a;
    assert (a + b)[..|a| + n] == a + b[..n];
    assert s.d.content + b[..n] == d.content + (a + b[..n]);
  }

  /** Cutting the stream anywhere amounts to one call on all of it. */
  lemma {:induction false} FeedIsOneParse(p: Progress, slices: seq<Slice>, after: string)
    requires Coherent(p.d)
    requires slices != []
    requires !MeetsBlankSizeLine(p.d, p.pending + Joined(slices))
    ensures Feed(p, slices) == Parse(p.d, p.pending + Joined(slices), after)
    decreases |slices|
  {
    hide Parse, MeetsBlankSizeLine;
    var first, rest := slices[0], slices[1..];
    var shown := p.pending + first.bytes;
    assert p.pending + Joined(slices) == shown + Joined(rest);
    ParseSplits(p.d, shown, Joined(rest), first.after, after);
    var q := Parse(p.d, shown, first.after);
    if rest == [] {
      assert shown + "" == shown;
      ParseOnceMore(p.d, shown, first.after, after);
    } else {
      FeedIsOneParse(q, rest, after);
    }
  }

  lemma StallIgnoresMemory(d: Decoder, buf: string, after: string, after': string)
    requires Coherent(d) && !d.Halted()
    requires Step(d, buf, after).stalled
    ensures Step(d, buf, after') == Step(d, buf, after)
  {
    hide IsInt, FindCrlf;
  }

  /** A second call with nothing new to show changes nothing. */
  lemma {:induction false} ParseOnceMore(d: Decoder, buf: string, after: string, after': string)
    requires Coherent(d)
    requires !MeetsBlankSizeLine(d, buf)
    ensures Parse(d, buf, after) == Parse(d, buf, after')
    decreases |buf|, !d.error
  {
    hide Step, BlankSizeLine;
    if !d.Halted() && buf != "" {
      var s := Step(d, buf, after);
      if s.stalled {
        StallIgnoresMemory(d, buf, after, after');
      } else {
        StepIsLocal(d, buf, "", after, after');
        StepIsLocal(d, buf, "", after, "");
        assert buf + "" == buf;
        ParseOnceMore(s.d, buf[s.used..], after, after');
      }
    }
  }

  // ----- a blank size line makes the outcome depend on the cut -----

  lemma BlankSizeReadsBeyond(d: Decoder, line: string)
    requires Coherent(d) && d.phase == ChunkBeg && !d.error
    requires FindCrlf(line).Some? && FindCrlf(line).value.end == |line| == SpaceRun(line)
    ensures Step(d, line, "1") == Stepped(d.(chunkSize := 1, left := 1, phase := ChunkBody), |line|, false)
    ensures Step(d, line, "G") == Stepped(d.(error := true), 0, false)
  {
    hide Step, SpaceRun;
    BlankBeforeDigit(d, line);
    BlankBeforeLetter(d, line);
  }

  lemma BlankBeforeDigit(d: Decoder, line: string)
    requires Coherent(d) && d.phase == ChunkBeg && !d.error
    requires FindCrlf(line).Some? && FindCrlf(line).value.end == |line| == SpaceRun(line)
    ensures Step(d, line, "1") == Stepped(d.(chunkSize := 1, left := 1, phase := ChunkBody), |line|, false)
  {
    hide IsInt, SpaceRun;
    BlankLineIsNotLocal(line, 16);
  }

  lemma BlankBeforeLetter(d: Decoder, line: string)
    requires Coherent(d) && d.phase == ChunkBeg && !d.error
    requires FindCrlf(line).Some? && FindCrlf(line).value.end == |line| == SpaceRun(line)
    ensures Step(d, line, "G") == Stepped(d.(error := true), 0, false)
  {
    SpanIs(line + "G", |line|, c => IsSpace(c));
    assert (line + "G")[|line|..] == "G";
    DigitRunIs("G", 0, 16);
  }

  lemma StepReadsItsBytes(d: Decoder, s: string, k: nat, after: string)
    requires Coherent(d) && !d.Halted() && !BlankSizeLine(d, s)
    requires !Step(d, s, "").stalled && !Step(d, s, "").d.error
    requires Step(d, s, "").used <= k <= |s|
    ensures Step(d, s[..k], after) == Step(d, s, "")
  {
    hide IsInt, SpaceRun;
    assert s[..k] + s[k..] == s;
    if d.phase != ChunkBody {
      var end := FindCrlf(s).value.end;
      assert s[..k][end - 1] == '\n';
      BlankIsLocal(d, s[..k], s[k..]);
    }
    StepIsLocal(d, s[..k], s[k..], after, "");
  }

  /** Right behind a blank size line two memories lead the decoder apart. */
  lemma CutHere(d: Decoder, s: string)
    requires Coherent(d) && !d.Halted() && BlankSizeLine(d, s)
    ensures var k := FindCrlf(s).value.end;
      && Parse(d, s[..k], "1").pending == ""
      && Parse(d, s[..k], "G").d.error && Parse(d, s[..k], "G").pending != ""
  {
    hide Step, SpaceRun;
    var k := FindCrlf(s).value.end;
    assert s[..k] + s[k..] == s && s[..k][k - 1] == '\n';
    FindCrlfIsLocal(s[..k], s[k..]);
    BlankSizeReadsBeyond(d, s[..k]);
    assert s[..k][k..] == "";
  }

  lemma CutLater(d: Decoder, s: string, k: nat, after: string)
    requires Coherent(d) && !d.Halted() && !BlankSizeLine(d, s)
    requires !Step(d, s, "").stalled && !Step(d, s, "").d.error
    requires 0 < Step(d, s, "").used <= k <= |s|
    ensures var n := Step(d, s, "").used;
      Parse(d, s[..k], after) == Parse(Step(d, s, "").d, s[n..][..k - n], after)
  {
    hide Step, BlankSizeLine;
    var n := Step(d, s, "").used;
    StepReadsItsBytes(d, s, k, after);
    assert s[..k][n..] == s[n..][..k - n];
  }

  /** Where to cut the stream so that two memories lead the decoder apart. */
  lemma {:induction false} FatalCut(d: Decoder, s: string) returns (k: nat)
    requires Coherent(d) && MeetsBlankSizeLine(d, s)
    ensures k <= |s|
    ensures Parse(d, s[..k], "1").pending == ""
    ensures Parse(d, s[..k], "G").d.error && Parse(d, s[..k], "G").pending != ""
    decreases |s|, !d.error
  {
    hide Step, Parse, BlankSizeLine;
    if BlankSizeLine(d, s) {
      k := BlankEnds(d, s);
      CutHere(d, s);
    } else {
      var n := Step(d, s, "").used;
      var k' := FatalCut(Step(d, s, "").d, s[n..]);
      k := n + k';
      CutLater(d, s, k, "1");
      CutLater(d, s, k, "G");
    }
  }

  lemma BlankEnds(d: Decoder, s: string) returns (k: nat)
    requires BlankSizeLine(d, s)
    ensures FindCrlf(s).Some? && k == FindCrlf(s).value.end <= |s|
  {
    k := FindCrlf(s).value.end;
  }

  ghost predicate SlicingDoesNotMatter(stream: string) {
    forall slices | slices != [] && Joined(slices) == stream ::
      Feed(Progress(Fresh, ""), slices) == Parse(Fresh, stream, "")
  }

  lemma FeedTwo(a: Slice, b: Slice)
    ensures Joined([a, b]) == a.bytes + b.bytes
    ensures var p := Parse(Fresh, a.bytes, a.after);
            Feed(Progress(Fresh, ""), [a, b]) == Parse(p.d, p.pending + b.bytes, b.after)
  {
    hide Parse;
    assert [a, b][1..] == [b] && [b][1..] == [];
    assert Joined([b]) == b.bytes + "" == b.bytes;
    assert "" + a.bytes == a.bytes;
    var p := Parse(Fresh, a.bytes, a.after);
    assert Feed(p, [b]) == Feed(Parse(p.d, p.pending + b.bytes, b.after), []);
  }

  function CutAt(stream: string, k: nat, after: string): seq<Slice>
    requires k <= |stream|
  {
    [Slice(stream[..k], after), Slice(stream[k..], "")]
  }

  lemma CutFeeds(stream: string, k: nat, after: string)
    requires k <= |stream|
    ensures Joined(CutAt(stream, k, after)) == stream
    ensures var p := Parse(Fresh, stream[..k], after);
            Feed(Progress(Fresh, ""), CutAt(stream, k, after)) == Parse(p.d, p.pending + stream[k..], "")
  {
    hide Parse, Feed, Joined;
    FeedTwo(Slice(stream[..k], after), Slice(stream[k..], ""));
    assert stream[..k] + stream[k..] == stream;
  }

  /** Two memories behind one cut that make the decoder consume different amounts. */
  lemma BlankSizeLineMatters(stream: string) returns (k: nat)
    requires MeetsBlankSizeLine(Fresh, stream)
    ensures k <= |stream|
    ensures |Feed(Progress(Fresh, ""), CutAt(stream, k, "1")).pending|
          < |Feed(Progress(Fresh, ""), CutAt(stream, k, "G")).pending|
  {
    hide Parse, Feed, CutAt, MeetsBlankSizeLine;
    k := FatalCut(Fresh, stream);
    CutFeeds(stream, k, "1");
    CutFeeds(stream, k, "G");
    HaltedKeepsAll(Parse(Fresh, stream[..k], "G"), Slice(stream[k..], ""));
  }

  /** The whole decoder outcome (step, sizes, error, content, trailers, consumed bytes)
      is independent of how the stream is cut and of the memory behind each cut exactly
      when no chunk-size line on the way is blank. */
  lemma SlicingTheorem(stream: string)
    ensures SlicingDoesNotMatter(stream) <==> !MeetsBlankSizeLine(Fresh, stream)
  {
    hide Parse, Feed, Joined, MeetsBlankSizeLine;
    if MeetsBlankSizeLine(Fresh, stream) {
      var k := BlankSizeLineMatters(stream);
      CutFeeds(stream, k, "1");
      CutFeeds(stream, k, "G");
    } else {
      forall slices | slices != [] && Joined(slices) == stream
        ensures Feed(Progress(Fresh, ""), slices) == Parse(Fresh, stream, "")
      {
        assert "" + stream == stream;
        FeedIsOneParse(Progress(Fresh, ""), slices, "");
      }
    }
  }

  lemma HaltedKeepsAll(p: Progress, b: Slice)
    requires Coherent(p.d) && p.d.error
    ensures Parse(p.d, p.pending + b.bytes, b.after) == Progress(p.d, p.pending + b.bytes)
  {}

  // ----- decoding undoes encoding -----

  /** A chunk on the wire: its size in hex, an optional extension, its data. */
  datatype Chunk = Chunk(size: string, ext: string, data: string) {
    predicate Valid() {
      && size != "" && Spells(size, |data|, 16) && |data| <= INT_MAX
      && (ext != "" ==> ext[0] == ';') && '\n' !in ext
    }

    function SizeLine(): string { size + ext + "\r\n" }

    function Encoded(): string { SizeLine() + data + "\r\n" }
  }

  predicate ValidHeader(h: string) {
    h != "" && '\n' !in h && h[|h| - 1] != '\r'
  }

  function EncodedChunks(chunks: seq<Chunk>): string {
    if chunks == [] then "" else chunks[0].Encoded() + EncodedChunks(chunks[1..])
  }

  function EncodedTrailers(headers: seq<string>): string {
    if headers == [] then "\r\n" else headers[0] + "\r\n" + EncodedTrailers(headers[1..])
  }

  function AllData(chunks: seq<Chunk>): string {
    if chunks == [] then "" else chunks[0].data + AllData(chunks[1..])
  }

  /** chunked-body = *chunk last-chunk trailer CRLF */
  datatype Message = Message(chunks: seq<Chunk>, last: Chunk, headers: seq<string>) {
    predicate Valid() {
      && (forall i :: 0 <= i < |chunks| ==> chunks[i].Valid() && chunks[i].data != "")
      && last.Valid() && last.data == ""
      && (forall i :: 0 <= i < |headers| ==> ValidHeader(headers[i]))
    }

    function Encoded(): string {
      EncodedChunks(chunks) + (last.SizeLine() + EncodedTrailers(headers))
    }
  }

  lemma SizeLineScans(c: Chunk, rest: string)
    requires c.Valid()
    ensures var s := c.SizeLine() + rest;
            && FindCrlf(s).Some? && FindCrlf(s).value.end == |c.SizeLine()|
            && SpaceRun(s[..|c.SizeLine()|]) == 0
  {
    var s := c.SizeLine() + rest;
    var n := |c.size + c.ext|;
    SpelledHasValue(c.size, |c.data|, 16);
    SpanIs(s, n + 1, x => x != '\n');
    assert s[0] == c.size[0] && IsDigit(c.size[0], 16);
  }

  lemma SizeLineValue(c: Chunk, rest: string)
    requires c.Valid()
    ensures IsInt(c.SizeLine() + rest, 16) == Some(|c.data|)
  {
    hide IsInt, Spells, StopsDigits;
    var tail := c.ext + "\r\n" + rest;
    StopsAtBlank(tail, 16);
    ReadsNumeral("", "", c.size, |c.data|, tail, 16);
    assert c.SizeLine() + rest == "" + ("" + (c.size + tail));
  }

  lemma ParseSteps(d: Decoder, buf: string, after: string)
    requires Coherent(d) && !d.Halted() && buf != "" && !Step(d, buf, after).stalled
    ensures var s := Step(d, buf, after);
            Parse(d, buf, after) == Parse(s.d, buf[s.used..], after)
    ensures !BlankSizeLine(d, buf) && Step(d, buf, "") == Step(d, buf, after) ==>
              var s := Step(d, buf, "");
              MeetsBlankSizeLine(d, buf) == MeetsBlankSizeLine(s.d, buf[s.used..])
  {
    hide Step, BlankSizeLine;
  }

  lemma ReadsSizeLine(d: Decoder, c: Chunk, rest: string, after: string)
    requires Coherent(d) && d.phase == ChunkBeg && !d.error && c.Valid()
    ensures var d' := d.(chunkSize := |c.data|, left := |c.data|,
                         phase := if c.data == "" then Trailer else ChunkBody);
            && Coherent(d')
            && Parse(d, c.SizeLine() + rest, after) == Parse(d', rest, after)
            && MeetsBlankSizeLine(d, c.SizeLine() + rest) == MeetsBlankSizeLine(d', rest)
  {
    hide IsInt, FindCrlf, SpaceRun;
    var s := c.SizeLine() + rest;
    SizeLineScans(c, rest);
    SizeLineValue(c, rest);
    SizeLineValue(c, rest + after);
    assert s + after == c.SizeLine() + (rest + after) && s + "" == s;
    assert s[|c.SizeLine()|..] == rest;
    ParseSteps(d, s, after);
  }

  lemma ReadsChunkData(d: Decoder, data: string, rest: string, after: string)
    requires Coherent(d) && d.phase == ChunkBody && !d.error && d.left == |data|
    ensures var d' := d.(content := d.content + data, left := 0, chunkSize := -1, phase := ChunkBeg);
            && Coherent(d')
            && Parse(d, data + "\r\n" + rest, after) == Parse(d', rest, after)
            && MeetsBlankSizeLine(d, data + "\r\n" + rest) == MeetsBlankSizeLine(d', rest)
  {
    hide Parse, MeetsBlankSizeLine;
    var s := data + "\r\n" + rest;
    var t := "\r\n" + rest;
    assert s == data + t && s[..|data|] == data && s[|data|..] == t;
    ParseBody(d, s, after);
    ReadsChunkEnd(StepChunkBody(d, s).d, rest, after);
  }

  lemma ReadsChunkEnd(d: Decoder, rest: string, after: string)
    requires Coherent(d) && d.phase == ChunkEnd && !d.error
    ensures var d' := d.(chunkSize := -1, phase := ChunkBeg);
            && Coherent(d')
            && Parse(d, "\r\n" + rest, after) == Parse(d', rest, after)
            && MeetsBlankSizeLine(d, "\r\n" + rest) == MeetsBlankSizeLine(d', rest)
  {
    hide FindCrlf;
    var t := "\r\n" + rest;
    FindCrlfOfLine("", rest);
    assert "" + "\r\n" + rest == t && t[2..] == rest;
    ParseSteps(d, t, after);
  }

  lemma {:induction false} ReadsChunks(d: Decoder, chunks: seq<Chunk>, rest: string, after: string)
    requires Coherent(d) && d.phase == ChunkBeg && !d.error && d.chunkSize == -1
    requires forall i :: 0 <= i < |chunks| ==> chunks[i].Valid() && chunks[i].data != ""
    ensures var d' := d.(content := d.content + AllData(chunks), left := if chunks == [] then d.left else 0);
            && Coherent(d')
            && Parse(d, EncodedChunks(chunks) + rest, after) == Parse(d', rest, after)
            && MeetsBlankSizeLine(d, EncodedChunks(chunks) + rest) == MeetsBlankSizeLine(d', rest)
    decreases |chunks|
  {
    hide Parse, MeetsBlankSizeLine, Chunk.SizeLine, Chunk.Valid;
    if chunks == [] {
      assert "" + rest == rest && d.content + "" == d.content;
    } else {
      var c, more := chunks[0], EncodedChunks(chunks[1..]) + rest;
      assert EncodedChunks(chunks) + rest == c.SizeLine() + (c.data + "\r\n" + more);
      ReadsSizeLine(d, c, c.data + "\r\n" + more, after);
      var d1 := d.(chunkSize := |c.data|, left := |c.data|, phase := ChunkBody);
      ReadsChunkData(d1, c.data, more, after);
      var d2 := d.(content := d.content + c.data, left := 0);
      ReadsChunks(d2, chunks[1..], rest, after);
      assert d.content + AllData(chunks) == d2.content + AllData(chunks[1..]);
    }
  }

  lemma ReadsHeader(d: Decoder, h: string, rest: string, after: string)
    requires Coherent(d) && d.phase == Trailer && !d.error && ValidHeader(h)
    ensures var d' := d.(trailers := d.trailers + [h]);
            && Parse(d, h + "\r\n" + rest, after) == Parse(d', rest, after)
            && MeetsBlankSizeLine(d, h + "\r\n" + rest) == MeetsBlankSizeLine(d', rest)
  {
    hide FindCrlf;
    var s := h + "\r\n" + rest;
    FindCrlfOfLine(h, rest);
    assert s[|h| + 2..] == rest && s[..|h|] == h;
    ParseSteps(d, s, after);
  }

  lemma ReadsTrailerEnd(d: Decoder, rest: string, after: string)
    requires Coherent(d) && d.phase == Trailer && !d.error
    ensures Parse(d, "\r\n" + rest, after) == Progress(d.(phase := MessageEnd, endsSeen := 1), rest)
    ensures !MeetsBlankSizeLine(d, "\r\n" + rest)
  {
    hide FindCrlf;
    var s := "\r\n" + rest;
    FindCrlfOfLine("", rest);
    assert "" + "\r\n" + rest == s;
    assert s[2..] == rest;
    ParseSteps(d, s, after);
  }

  lemma {:induction false} ReadsTrailers(d: Decoder, headers: seq<string>, rest: string, after: string)
    requires Coherent(d) && d.phase == Trailer && !d.error
    requires forall i :: 0 <= i < |headers| ==> ValidHeader(headers[i])
    ensures Parse(d, EncodedTrailers(headers) + rest, after)
         == Progress(d.(trailers := d.trailers + headers, phase := MessageEnd, endsSeen := 1), rest)
    ensures !MeetsBlankSizeLine(d, EncodedTrailers(headers) + rest)
    decreases |headers|
  {
    hide Parse, MeetsBlankSizeLine;
    if headers == [] {
      ReadsTrailerEnd(d, rest, after);
      assert d.trailers + [] == d.trailers;
    } else {
      var h, more := headers[0], EncodedTrailers(headers[1..]) + rest;
      assert EncodedTrailers(headers) + rest == h + "\r\n" + more;
      ReadsHeader(d, h, more, after);
      var d1 := d.(trailers := d.trailers + [h]);
      ReadsTrailers(d1, headers[1..], rest, after);
      assert d.trailers + headers == d1.trailers + headers[1..];
    }
  }

  /** Decoding an encoded message delivers its data and trailers, ends, and leaves what follows. */
  lemma RoundTrip(m: Message, rest: string, after: string)
    requires m.Valid()
    ensures Parse(Fresh, m.Encoded() + rest, after)
         == Progress(Decoder(MessageEnd, 0, 0, false, AllData(m.chunks), m.headers, 1), rest)
    ensures !MeetsBlankSizeLine(Fresh, m.Encoded() + rest)
  {
    hide Parse, MeetsBlankSizeLine, Chunk.Valid, Chunk.SizeLine;
    var tail := EncodedTrailers(m.headers) + rest;
    assert m.Encoded() + rest == EncodedChunks(m.chunks) + (m.last.SizeLine() + tail);
    ReadsChunks(Fresh, m.chunks, m.last.SizeLine() + tail, after);
    assert "" + AllData(m.chunks) == AllData(m.chunks);
    var d := Fresh.(content := AllData(m.chunks), left := if m.chunks == [] then -1 else 0);
    ReadsSizeLine(d, m.last, tail, after);
    ReadsTrailers(d.(chunkSize := 0, left := 0, phase := Trailer), m.headers, rest, after);
    assert [] + m.headers == m.headers;
  }

  /** ... however the network cuts it. */
  lemma SlicedRoundTrip(m: Message, rest: string, slices: seq<Slice>)
    requires m.Valid()
    requires slices != [] && Joined(slices) == m.Encoded() + rest
    ensures Feed(Progress(Fresh, ""), slices)
         == Progress(Decoder(MessageEnd, 0, 0, false, AllData(m.chunks), m.headers, 1), rest)
  {
    hide Parse, MeetsBlankSizeLine, Feed;
    RoundTrip(m, rest, "");
    SlicingTheorem(m.Encoded() + rest);
  }

  // ----- what is refused -----

  /** Behind the data of a chunk only carriage returns may stand before the line feed. */
  lemma ChunkEndTheorem(d: Decoder, t: string, rest: string, after: string)
    requires Coherent(d) && d.phase == ChunkEnd && !d.error && '\n' !in t
    ensures Parse(d, t + "\n" + rest, after) ==
      if OnlyReturns(t) then Parse(d.(chunkSize := -1, phase := ChunkBeg), rest, after)
      else Progress(d.(error := true), t + "\n" + rest)
  {
    hide FindCrlf, Parse, OnlyReturns;
    var s := t + "\n" + rest;
    FirstLineEnd(t, rest);
    assert s[|t| + 1..] == rest;
    ParseOnce(d, s, after);
  }

  predicate OnlyReturns(t: string) {
    forall i :: 0 <= i < |t| ==> t[i] == '\r'
  }

  lemma ParseOnce(d: Decoder, s: string, after: string)
    requires Coherent(d) && !d.Halted() && s != "" && !Step(d, s, after).stalled
    ensures var t := Step(d, s, after);
      Parse(d, s, after) == if t.d.error then Progress(t.d, s) else Parse(t.d, s[t.used..], after)
  {
    hide Step;
    assert s[0..] == s;
  }

  lemma FirstLineEnd(t: string, rest: string)
    requires '\n' !in t
    ensures var r := FindCrlf(t + "\n" + rest);
      r.Some? && r.value.end == |t| + 1 && (r.value.beg == 0 <==> OnlyReturns(t))
  {
    var s := t + "\n" + rest;
    assert s[|t|] == '\n' && forall i :: 0 <= i < |t| ==> s[i] == t[i];
    SpanIs(s, |t|, c => c != '\n');
  }

  /** Junk between a chunk's data and its line end fails, and the data has been delivered. */
  lemma JunkIsRefused(c: Chunk, junk: string, rest: string, after: string)
    requires c.Valid() && c.data != "" && '\n' !in junk && !OnlyReturns(junk)
    ensures var p := Parse(Fresh, c.SizeLine() + (c.data + (junk + "\n" + rest)), after);
      p.d.error && p.d.content == c.data && p.pending == junk + "\n" + rest
  {
    hide Parse, FindCrlf, Chunk.SizeLine, Spells, StepChunkBody, OnlyReturns;
    var tail := junk + "\n" + rest;
    var s := c.data + tail;
    ReadsSizeLine(Fresh, c, s, after);
    var d := Fresh.(chunkSize := |c.data|, left := |c.data|, phase := ChunkBody);
    ParseBody(d, s, after);
    WholeBody(d, c.data, tail);
    ChunkEndTheorem(StepChunkBody(d, s).d, junk, rest, after);
  }

  lemma WholeBody(d: Decoder, data: string, tail: string)
    requires d.left == |data| > 0
    ensures StepChunkBody(d, data + tail) ==
      Stepped(d.(content := d.content + data, left := 0, phase := ChunkEnd), |data|, false)
    ensures (data + tail)[|data|..] == tail
  {
    assert (data + tail)[..|data|] == data;
  }

  /** A size line that starts with no digit, or gives a negative or too large number, fails. */
  lemma BadSizeIsRefused(d: Decoder, blanks: string, sign: string, s: string, n: nat, tail: string,
                         rest: string, after: string)
    requires Coherent(d) && d.phase == ChunkBeg && !d.error
    requires Lead(blanks, sign) && Spells(s, n, 16) && '\n' !in blanks && '\n' !in tail
    requires StopsDigits(tail, 16) && !MayPrefix(s, tail)
    requires s == "" ==> tail != "" && !IsSpace(tail[0]) && tail[0] != '+' && tail[0] != '-'
    requires s == "" || (sign == "-" && n > 0) || n > INT_MAX
    ensures var buf := blanks + (sign + (s + (tail + "\r\n" + rest)));
      Parse(d, buf, after) == Progress(d.(error := true), buf)
  {
    hide IsInt, FindCrlf, Spells, StopsDigits, Parse, Narrowed;
    var t := tail + "\r\n" + (rest + after);
    var buf := blanks + (sign + (s + (tail + "\r\n" + rest)));
    if tail == "" {
      StopsAtBlank(t, 16);
    } else {
      StopsLikewise(tail, t);
    }
    ReadsNumeral(blanks, sign, s, n, t, 16);
    if s != "" {
      BadNumber(sign, n);
    }
    assert buf + after == blanks + (sign + (s + t));
    assert buf[|blanks + sign + s + tail| + 1] == '\n';
    ParseOnce(d, buf, after);
  }

  lemma BadNumber(sign: string, n: nat)
    requires (sign == "-" && n > 0) || n > INT_MAX
    ensures Narrowed(sign, n).None? || Narrowed(sign, n).value < 0
  {}

  lemma StopsLikewise(a: string, b: string)
    requires a != "" && b != "" && a[0] == b[0] && StopsDigits(a, 16)
    ensures StopsDigits(b, 16)
  {}

  /** An empty line where a chunk size is due is already such a line. */
  lemma EmptyLineIsBlank()
    ensures MeetsBlankSizeLine(Fresh, "\r\n") && !SlicingDoesNotMatter("\r\n")
  {
    hide SlicingDoesNotMatter, Step, FindCrlf, SpaceRun;
    JustCrlf();
    assert "\r\n"[..2] == "\r\n";
    SlicingTheorem("\r\n");
  }

  lemma JustCrlf()
    ensures FindCrlf("\r\n") == Some(Crlf(0, 2)) && SpaceRun("\r\n") == 2
  {
    hide FindCrlf;
    assert "" + "\r\n" + "" == "\r\n";
    FindCrlfOfLine("", "");
    SpanIs("\r\n", 2, c => IsSpace(c));
  }
}
