/** What the peer makes of any frames on the wire, whoever numbered them, and of bytes that
    are no frames. */
module BeepWire {
  import opened CInts
  import opened CText
  import opened Decimal
  import opened Numerals
  import opened Wrappers
  import opened BeepFraming
  import opened BeepRun

  // ----- numbering -----

  /** The frame at `j` is the next one on the channel of the frame at `i`. */
  ghost predicate Follows(outs: seq<Outgoing>, i: int, j: int) {
    && 0 <= i < j < |outs| && outs[i].channel == outs[j].channel
    && forall k :: i < k < j ==> outs[k].channel != outs[i].channel
  }

  ghost predicate OpensChannel(outs: seq<Outgoing>, j: int) {
    0 <= j < |outs| && forall k :: 0 <= k < j ==> outs[k].channel != outs[j].channel
  }

  /** The receiver has heard nothing on the channel yet, or up to just before this frame. */
  ghost predicate Awaited(chans: seq<Chan>, o: Outgoing) {
    var k := Find(chans, o.channel);
    k < |chans| ==>
      && (chans[k].expMsgNo < 0 || chans[k].expMsgNo == o.no)
      && (chans[k].expSeqNo < 0 || chans[k].expSeqNo == o.seqNo)
  }

  ghost predicate Consecutive(a: Outgoing, b: Outgoing) {
    b.no == a.no + 1 && b.seqNo == a.seqNo + |a.image|
  }

  /** On every channel message numbers count by one and octet numbers by what was sent. */
  ghost predicate InSequence(chans: seq<Chan>, outs: seq<Outgoing>) {
    && (forall i, j :: 0 <= i < j < |outs| && Follows(outs, i, j) ==> Consecutive(outs[i], outs[j]))
    && (forall j :: 0 <= j < |outs| && OpensChannel(outs, j) ==> Awaited(chans, outs[j]))
  }

  ghost predicate Sendable(chans: seq<Chan>, outs: seq<Outgoing>) {
    forall i :: 0 <= i < |outs| ==> outs[i].Printable() && Find(chans, outs[i].channel) < |chans|
  }

  lemma AwaitedPasses(chans: seq<Chan>, o: Outgoing)
    requires Find(chans, o.channel) < |chans|
    ensures var (c, ok) := chans[Find(chans, o.channel)].Consumed(o.Received());
      && (ok <==> Awaited(chans, o))
      && (ok ==> c.expMsgNo == o.no + 1 && c.expSeqNo == o.seqNo + |o.image|)
  {
    hide Find;
  }

  lemma FollowsShifted(outs: seq<Outgoing>, i: int, j: int)
    requires outs != [] && i >= 0 && j >= 0
    ensures Follows(outs[1..], i, j) <==> Follows(outs, i + 1, j + 1)
  {
    var rest := outs[1..];
    assert forall k :: 0 <= k < |rest| ==> rest[k] == outs[k + 1];
    if Follows(rest, i, j) {
      forall k | i + 1 < k < j + 1 ensures outs[k].channel != outs[i + 1].channel {
        assert rest[k - 1] == outs[k];
      }
    }
  }

  lemma OpensShifted(outs: seq<Outgoing>, j: int)
    requires outs != [] && j >= 0
    ensures OpensChannel(outs[1..], j) <==> OpensChannel(outs, j + 1) || Follows(outs, 0, j + 1)
    ensures !(OpensChannel(outs, j + 1) && Follows(outs, 0, j + 1))
  {
    var rest := outs[1..];
    assert forall k :: 0 <= k < |rest| ==> rest[k] == outs[k + 1];
    if OpensChannel(rest, j) {
      forall k | 0 < k < j + 1 ensures outs[k].channel != outs[j + 1].channel {
        assert rest[k - 1] == outs[k];
      }
    }
  }

  lemma AwaitedNext(chans: seq<Chan>, k: nat, c: Chan, a: Outgoing, b: Outgoing)
    requires k == Find(chans, a.channel) < |chans| && c.id == chans[k].id
    requires c.expMsgNo == a.no + 1 && c.expSeqNo == a.seqNo + |a.image| && a.no >= 0 && a.seqNo >= 0
    ensures Find(chans[k := c], b.channel) == Find(chans, b.channel)
    ensures b.channel == a.channel ==> (Awaited(chans[k := c], b) <==> Consecutive(a, b))
    ensures b.channel != a.channel ==> (Awaited(chans[k := c], b) <==> Awaited(chans, b))
  {
    hide Find;
    FindDepends(chans, chans[k := c], b.channel);
    FoundHasId(chans, b.channel);
  }

  lemma FoundHasId(chans: seq<Chan>, id: int)
    ensures Find(chans, id) < |chans| ==> chans[Find(chans, id)].id == id
  {}

  /** Taking the first frame off keeps being in sequence, both ways. */
  lemma SequenceStep(chans: seq<Chan>, outs: seq<Outgoing>, k: nat, c: Chan)
    requires outs != [] && Sendable(chans, outs) && k == Find(chans, outs[0].channel) && c.id == chans[k].id
    requires c.expMsgNo == outs[0].no + 1 && c.expSeqNo == outs[0].seqNo + |outs[0].image|
    requires Awaited(chans, outs[0])
    ensures InSequence(chans, outs) <==> InSequence(chans[k := c], outs[1..])
  {
    hide Find, Awaited, Consecutive, Outgoing.Printable, Follows, OpensChannel;
    var rest := outs[1..];
    if InSequence(chans, outs) {
      SequenceGoesOn(chans, outs, k, c);
    }
    if InSequence(chans[k := c], rest) {
      SequenceCameOn(chans, outs, k, c);
    }
  }

  lemma FirstIsPrintable(chans: seq<Chan>, outs: seq<Outgoing>)
    requires outs != [] && Sendable(chans, outs)
    ensures outs[0].no >= 0 && outs[0].seqNo >= 0 && Find(chans, outs[0].channel) < |chans|
  {
    hide Find;
  }

  lemma SequenceGoesOn(chans: seq<Chan>, outs: seq<Outgoing>, k: nat, c: Chan)
    requires outs != [] && Sendable(chans, outs) && k == Find(chans, outs[0].channel) && c.id == chans[k].id
    requires c.expMsgNo == outs[0].no + 1 && c.expSeqNo == outs[0].seqNo + |outs[0].image|
    requires InSequence(chans, outs)
    ensures InSequence(chans[k := c], outs[1..])
  {
    hide Find, Awaited, Consecutive, Outgoing.Printable, Sendable;
    FirstIsPrintable(chans, outs);
    var rest := outs[1..];
    forall i, j | 0 <= i < j < |rest| && Follows(rest, i, j) ensures Consecutive(rest[i], rest[j]) {
      FollowsShifted(outs, i, j);
      assert Consecutive(outs[i + 1], outs[j + 1]);
    }
    forall j | 0 <= j < |rest| && OpensChannel(rest, j) ensures Awaited(chans[k := c], rest[j]) {
      OpensShifted(outs, j);
      AwaitedNext(chans, k, c, outs[0], outs[j + 1]);
      if OpensChannel(outs, j + 1) {
        assert outs[0].channel != outs[j + 1].channel;
      }
    }
  }

  lemma SequenceCameOn(chans: seq<Chan>, outs: seq<Outgoing>, k: nat, c: Chan)
    requires outs != [] && Sendable(chans, outs) && k == Find(chans, outs[0].channel) && c.id == chans[k].id
    requires c.expMsgNo == outs[0].no + 1 && c.expSeqNo == outs[0].seqNo + |outs[0].image|
    requires Awaited(chans, outs[0]) && InSequence(chans[k := c], outs[1..])
    ensures InSequence(chans, outs)
  {
    hide Find, Awaited, Consecutive, Outgoing.Printable, Sendable, Follows, OpensChannel;
    FirstIsPrintable(chans, outs);
    forall i, j | 0 <= i < j < |outs| && Follows(outs, i, j) ensures Consecutive(outs[i], outs[j]) {
      InRange(outs, i, j);
      if i > 0 {
        FollowsShifted(outs, i - 1, j - 1);
        assert Consecutive(outs[1..][i - 1], outs[1..][j - 1]);
      } else {
        OpensShifted(outs, j - 1);
        assert Awaited(chans[k := c], outs[1..][j - 1]);
        AwaitedNext(chans, k, c, outs[0], outs[j]);
      }
    }
    forall j | 0 <= j < |outs| && OpensChannel(outs, j) ensures Awaited(chans, outs[j]) {
      OpensInRange(outs, j);
      if j > 0 {
        OpensShifted(outs, j - 1);
        assert Awaited(chans[k := c], outs[1..][j - 1]);
        AwaitedNext(chans, k, c, outs[0], outs[j]);
      }
    }
  }

  lemma InRange(outs: seq<Outgoing>, i: int, j: int)
    requires Follows(outs, i, j)
    ensures 0 <= i < j < |outs| && outs[i].channel == outs[j].channel
  {}

  lemma OpensInRange(outs: seq<Outgoing>, j: int)
    requires OpensChannel(outs, j)
    ensures 0 <= j < |outs| && (j > 0 ==> outs[0].channel != outs[j].channel)
  {}

  lemma {:induction false} SequenceIsExpected(chans: seq<Chan>, outs: seq<Outgoing>)
    requires Sendable(chans, outs)
    ensures AllExpected(chans, outs) <==> InSequence(chans, outs)
    decreases |outs|
  {
    hide Find, Awaited, Chan.Consumed, Outgoing.Printable, Outgoing.Received, InSequence, AllExpected, Sendable;
    if outs == [] {
      NothingInSequence(chans);
    } else {
      FirstIsPrintable(chans, outs);
      var k := Find(chans, outs[0].channel);
      AwaitedPasses(chans, outs[0]);
      var (c, ok) := chans[k].Consumed(outs[0].Received());
      ExpectedStep(chans, outs, k, c, ok);
      if ok {
        StillSendable(chans, outs, k, c);
        SequenceStep(chans, outs, k, c);
        SequenceIsExpected(chans[k := c], outs[1..]);
      } else {
        FirstOpens(chans, outs);
      }
    }
  }

  lemma NothingInSequence(chans: seq<Chan>)
    ensures AllExpected(chans, []) && InSequence(chans, [])
  {}

  lemma FirstOpens(chans: seq<Chan>, outs: seq<Outgoing>)
    requires outs != []
    ensures InSequence(chans, outs) ==> Awaited(chans, outs[0])
  {
    hide Awaited;
    assert OpensChannel(outs, 0);
  }

  lemma StillSendable(chans: seq<Chan>, outs: seq<Outgoing>, k: nat, c: Chan)
    requires Sendable(chans, outs) && outs != [] && k < |chans| && c.id == chans[k].id
    ensures Sendable(chans[k := c], outs[1..])
  {
    hide Find, Outgoing.Printable;
    StillKnown(outs, chans, chans[k := c]);
  }

  /** Any frames on known channels are delivered in full if and only if they are in
      sequence on every channel; otherwise reading ends in an error. */
  lemma SequencingTheorem(chans: seq<Chan>, outs: seq<Outgoing>, rest: string)
    requires Sendable(chans, outs)
    ensures var r := GetAll(In(Wire(outs) + rest, false, false), chans, |outs|);
            if InSequence(chans, outs) then Delivered(r, outs, rest) else r.i.error
  {
    hide Find, Outgoing.Printable, InSequence, AllExpected, GetAll, Wire, Delivered;
    SequenceIsExpected(chans, outs);
    WireReadsBack(outs, rest, chans);
  }

  ghost predicate AllConsecutive(outs: seq<Outgoing>) {
    forall i, j :: 0 <= i < j < |outs| && Follows(outs, i, j) ==> Consecutive(outs[i], outs[j])
  }

  /** A session that has heard nothing yet takes any numbers to start with. */
  lemma FreshSequencing(chans: seq<Chan>, outs: seq<Outgoing>, rest: string)
    requires Sendable(chans, outs) && forall k :: 0 <= k < |chans| ==> chans[k].expMsgNo < 0 && chans[k].expSeqNo < 0
    ensures var r := GetAll(In(Wire(outs) + rest, false, false), chans, |outs|);
            if AllConsecutive(outs) then Delivered(r, outs, rest) else r.i.error
  {
    hide Find, Outgoing.Printable, GetAll, Wire, Delivered, Follows, OpensChannel, Consecutive;
    SequencingTheorem(chans, outs, rest);
  }

  // ----- the bytes of a frame -----

  /** The text is how `v` is written in decimal: a sign if it is negative, no leading zero. */
  predicate Written(s: string, v: int) {
    if v < 0 then s != "" && s[0] == '-' && Numeral(s[1..], 0 - v) else Numeral(s, v)
  }

  predicate Numeral(s: string, n: nat) {
    s != "" && Spells(s, n, 10) && (|s| > 1 ==> s[0] != '0')
  }

  lemma OnlyWritten(s: string, v: int)
    requires Written(s, v)
    ensures s == Print(v)
  {
    hide Spells, PrintNat;
    if v < 0 {
      OnlyPrint(s[1..], 0 - v);
    } else {
      OnlyPrint(s, v);
    }
  }

  /** A frame is its type, channel, message number, a dot, octet number and size, for an
      answer its number, a line end, the payload and the trailer. */
  lemma FrameFormat(o: Outgoing, kind: string, channel: string, no: string, seqNo: string, size: string, ans: string)
    requires kind == match o.kind case MSG => "MSG" case RPY => "RPY" case ANS => "ANS" case ERR => "ERR" case NUL => "NUL"
    requires Written(channel, o.channel) && Written(no, o.no) && Written(seqNo, o.seqNo) && Written(size, |o.image|)
    requires if o.kind == ANS then ans != "" && ans[0] == ' ' && Written(ans[1..], o.ansNo) else ans == ""
    ensures o.Frame() == kind + " " + channel + " " + no + " . " + seqNo + " " + size + ans + "\r\n" + o.image + "END\r\n"
  {
    hide Written, Print, Outgoing.Header;
    OnlyWritten(channel, o.channel);
    OnlyWritten(no, o.no);
    OnlyWritten(seqNo, o.seqNo);
    OnlyWritten(size, |o.image|);
    if o.kind == ANS {
      OnlyWritten(ans[1..], o.ansNo);
      assert ans == " " + ans[1..];
    }
    HeaderFormat(o, ans);
    assert "END\r\n" == "END" + "\r\n";
  }

  lemma HeaderFormat(o: Outgoing, ans: string)
    requires ans == if o.kind == ANS then " " + Print(o.ansNo) else ""
    ensures o.Header() == TypeStr(o.kind) + " " + Print(o.channel) + " " + Print(o.no) + " . " + Print(o.seqNo)
                          + " " + Print(|o.image|) + ans + "\r\n"
  {
    hide Print;
    assert " . " == " ." + " ";
  }

  // ----- bare line feeds -----

  /** A line feed alone ends a line too, but only if something follows it: at the end of the
      content more is asked for, as two bytes were wanted first. */
  lemma LineFeedTheorem(rest: string)
    ensures In("\n" + rest, false, false).SkipCrLf() ==
      if rest == "" then (In("\n", true, false), false) else (In(rest, false, false), true)
  {
    var s := "\n" + rest;
    assert s[1..] == rest && s[0] == '\n';
    if rest == "" {
      assert s == "\n";
    } else {
      assert s[..2][0] == '\n' && s[..1] == "\n";
    }
  }

  function Fields(o: Outgoing): string {
    " " + Print(o.channel) + " " + Print(o.no) + " ." + " " + Print(o.seqNo) + " " + Print(|o.image|)
    + if o.kind == ANS then " " + Print(o.ansNo) else ""
  }

  lemma ReadsFields(o: Outgoing, rest: string)
    requires o.Printable() && rest != ""
    ensures ReadHead(In(Fields(o) + "\n" + rest, false, false), Some(o.kind), -1)
         == (In(rest, false, false), Head(o.channel, o.no, o.seqNo, |o.image|, o.Received().ansNo))
  {
    hide Print, In.Field, In.SkipDot, In.SkipCrLf, Fields;
    var eol := "\n" + rest;
    var ans := if o.kind == ANS then " " + Print(o.ansNo) + eol else eol;
    var size := " " + Print(|o.image|) + ans;
    var seqNo := " " + Print(o.seqNo) + size;
    var dot := " ." + seqNo;
    var no := " " + Print(o.no) + dot;
    FieldPieces(o, rest, " " + Print(o.channel) + no);
    ReadsNumber(o.channel, no);
    ReadsNumber(o.no, dot);
    SkipsDot(seqNo);
    ReadsNumber(o.seqNo, size);
    ReadsNumber(|o.image|, ans);
    if o.kind == ANS {
      ReadsNumber(o.ansNo, eol);
    }
    LineFeedTheorem(rest);
  }

  lemma FieldPieces(o: Outgoing, rest: string, all: string)
    requires all == " " + Print(o.channel) + (" " + Print(o.no) + (" ." + (" " + Print(o.seqNo) + (" " + Print(|o.image|)
                  + (if o.kind == ANS then " " + Print(o.ansNo) + ("\n" + rest) else "\n" + rest)))))
    ensures Fields(o) + "\n" + rest == all
  {
    hide Print;
  }

  /** A frame whose lines end in bare line feeds reads like its proper form, if something
      follows it. */
  lemma LineFeedsWillDo(o: Outgoing, rest: string, chans: seq<Chan>)
    requires o.Printable() && rest != ""
    ensures GetMsg(In(TypeStr(o.kind) + (Fields(o) + "\n" + (o.image + ("END" + ("\n" + rest)))), false, false), chans, NoMsg)
         == GetMsg(In(o.Frame() + rest, false, false), chans, NoMsg)
  {
    hide ReadHead, ReadType, Fields, Outgoing.Frame, Find;
    var tail := o.image + ("END" + ("\n" + rest));
    ReadsType(o.kind, Fields(o) + "\n" + tail);
    ReadsFields(o, tail);
    assert tail[..|o.image|] == o.image && tail[|o.image|..] == "END" + ("\n" + rest);
    assert ("END" + ("\n" + rest))[3..] == "\n" + rest;
    LineFeedTheorem(rest);
    ReadsFrame(o, rest);
  }

  // ----- spaces -----

  lemma ReadsTightNumber(n: int, rest: string)
    requires INT_MIN <= n <= INT_MAX && (rest == "" || !IsDigit(rest[0], 10))
    ensures In(Print(n) + rest, false, false).Field() == (In(rest, false, false), n)
  {
    hide ScanInt, Print;
    var s := Print(n) + rest;
    NoSpaces();
    ScansPrinted(n, rest);
    assert s[0] == Print(n)[0] && s[|Print(n)|..] == rest;
  }

  /** The fields with no space behind the type and none around the dot. */
  function TightFields(o: Outgoing): string {
    Print(o.channel) + " " + Print(o.no) + "." + Print(o.seqNo) + " " + Print(|o.image|)
    + if o.kind == ANS then " " + Print(o.ansNo) else ""
  }

  lemma ReadsTightFields(o: Outgoing, rest: string)
    requires o.Printable()
    ensures ReadHead(In(TightFields(o) + "\r\n" + rest, false, false), Some(o.kind), -1)
         == (In(rest, false, false), Head(o.channel, o.no, o.seqNo, |o.image|, o.Received().ansNo))
  {
    hide Print, In.Field, In.SkipDot, In.SkipCrLf, TightFields;
    var eol := "\r\n" + rest;
    var ans := if o.kind == ANS then " " + Print(o.ansNo) + eol else eol;
    var size := " " + Print(|o.image|) + ans;
    var seqNo := Print(o.seqNo) + size;
    var dot := "." + seqNo;
    var no := " " + Print(o.no) + dot;
    TightPieces(o, rest, Print(o.channel) + no);
    ReadsTightNumber(o.channel, no);
    ReadsNumber(o.no, dot);
    SkipsTightDot(seqNo);
    ReadsTightNumber(o.seqNo, size);
    ReadsNumber(|o.image|, ans);
    if o.kind == ANS {
      ReadsNumber(o.ansNo, eol);
    }
    ReadsCrLf(rest);
  }

  lemma SkipsTightDot(rest: string)
    ensures In("." + rest, false, false).SkipDot() == In(rest, false, false)
  {
    assert ("." + rest)[1..] == rest;
  }

  lemma TightPieces(o: Outgoing, rest: string, all: string)
    requires all == Print(o.channel) + (" " + Print(o.no) + ("." + (Print(o.seqNo) + (" " + Print(|o.image|)
                  + (if o.kind == ANS then " " + Print(o.ansNo) + ("\r\n" + rest) else "\r\n" + rest)))))
    ensures TightFields(o) + "\r\n" + rest == all
  {
    hide Print;
  }

  /** A missing space is not noticed: behind the type and around the dot there need be none. */
  lemma SpacesMayLack(o: Outgoing, rest: string, chans: seq<Chan>)
    requires o.Printable()
    ensures GetMsg(In(TypeStr(o.kind) + (TightFields(o) + "\r\n" + (o.image + ("END" + ("\r\n" + rest)))), false, false),
                   chans, NoMsg)
         == GetMsg(In(o.Frame() + rest, false, false), chans, NoMsg)
  {
    hide ReadHead, ReadType, TightFields, Outgoing.Frame, Find;
    var tail := o.image + ("END" + ("\r\n" + rest));
    ReadsType(o.kind, TightFields(o) + "\r\n" + tail);
    ReadsTightFields(o, tail);
    assert tail[..|o.image|] == o.image && tail[|o.image|..] == "END" + ("\r\n" + rest);
    assert ("END" + ("\r\n" + rest))[3..] == "\r\n" + rest;
    ReadsCrLf(rest);
    ReadsFrame(o, rest);
  }

  // ----- what is no frame for this session -----

  /** A frame on a channel the session does not have is an error, whatever its numbers. */
  lemma UnknownChannelIsRefused(o: Outgoing, rest: string, chans: seq<Chan>)
    requires o.Printable() && forall k :: 0 <= k < |chans| ==> chans[k].id != o.channel
    ensures var g := GetMsg(In(o.Frame() + rest, false, false), chans, NoMsg);
      !g.ok && g.i.error && g.chans == chans
  {
    hide ReadType, ReadFrame, Outgoing.Frame;
    ReadsFrame(o, rest);
    FoundHasId(chans, o.channel);
    assert Find(chans, o.channel) == |chans|;
  }

  /** Five bytes behind the payload that do not begin with the trailer are an error. */
  lemma OtherTrailerIsRefused(o: Outgoing, t: string, chans: seq<Chan>)
    requires o.Printable() && |t| >= 5 && t[..5] != "END\r\n" && t[..4] != "END\n"
    ensures var g := GetMsg(In(o.Header() + o.image + t, false, false), chans, NoMsg);
      !g.ok && g.i.error && g.chans == chans
  {
    hide ReadHead, ReadType, Outgoing.Header, In.SkipTrailer, Delivery;
    var tail := o.image + t;
    HeaderStarts(o);
    var s := o.Header()[3..] + tail;
    assert o.Header() + o.image + t == TypeStr(o.kind) + s;
    ReadsType(o.kind, s);
    ReadsHead(o, tail);
    assert tail[..|o.image|] == o.image && tail[|o.image|..] == t;
    OtherTrailer(t);
  }

  lemma OtherTrailer(t: string)
    requires |t| >= 5 && t[..5] != "END\r\n" && t[..4] != "END\n"
    ensures var (i, complete) := In(t, false, false).SkipTrailer();
      !complete && i.error && !i.needMore
  {
    assert t[..5] == t[..3] + t[3..][..2] && t[..4] == t[..3] + t[3..][..1];
  }

  /** So are three bytes that are no message type. */
  lemma OtherTypeIsRefused(s: string, chans: seq<Chan>)
    requires |s| >= 3 && s[..3] !in {"MSG", "RPY", "ANS", "ERR", "NUL"}
    ensures var g := GetMsg(In(s, false, false), chans, NoMsg);
      !g.ok && g.i == In(s, false, true) && g.chans == chans
  {
    hide ReadFrame, Delivery;
    assert forall t: string :: |t| == 3 && t <= s ==> s[..3] == t;
  }
}
