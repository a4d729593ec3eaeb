/** The BEEP session over real I/O buffers: offsets that move, a state that is saved and
    restored, channels that count, and flags that are raised step by step. */
module BeepSession {
  import opened CText
  import opened Wrappers
  import opened Decimal
  import opened BeepFraming

  /** A fixed buffer with a window of unread content. */
  class IOBuf {
    const theBuf: array<char>
    var theOutOff: nat
    var theInOff: nat

    ghost predicate Valid()
      reads this
    {
      theOutOff <= theInOff <= theBuf.Length
    }

    function Content(): string
      requires Valid()
      reads this, theBuf
    {
      theBuf[theOutOff..theInOff]
    }

    function SpaceSize(): nat
      requires Valid()
      reads this
    {
      theBuf.Length - theInOff
    }

    constructor (capacity: nat)
      ensures Valid() && fresh(theBuf) && theBuf.Length == capacity
      ensures theOutOff == 0 && theInOff == 0
    {
      theBuf := new char[capacity];
      theOutOff, theInOff := 0, 0;
    }

    method Append(s: string)
      requires Valid() && |s| <= SpaceSize()
      modifies `theInOff, theBuf
      ensures Valid() && Content() == old(Content()) + s
      ensures theInOff == old(theInOff) + |s|
      ensures theBuf[..old(theInOff)] == old(theBuf[..theInOff])
    {
      forall i | 0 <= i < |s| {
        theBuf[theInOff + i] := s[i];
      }
      theInOff := theInOff + |s|;
      assert theBuf[theOutOff..old(theInOff)] == theBuf[..old(theInOff)][theOutOff..];
      assert Content() == theBuf[theOutOff..old(theInOff)] + s;
    }

    /** Consuming the last byte moves the window back to the start. */
    method Consumed(n: nat)
      requires Valid() && n <= |Content()|
      modifies this
      ensures Valid() && Content() == old(Content())[n..]
      ensures theOutOff == if Content() == "" then 0 else old(theOutOff) + n
      ensures theInOff == if Content() == "" then 0 else old(theInOff)
    {
      theOutOff := theOutOff + n;
      if theOutOff == theInOff {
        theOutOff, theInOff := 0, 0;
      }
    }

    method Pack()
      requires Valid()
      modifies this, theBuf
      ensures Valid() && Content() == old(Content())
      ensures theOutOff == 0
    {
      if theOutOff == theInOff {
        theOutOff, theInOff := 0, 0;
      } else if theOutOff > 0 {
        ghost var content := Content();
        forall i | 0 <= i < theInOff - theOutOff {
          theBuf[i] := theBuf[theOutOff + i];
        }
        theInOff := theInOff - theOutOff;
        theOutOff := 0;
        assert Content() == content;
      }
    }

    method RestoreState(outOff: nat, inOff: nat)
      requires outOff <= inOff <= theBuf.Length
      modifies this
      ensures Valid() && theOutOff == outOff && theInOff == inOff
    {
      theOutOff, theInOff := outOff, inOff;
    }
  }

  class BeepChannel {
    const theId: int
    var theNextMsgNo: int
    var theNextSeqNo: int
    var theExpMsgNo: int
    var theExpSeqNo: int

    function State(): Chan
      reads this
    {
      Chan(theId, theNextMsgNo, theNextSeqNo, theExpMsgNo, theExpSeqNo)
    }

    constructor (id: int)
      ensures State() == NewChan(id)
    {
      theId, theNextMsgNo, theNextSeqNo, theExpMsgNo, theExpSeqNo := id, 0, 0, -1, -1;
    }

    method NextMsgNo() returns (n: int)
      modifies this
      ensures n == old(theNextMsgNo) && State() == old(State()).Attempted()
    {
      n := theNextMsgNo;
      theNextMsgNo := theNextMsgNo + 1;
    }

    method AddedMsg(len: nat)
      modifies this
      ensures State() == old(State()).Added(len)
    {
      theNextSeqNo := theNextSeqNo + len;
    }

    method ConsumedMsg(m: Msg) returns (ok: bool)
      modifies this
      ensures (State(), ok) == old(State()).Consumed(m)
    {
      if theExpMsgNo < 0 {
        theExpMsgNo := m.no;
      } else if m.no != theExpMsgNo {
        return false;
      }
      theExpMsgNo := theExpMsgNo + 1;
      if theExpSeqNo < 0 {
        theExpSeqNo := m.seqNo;
      }
      if m.seqNo != theExpSeqNo {
        return false;
      }
      theExpSeqNo := theExpSeqNo + |m.image|;
      return true;
    }
  }

  /** The output side: all bytes in the buffer, where its unsent window starts, the flags. */
  datatype Out = Out(bytes: string, capacity: nat, outOff: nat, needSpace: bool, error: bool) {
    predicate Good() { !needSpace && !error }
  }

  /** Putting `s`, piece by piece: all of it arrives if it fits; otherwise the session is
      short of space and at most some of the free space has been scribbled on. */
  ghost predicate Tried(before: Out, s: string, after: Out) {
    && after.error == before.error && after.outOff == before.outOff && after.capacity == before.capacity
    && before.bytes <= after.bytes
    && |before.bytes| <= before.capacity
    && (before.Good() && |before.bytes + s| <= before.capacity ==>
          after.Good() && after.bytes == before.bytes + s)
    && (before.Good() && |before.bytes + s| > before.capacity ==> after.needSpace)
    && (!before.Good() ==> after == before)
  }

  lemma TriedNothing(a: Out)
    requires |a.bytes| <= a.capacity
    ensures Tried(a, "", a)
  {
    assert a.bytes + "" == a.bytes;
  }

  lemma TriedBoth(a: Out, s: string, b: Out, t: string, c: Out)
    requires Tried(a, s, b) && Tried(b, t, c)
    ensures Tried(a, s + t, c)
  {
    assert a.bytes + (s + t) == a.bytes + s + t;
  }

  class BeepSessionMgr {
    const theInBuf: IOBuf
    const theOutBuf: IOBuf
    var theChannels: seq<BeepChannel>
    var theError: bool
    var needMoreContent: bool
    var needMoreSpace: bool

    ghost predicate Valid()
      reads this, theInBuf, theOutBuf
    {
      && theInBuf.Valid() && theOutBuf.Valid()
      && theInBuf != theOutBuf && theInBuf.theBuf != theOutBuf.theBuf
      && forall i, j :: 0 <= i < j < |theChannels| ==> theChannels[i] != theChannels[j]
    }

    function Chans(): (s: seq<Chan>)
      reads this, theChannels
      ensures |s| == |theChannels|
      ensures forall i :: 0 <= i < |theChannels| ==> s[i] == theChannels[i].State()
    {
      seq(|theChannels|, i requires 0 <= i < |theChannels| reads this, theChannels => theChannels[i].State())
    }

    function InState(): In
      requires theInBuf.Valid()
      reads this, theInBuf, theInBuf.theBuf
    {
      In(theInBuf.Content(), needMoreContent, theError)
    }

    predicate GoodOut()
      reads this
    {
      !needMoreSpace && !theError
    }

    predicate GoodIn()
      reads this
    {
      !needMoreContent && !theError
    }

    constructor (capacity: nat)
      ensures Valid() && fresh(theInBuf) && fresh(theOutBuf) && fresh(theInBuf.theBuf) && fresh(theOutBuf.theBuf)
      ensures theChannels == [] && GoodIn() && GoodOut()
    {
      theInBuf := new IOBuf(capacity);
      theOutBuf := new IOBuf(capacity);
      theChannels, theError, needMoreContent, needMoreSpace := [], false, false, false;
    }

    method StartChannel(id: int)
      requires Valid()
      modifies `theChannels
      ensures Valid() && Chans() == old(Chans()) + [NewChan(id)]
      ensures fresh(theChannels[|theChannels| - 1]) && theChannels[..|theChannels| - 1] == old(theChannels)
    {
      var ch := new BeepChannel(id);
      theChannels := theChannels + [ch];
    }

    method FindChannel(id: int) returns (k: nat)
      ensures k == Find(Chans(), id)
    {
      k := 0;
      while k < |theChannels|
        invariant k <= |theChannels|
        invariant Find(Chans(), id) == k + Find(Chans()[k..], id)
      {
        if theChannels[k].theId == id {
          return;
        }
        assert Chans()[k..][1..] == Chans()[k + 1..];
        k := k + 1;
      }
    }

    // ----- output -----

    function OutState(): Out
      requires theOutBuf.Valid()
      reads this, theOutBuf, theOutBuf.theBuf
    {
      Out(theOutBuf.theBuf[..theOutBuf.theInOff], theOutBuf.theBuf.Length, theOutBuf.theOutOff,
          needMoreSpace, theError)
    }

    /** `sofar` is what has been tried since the output looked like `start`. */
    method PutStr(s: string, ghost start: Out, ghost sofar: string)
      requires theOutBuf.Valid() && Tried(start, sofar, OutState())
      modifies `needMoreSpace, theOutBuf`theInOff, theOutBuf.theBuf
      ensures theOutBuf.Valid() && Tried(start, sofar + s, OutState())
    {
      ghost var before := OutState();
      if GoodOut() {
        if theOutBuf.SpaceSize() < |s| {
          needMoreSpace := true;
        } else {
          theOutBuf.Append(s);
        }
      }
      TriedBoth(start, sofar, before, s, OutState());
    }

    /** The digits go straight into the free space, if they all fit. */
    method PutInt(n: int, ghost start: Out, ghost sofar: string)
      requires theOutBuf.Valid() && Tried(start, sofar, OutState())
      modifies `needMoreSpace, theOutBuf`theInOff, theOutBuf.theBuf
      ensures theOutBuf.Valid() && Tried(start, sofar + Print(n), OutState())
    {
      hide Tried, Print;
      PutStr(Print(n), start, sofar);
    }

    method PutSpaceInt(n: int, ghost start: Out, ghost sofar: string)
      requires theOutBuf.Valid() && Tried(start, sofar, OutState())
      modifies `needMoreSpace, theOutBuf`theInOff, theOutBuf.theBuf
      ensures theOutBuf.Valid() && Tried(start, sofar + " " + Print(n), OutState())
    {
      hide Tried, Print;
      PutStr(" ", start, sofar);
      PutInt(n, start, sofar + " ");
    }

    method PutRoute(o: Outgoing, ghost start: Out)
      requires theOutBuf.Valid() && start == OutState()
      modifies `needMoreSpace, theOutBuf`theInOff, theOutBuf.theBuf
      ensures theOutBuf.Valid() && Tried(start, o.Route(), OutState())
    {
      TriedNothing(start);
      hide Tried, Print, TypeStr;
      var kind := TypeStr(o.kind);
      PutStr(kind, start, "");
      assert "" + kind == kind;
      PutSpaceInt(o.channel, start, kind);
      PutSpaceInt(o.no, start, kind + " " + Print(o.channel));
    }

    method PutNumbers(o: Outgoing, ghost start: Out)
      requires theOutBuf.Valid() && start == OutState()
      modifies `needMoreSpace, theOutBuf`theInOff, theOutBuf.theBuf
      ensures theOutBuf.Valid() && Tried(start, o.Numbers(), OutState())
    {
      hide Tried, Print, Outgoing.Route;
      PutRoute(o, start);
      ghost var s := o.Route() + " .";
      PutStr(" .", start, o.Route());
      PutSpaceInt(o.seqNo, start, s);
      PutSpaceInt(|o.image|, start, s + " " + Print(o.seqNo));
    }

    method PutHeader(o: Outgoing, ghost start: Out)
      requires theOutBuf.Valid() && start == OutState()
      modifies `needMoreSpace, theOutBuf`theInOff, theOutBuf.theBuf
      ensures theOutBuf.Valid() && Tried(start, o.Header(), OutState())
    {
      hide Tried, Print, Outgoing.Numbers;
      PutNumbers(o, start);
      ghost var s := o.Numbers();
      if o.kind == ANS {
        PutSpaceInt(o.ansNo, start, s);
        s := s + " " + Print(o.ansNo);
      } else {
        assert s + "" == s;
      }
      assert s + "\r\n" == o.Header();
      PutStr("\r\n", start, s);
    }

    /** Puts a whole frame or, its space exhausted, rolls the output back. */
    method PutFrame(o: Outgoing) returns (ok: bool)
      requires theOutBuf.Valid() && GoodOut()
      modifies `needMoreSpace, theOutBuf, theOutBuf.theBuf
      ensures theOutBuf.Valid()
      ensures ok == (|o.Frame()| <= old(theOutBuf.SpaceSize())) == GoodOut()
      ensures theOutBuf.Content() == old(theOutBuf.Content()) + (if ok then o.Frame() else "")
    {
      hide Outgoing.Header;
      var outOff, inOff := theOutBuf.theOutOff, theOutBuf.theInOff;
      ghost var start := OutState();
      PutHeader(o, start);
      PutStr(o.image, start, o.Header());
      PutStr("END", start, o.Header() + o.image);
      PutStr("\r\n", start, o.Header() + o.image + "END");
      ghost var end := OutState();
      assert Tried(start, o.Frame(), end);
      ok := GoodOut();
      if !ok {
        theOutBuf.RestoreState(outOff, inOff);
        assert theOutBuf.theBuf[..inOff] == start.bytes;
      }
      assert theOutBuf.Content() == theOutBuf.theBuf[..theOutBuf.theInOff][outOff..];
    }

    /** Puts a message or refuses it.  The channel's message number is used up either way,
        unless the session was stuck to begin with. */
    method PutMsg(kind: MsgType, channel: int, ansNo: int, image: string) returns (ok: bool)
      requires Valid() && Find(Chans(), channel) < |theChannels|
      modifies `needMoreSpace, theOutBuf, theOutBuf.theBuf, theChannels
      ensures Valid() && theChannels == old(theChannels)
      ensures var k := Find(old(Chans()), channel);
              var c := old(Chans())[k];
              var o := Outgoing(kind, channel, c.nextMsgNo, c.nextSeqNo, ansNo, image);
              && ok == (old(GoodOut()) && |o.Frame()| <= old(theOutBuf.SpaceSize()))
              && Chans() == (if !old(GoodOut()) then old(Chans())
                             else if ok then old(Chans())[k := c.Attempted().Added(|image|)]
                             else old(Chans())[k := c.Attempted()])
              && theOutBuf.Content() == old(theOutBuf.Content()) + (if ok then o.Frame() else "")
              && GoodOut() == ok
    {
      hide Outgoing.Frame;
      if !GoodOut() {
        return false;
      }
      var k := FindChannel(channel);
      var ch := theChannels[k];
      var seqNo := ch.theNextSeqNo;
      var no := ch.NextMsgNo();
      ok := PutFrame(Outgoing(kind, channel, no, seqNo, ansNo, image));
      if ok {
        ch.AddedMsg(|image|);
      }
    }

    /** Some output has been written to the peer. */
    method ContentOutUsed(n: nat)
      requires Valid() && n <= |theOutBuf.Content()|
      modifies `needMoreSpace, theOutBuf, theOutBuf.theBuf
      ensures Valid() && theOutBuf.Content() == old(theOutBuf.Content())[n..] && !needMoreSpace
      ensures theOutBuf.SpaceSize() == theOutBuf.theBuf.Length - |theOutBuf.Content()|
    {
      theOutBuf.Consumed(n);
      theOutBuf.Pack();
      needMoreSpace := false;
    }

    // ----- input -----

    method SkipStr(s: string) returns (skipped: bool)
      requires theInBuf.Valid()
      modifies `needMoreContent, theInBuf
      ensures theInBuf.Valid()
      ensures (InState(), skipped) == old(InState()).SkipStr(s)
    {
      skipped := false;
      if GoodIn() {
        if |theInBuf.Content()| < |s| {
          needMoreContent := true;
        } else if s <= theInBuf.Content() {
          theInBuf.Consumed(|s|);
          skipped := true;
        }
      }
    }

    method SkipSpace()
      requires theInBuf.Valid()
      modifies `needMoreContent, theInBuf
      ensures theInBuf.Valid()
      ensures InState() == old(InState()).SkipSpace()
    {
      if GoodIn() {
        if |theInBuf.Content()| < 1 {
          needMoreContent := true;
          return;
        }
        var len := 1;
        while len > 0 && IsSpace(theInBuf.Content()[0])
          invariant theInBuf.Valid()
          invariant len == 1 ==> InState() == old(InState())
          invariant len == 0 ==> InState() == old(InState()).SkipSpace()
          invariant 0 <= len <= 1
        {
          theInBuf.Consumed(1);
          len := len - 1;
        }
      }
    }

    method SkipChar(c: char)
      requires theInBuf.Valid()
      modifies `needMoreContent, `theError, theInBuf
      ensures theInBuf.Valid()
      ensures InState() == old(InState()).SkipChar(c)
    {
      if GoodIn() {
        if |theInBuf.Content()| < 1 {
          needMoreContent := true;
        } else if theInBuf.Content()[0] == c {
          theInBuf.Consumed(1);
        } else {
          theError := true;
        }
      }
    }

    method SkipCrLf() returns (skipped: bool)
      requires theInBuf.Valid()
      modifies `needMoreContent, theInBuf
      ensures theInBuf.Valid()
      ensures (InState(), skipped) == old(InState()).SkipCrLf()
    {
      skipped := SkipStr("\r\n");
      if !skipped {
        skipped := SkipStr("\n");
      }
    }

    method SkipTrailer() returns (skipped: bool)
      requires theInBuf.Valid()
      modifies `needMoreContent, `theError, theInBuf
      ensures theInBuf.Valid()
      ensures (InState(), skipped) == old(InState()).SkipTrailer()
    {
      hide In.SkipCrLf, In.SkipStr;
      skipped := SkipStr("END");
      if skipped {
        skipped := SkipCrLf();
        if skipped {
          return;
        }
      }
      if GoodIn() {
        theError := true;
      }
    }

    method GetInt() returns (n: int)
      requires theInBuf.Valid()
      modifies `theError, theInBuf
      ensures theInBuf.Valid()
      ensures (InState(), n) == old(InState()).GetInt()
    {
      hide ScanInt;
      n := -1;
      if GoodIn() {
        var scan := ScanInt(theInBuf.Content());
        if scan.Some? {
          theInBuf.Consumed(scan.value.used);
          n := scan.value.n;
        } else {
          theError := true;
        }
      }
    }

    method GetStr(len: nat) returns (s: string)
      requires theInBuf.Valid()
      modifies `needMoreContent, theInBuf
      ensures theInBuf.Valid()
      ensures (InState(), s) == old(InState()).GetStr(len)
    {
      s := "";
      if GoodIn() {
        if len <= |theInBuf.Content()| {
          s := theInBuf.Content()[..len];
          theInBuf.Consumed(len);
        } else {
          needMoreContent := true;
        }
      }
    }

    method GetField() returns (n: int)
      requires theInBuf.Valid()
      modifies `needMoreContent, `theError, theInBuf
      ensures theInBuf.Valid()
      ensures (InState(), n) == old(InState()).Field()
    {
      hide In.SkipSpace, In.GetInt;
      SkipSpace();
      n := GetInt();
    }

    method GetType() returns (kind: Option<MsgType>)
      requires theInBuf.Valid()
      modifies `needMoreContent, theInBuf
      ensures theInBuf.Valid()
      ensures (InState(), kind) == ReadType(old(InState()))
    {
      hide In.SkipStr;
      var skipped := SkipStr("MSG");
      if skipped { return Some(MSG); }
      skipped := SkipStr("RPY");
      if skipped { return Some(RPY); }
      skipped := SkipStr("ANS");
      if skipped { return Some(ANS); }
      skipped := SkipStr("ERR");
      if skipped { return Some(ERR); }
      skipped := SkipStr("NUL");
      return if skipped then Some(NUL) else None;
    }

    method GetHead(kind: Option<MsgType>, ansNo: int) returns (h: Head)
      requires theInBuf.Valid()
      modifies `needMoreContent, `theError, theInBuf
      ensures theInBuf.Valid()
      ensures (InState(), h) == ReadHead(old(InState()), kind, ansNo)
    {
      hide In.Field, In.SkipSpace, In.SkipChar, In.SkipCrLf;
      var channel := GetField();
      var no := GetField();
      SkipSpace();
      SkipChar('.');
      var seqNo := GetField();
      var size := GetField();
      var ans := ansNo;
      if kind == Some(ANS) {
        ans := GetField();
      }
      var skipped := SkipCrLf();
      h := Head(channel, no, seqNo, size, ans);
    }

    method GetFrame(kind: Option<MsgType>, m: Msg) returns (got: Msg, complete: bool)
      requires theInBuf.Valid()
      modifies `needMoreContent, `theError, theInBuf
      ensures theInBuf.Valid()
      ensures Parsed(InState(), got, complete) == ReadFrame(old(InState()), kind, m)
    {
      hide ReadHead, In.GetStr, In.SkipTrailer;
      var h := GetHead(kind, m.ansNo);
      var image := m.image;
      if h.size >= 0 {
        image := GetStr(h.size);
      }
      complete := SkipTrailer();
      got := Msg(kind, h.channel, h.no, h.seqNo, h.ansNo, image);
    }

    /** Hands a complete message to its channel. */
    method Deliver(m: Msg)
      requires Valid()
      modifies `theError, theInBuf, theInBuf.theBuf, theChannels
      ensures Valid() && theChannels == old(theChannels)
      ensures (InState(), Chans()) == Delivery(old(InState()), old(Chans()), m)
      ensures old(InState()).needMore ==> theInBuf.theBuf[..] == old(theInBuf.theBuf[..])
    {
      var k := FindChannel(m.channel);
      if k == |theChannels| {
        theError := true;
      }
      if GoodIn() {
        var ok := theChannels[k].ConsumedMsg(m);
        if !ok {
          theError := true;
        } else {
          theInBuf.Pack();
        }
        assert Chans() == old(Chans())[k := old(Chans())[k].Consumed(m).0];
      } else {
        assert Chans() == old(Chans());
      }
    }

    /** Reads the next message into `m`; an incomplete one is left for later. */
    method GetMsg(m: Msg) returns (got: Msg, ok: bool)
      requires Valid()
      modifies `needMoreContent, `theError, theInBuf, theInBuf.theBuf, theChannels
      ensures Valid() && theChannels == old(theChannels)
      ensures Got(InState(), Chans(), got, ok) == BeepFraming.GetMsg(old(InState()), old(Chans()), m)
    {
      hide ReadType, ReadFrame, Delivery, Find;
      if !GoodIn() {
        return m, false;
      }
      var outOff, inOff := theInBuf.theOutOff, theInBuf.theInOff;
      var kind := GetType();
      if kind.None? && GoodIn() {
        theError := true;
        return m.(kind := None), false;
      }
      var complete;
      got, complete := GetFrame(kind, m);
      assert Chans() == old(Chans());
      if complete {
        DeliveryKeepsNeed(InState(), Chans(), got);
        Deliver(got);
      }
      if needMoreContent {
        theInBuf.RestoreState(outOff, inOff);
      }
      ok := GoodIn();
    }

    /** More input has arrived. */
    method SpaceInUsed(bytes: string)
      requires Valid() && |bytes| <= theInBuf.SpaceSize()
      modifies `needMoreContent, theInBuf, theInBuf.theBuf
      ensures Valid() && InState() == In(old(theInBuf.Content()) + bytes, false, theError)
    {
      theInBuf.Append(bytes);
      needMoreContent := false;
    }
  }

  lemma DeliveryKeepsNeed(i: In, chans: seq<Chan>, m: Msg)
    ensures Delivery(i, chans, m).0.needMore == i.needMore
  {}
}
