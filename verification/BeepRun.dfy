/** Whole BEEP conversations: what a run of `putMsg` calls puts on the wire, and exactly
    when the peer's `getMsg` calls accept it. */
module BeepRun {
  import opened CText
  import opened Wrappers
  import opened BeepFraming

  /** One `putMsg` call on a session that is not already stuck, and its answer. */
  datatype Attempt = Attempt(kind: MsgType, channel: int, ansNo: int, image: string, accepted: bool)

  predicate Known(chans: seq<Chan>, calls: seq<Attempt>) {
    forall i :: 0 <= i < |calls| ==> Find(chans, calls[i].channel) < |chans|
  }

  function Numbered(c: Chan, a: Attempt): Outgoing {
    Outgoing(a.kind, a.channel, c.nextMsgNo, c.nextSeqNo, a.ansNo, a.image)
  }

  /** A refused call costs its channel a message number all the same. */
  function AfterPut(c: Chan, a: Attempt): Chan {
    if a.accepted then c.Attempted().Added(|a.image|) else c.Attempted()
  }

  function PutAll(chans: seq<Chan>, calls: seq<Attempt>): (r: seq<Outgoing>)
    requires Known(chans, calls)
    decreases |calls|
  {
    if calls == [] then []
    else
      var a, k := calls[0], Find(chans, calls[0].channel);
      var chans' := chans[k := AfterPut(chans[k], a)];
      SameIds(chans, chans', calls);
      (if a.accepted then [Numbered(chans[k], a)] else []) + PutAll(chans', calls[1..])
  }

  function Wire(outs: seq<Outgoing>): string {
    if outs == [] then "" else outs[0].Frame() + Wire(outs[1..])
  }

  /** The messages of up to `n` successive `getMsg` calls, up to the first failure. */
  datatype Reading = Reading(msgs: seq<Msg>, i: In)

  function GetAll(i: In, chans: seq<Chan>, n: nat): Reading
    decreases n
  {
    if n == 0 then Reading([], i)
    else
      var g := GetMsg(i, chans, NoMsg);
      if !g.ok then Reading([], g.i)
      else
        var rest := GetAll(g.i, g.chans, n - 1);
        Reading([g.m] + rest.msgs, rest.i)
  }

  /** Every sequence check along these messages passes. */
  predicate AllExpected(chans: seq<Chan>, outs: seq<Outgoing>)
    decreases |outs|
  {
    outs == [] ||
    var k := Find(chans, outs[0].channel);
    k < |chans| &&
    var (c, ok) := chans[k].Consumed(outs[0].Received());
    ok && AllExpected(chans[k := c], outs[1..])
  }

  lemma {:induction false} FindDepends(a: seq<Chan>, b: seq<Chan>, id: int)
    requires |a| == |b| && forall k :: 0 <= k < |a| ==> a[k].id == b[k].id
    ensures Find(a, id) == Find(b, id)
    decreases |a|
  {
    if a != [] && a[0].id != id {
      FindDepends(a[1..], b[1..], id);
    }
  }

  lemma SameIds(a: seq<Chan>, b: seq<Chan>, calls: seq<Attempt>)
    requires |a| == |b| && forall k :: 0 <= k < |a| ==> a[k].id == b[k].id
    requires Known(a, calls)
    ensures Known(b, calls)
    ensures forall id :: Find(a, id) == Find(b, id)
  {
    forall id
      ensures Find(a, id) == Find(b, id)
    {
      FindDepends(a, b, id);
    }
  }

  // ----- bytes -----

  lemma ReadsOne(o: Outgoing, rest: string, chans: seq<Chan>)
    requires o.Printable()
    requires Find(chans, o.channel) < |chans|
    ensures var k := Find(chans, o.channel);
            var (c, ok) := chans[k].Consumed(o.Received());
            GetMsg(In(o.Frame() + rest, false, false), chans, NoMsg)
              == Got(In(rest, false, !ok), chans[k := c], o.Received(), ok)
  {
    hide ReadType, ReadFrame;
    ReadsFrame(o, rest);
  }

  ghost predicate Delivered(r: Reading, outs: seq<Outgoing>, rest: string) {
    && r.i == In(rest, false, false) && |r.msgs| == |outs|
    && forall i :: 0 <= i < |outs| ==> r.msgs[i] == outs[i].Received()
  }

  lemma GetAllStep(i: In, chans: seq<Chan>, n: nat)
    requires n > 0
    ensures var g := GetMsg(i, chans, NoMsg);
            var rest := GetAll(g.i, g.chans, n - 1);
            GetAll(i, chans, n) == if g.ok then Reading([g.m] + rest.msgs, rest.i) else Reading([], g.i)
  {
    hide GetMsg;
  }

  /** The bytes of the accepted messages read back as those messages, in order, exactly
      when all sequence checks pass; otherwise reading stops in an error. */
  lemma {:induction false} WireReadsBack(outs: seq<Outgoing>, rest: string, chans: seq<Chan>)
    requires forall i :: 0 <= i < |outs| ==> outs[i].Printable() && Find(chans, outs[i].channel) < |chans|
    ensures var r := GetAll(In(Wire(outs) + rest, false, false), chans, |outs|);
            if AllExpected(chans, outs) then Delivered(r, outs, rest) else r.i.error
    decreases |outs|
  {
    hide GetMsg, GetAll, Find, AllExpected, Delivered, Outgoing.Frame, Outgoing.Received, Chan.Consumed;
    if outs == [] {
      NothingToRead(rest, chans);
    } else {
      var o, more := outs[0], Wire(outs[1..]) + rest;
      WireSteps(outs, rest);
      GetAllStep(In(o.Frame() + more, false, false), chans, |outs|);
      ReadsOne(o, more, chans);
      var k := Find(chans, o.channel);
      var (c, ok) := chans[k].Consumed(o.Received());
      ExpectedStep(chans, outs, k, c, ok);
      if ok {
        SameFind(outs, chans, chans[k := c], k, c);
        WireReadsBack(outs[1..], rest, chans[k := c]);
        DeliveredMore(GetAll(In(more, false, false), chans[k := c], |outs| - 1), outs, rest);
      }
    }
  }

  lemma NothingToRead(rest: string, chans: seq<Chan>)
    ensures AllExpected(chans, [])
    ensures Delivered(GetAll(In(Wire([]) + rest, false, false), chans, 0), [], rest)
  {
    assert "" + rest == rest;
  }

  lemma ExpectedStep(chans: seq<Chan>, outs: seq<Outgoing>, k: nat, c: Chan, ok: bool)
    requires outs != [] && k == Find(chans, outs[0].channel) < |chans|
    requires (c, ok) == chans[k].Consumed(outs[0].Received())
    ensures AllExpected(chans, outs) == (ok && AllExpected(chans[k := c], outs[1..]))
  {
    hide Find, Chan.Consumed, Outgoing.Received;
  }

  lemma DeliveredMore(r: Reading, outs: seq<Outgoing>, rest: string)
    requires outs != []
    ensures Delivered(r, outs[1..], rest) ==>
              Delivered(Reading([outs[0].Received()] + r.msgs, r.i), outs, rest)
  {
    hide Outgoing.Received;
  }

  lemma WireSteps(outs: seq<Outgoing>, rest: string)
    requires outs != []
    ensures Wire(outs) + rest == outs[0].Frame() + (Wire(outs[1..]) + rest)
  {
    hide Outgoing.Frame;
  }

  lemma SameFind(outs: seq<Outgoing>, a: seq<Chan>, b: seq<Chan>, k: nat, c: Chan)
    requires k < |a| && b == a[k := c] && c.id == a[k].id
    requires forall i :: 0 <= i < |outs| ==> Find(a, outs[i].channel) < |a|
    ensures forall i :: 0 <= i < |outs| ==> Find(b, outs[i].channel) < |b|
  {
    StillKnown(outs, a, b);
  }

  lemma StillKnown(outs: seq<Outgoing>, a: seq<Chan>, b: seq<Chan>)
    requires |a| == |b| && forall k :: 0 <= k < |a| ==> a[k].id == b[k].id
    requires forall i :: 0 <= i < |outs| ==> Find(a, outs[i].channel) < |a|
    ensures forall i :: 0 <= i < |outs| ==> Find(b, outs[i].channel) < |b|
  {
    forall o: Outgoing | o in outs
      ensures Find(b, o.channel) == Find(a, o.channel)
    {
      FindDepends(a, b, o.channel);
    }
  }

  // ----- numbering -----

  /** A refused call sits between two accepted ones of the same channel. */
  ghost predicate GapAt(calls: seq<Attempt>, i: int, j: int, k: int) {
    && 0 <= i < j < k < |calls|
    && calls[i].channel == calls[j].channel == calls[k].channel
    && calls[i].accepted && !calls[j].accepted && calls[k].accepted
  }

  ghost predicate GapFree(calls: seq<Attempt>) {
    forall i, j, k :: !GapAt(calls, i, j, k)
  }

  /** Some accepted call on the channel; one that a refusal follows. */
  ghost predicate Started(calls: seq<Attempt>, id: int) {
    exists i :: 0 <= i < |calls| && calls[i].channel == id && calls[i].accepted
  }

  ghost predicate Gapped(calls: seq<Attempt>, id: int) {
    exists i, j :: 0 <= i < j < |calls| && calls[i].channel == id && calls[i].accepted
                   && calls[j].channel == id && !calls[j].accepted
  }

  /** Where one channel's two ends stand after the calls `done`. */
  ghost predicate InStep(done: seq<Attempt>, id: int, sender: Chan, receiver: Chan) {
    && sender.nextMsgNo >= 0 && sender.nextSeqNo >= 0
    && (!Started(done, id) ==> receiver.expMsgNo < 0 && receiver.expSeqNo < 0)
    && (Started(done, id) ==>
          && receiver.expSeqNo == sender.nextSeqNo
          && 0 < receiver.expMsgNo <= sender.nextMsgNo
          && (receiver.expMsgNo < sender.nextMsgNo <==> Gapped(done, id)))
  }

  ghost predicate AllInStep(done: seq<Attempt>, senders: seq<Chan>, receivers: seq<Chan>) {
    && |senders| == |receivers|
    && (forall k :: 0 <= k < |senders| ==> senders[k].id == receivers[k].id)
    && (forall k :: 0 <= k < |senders| && Find(senders, senders[k].id) == k ==>
          InStep(done, senders[k].id, senders[k], receivers[k]))
  }

  lemma OtherChannels(done: seq<Attempt>, a: Attempt, id: int)
    requires a.channel != id
    ensures Started(done + [a], id) == Started(done, id)
    ensures Gapped(done + [a], id) == Gapped(done, id)
  {
    var all := done + [a];
    assert forall i :: 0 <= i < |done| ==> all[i] == done[i];
    if Started(done, id) {
      var i :| 0 <= i < |done| && done[i].channel == id && done[i].accepted;
      assert all[i] == done[i];
    }
    if Gapped(done, id) {
      var i, j :| 0 <= i < j < |done| && done[i].channel == id && done[i].accepted
                  && done[j].channel == id && !done[j].accepted;
      assert all[i] == done[i] && all[j] == done[j];
    }
  }

  lemma SameChannel(done: seq<Attempt>, a: Attempt)
    ensures Started(done + [a], a.channel) == (Started(done, a.channel) || a.accepted)
    ensures Gapped(done + [a], a.channel) == (Gapped(done, a.channel) || (Started(done, a.channel) && !a.accepted))
  {
    var all, id := done + [a], a.channel;
    assert all[|done|] == a;
    assert forall i :: 0 <= i < |done| ==> all[i] == done[i];
    if Started(done, id) {
      var i :| 0 <= i < |done| && done[i].channel == id && done[i].accepted;
      assert all[i] == done[i];
    }
    if Gapped(done, id) {
      var i, j :| 0 <= i < j < |done| && done[i].channel == id && done[i].accepted
                  && done[j].channel == id && !done[j].accepted;
      assert all[i] == done[i] && all[j] == done[j];
    }
  }

  /** An accepted call passes the receiver's checks exactly when no gap is open on its channel. */
  lemma OneMore(done: seq<Attempt>, a: Attempt, sender: Chan, receiver: Chan)
    requires InStep(done, a.channel, sender, receiver)
    ensures !a.accepted ==> InStep(done + [a], a.channel, AfterPut(sender, a), receiver)
    ensures a.accepted ==>
              var (c, ok) := receiver.Consumed(Numbered(sender, a).Received());
              && ok == !Gapped(done, a.channel)
              && (ok ==> InStep(done + [a], a.channel, AfterPut(sender, a), c))
  {
    SameChannel(done, a);
    if Gapped(done, a.channel) {
      assert Started(done, a.channel);
    }
  }

  lemma GapFreeGrows(done: seq<Attempt>, a: Attempt)
    requires GapFree(done)
    ensures GapFree(done + [a]) <==> !(a.accepted && Gapped(done, a.channel))
  {
    var all := done + [a];
    assert all[|done|] == a && forall i :: 0 <= i < |done| ==> all[i] == done[i];
    if a.accepted && Gapped(done, a.channel) {
      var i, j :| 0 <= i < j < |done| && done[i].channel == a.channel && done[i].accepted
                  && done[j].channel == a.channel && !done[j].accepted;
      assert GapAt(all, i, j, |done|);
    } else {
      forall i, j, k
        ensures !GapAt(all, i, j, k)
      {
        assert !GapAt(done, i, j, k);
      }
    }
  }

  lemma PrefixGap(done: seq<Attempt>, more: seq<Attempt>)
    requires !GapFree(done)
    ensures !GapFree(done + more)
  {
    var i, j, k :| GapAt(done, i, j, k);
    assert GapAt(done + more, i, j, k);
  }

  lemma KeepsStep(done: seq<Attempt>, a: Attempt, senders: seq<Chan>, receivers: seq<Chan>,
                  k: nat, s: Chan, r: Chan)
    requires AllInStep(done, senders, receivers)
    requires k == Find(senders, a.channel) < |senders|
    requires s.id == r.id == a.channel && InStep(done + [a], a.channel, s, r)
    ensures AllInStep(done + [a], senders[k := s], receivers[k := r])
  {
    hide InStep;
    var senders', receivers' := senders[k := s], receivers[k := r];
    forall j | 0 <= j < |senders| && Find(senders', senders'[j].id) == j
      ensures InStep(done + [a], senders'[j].id, senders'[j], receivers'[j])
    {
      if j != k {
        FindDepends(senders, senders', senders[j].id);
        SameElsewhere(done, a, senders[j], receivers[j]);
      }
    }
  }

  lemma SameElsewhere(done: seq<Attempt>, a: Attempt, s: Chan, r: Chan)
    requires a.channel != s.id
    ensures InStep(done + [a], s.id, s, r) == InStep(done, s.id, s, r)
  {
    OtherChannels(done, a, s.id);
  }

  /** One call and the rest of the run, on the sender's and the receiver's side. */
  lemma PutAllStep(senders: seq<Chan>, receivers: seq<Chan>, calls: seq<Attempt>)
    requires Known(senders, calls) && calls != []
    requires |senders| == |receivers| && forall k :: 0 <= k < |senders| ==> senders[k].id == receivers[k].id
    ensures var a, k := calls[0], Find(senders, calls[0].channel);
            var senders' := senders[k := AfterPut(senders[k], a)];
            var (c, ok) := receivers[k].Consumed(Numbered(senders[k], a).Received());
            && Known(senders', calls)
            && AllExpected(receivers, PutAll(senders, calls))
               == (if !a.accepted then AllExpected(receivers, PutAll(senders', calls[1..]))
                   else ok && AllExpected(receivers[k := c], PutAll(senders', calls[1..])))
  {
    hide Find;
    var a, k := calls[0], Find(senders, calls[0].channel);
    FindDepends(senders, receivers, a.channel);
    var senders' := senders[k := AfterPut(senders[k], a)];
    SameIds(senders, senders', calls);
    var more := PutAll(senders', calls[1..]);
    if a.accepted {
      assert PutAll(senders, calls) == [Numbered(senders[k], a)] + more;
      assert ([Numbered(senders[k], a)] + more)[1..] == more;
    } else {
      assert [] + more == more;
    }
  }

  lemma SenderInStep(done: seq<Attempt>, calls: seq<Attempt>, senders: seq<Chan>, receivers: seq<Chan>)
    requires Known(senders, calls) && AllInStep(done, senders, receivers) && calls != []
    ensures var k := Find(senders, calls[0].channel);
      k < |senders| == |receivers| && InStep(done, calls[0].channel, senders[k], receivers[k])
  {
    hide InStep;
  }

  lemma {:induction false} ExpectedIffGapFree(done: seq<Attempt>, calls: seq<Attempt>,
                                              senders: seq<Chan>, receivers: seq<Chan>)
    requires Known(senders, calls) && AllInStep(done, senders, receivers) && GapFree(done)
    ensures AllExpected(receivers, PutAll(senders, calls)) <==> GapFree(done + calls)
    decreases |calls|
  {
    if calls == [] {
      assert done + calls == done;
    } else {
      hide InStep, Find, GapFree, PutAll, AllExpected, Chan.Consumed, AfterPut, AllInStep;
      var a, k := calls[0], Find(senders, calls[0].channel);
      SenderInStep(done, calls, senders, receivers);
      var s := AfterPut(senders[k], a);
      var (c, ok) := receivers[k].Consumed(Numbered(senders[k], a).Received());
      PutAllStep(senders, receivers, calls);
      OneMore(done, a, senders[k], receivers[k]);
      GapFreeGrows(done, a);
      assert done + calls == done + [a] + calls[1..];
      if a.accepted && !ok {
        PrefixGap(done + [a], calls[1..]);
      } else {
        var r := if a.accepted then c else receivers[k];
        KeepsStep(done, a, senders, receivers, k, s, r);
        assert receivers[k := receivers[k]] == receivers;
        ExpectedIffGapFree(done + [a], calls[1..], senders[k := s], receivers[k := r]);
      }
    }
  }

  predicate FreshEnds(senders: seq<Chan>, receivers: seq<Chan>) {
    && |senders| == |receivers|
    && forall k :: 0 <= k < |senders| ==> senders[k] == receivers[k] == NewChan(senders[k].id)
  }

  /** Between fresh sessions with the same channels, everything accepted comes back in
      order, with every sequence check passing, exactly when no refused `putMsg` lies
      between two accepted ones of one channel. */
  lemma ConversationTheorem(senders: seq<Chan>, receivers: seq<Chan>, calls: seq<Attempt>, rest: string)
    requires FreshEnds(senders, receivers) && Known(senders, calls)
    requires forall i :: 0 <= i < |PutAll(senders, calls)| ==> PutAll(senders, calls)[i].Printable()
    ensures var outs := PutAll(senders, calls);
            var r := GetAll(In(Wire(outs) + rest, false, false), receivers, |outs|);
            if GapFree(calls) then Delivered(r, outs, rest) else r.i.error
  {
    hide GetAll, Wire, PutAll, GapFree, AllExpected;
    assert [] + calls == calls;
    NothingDone();
    ExpectedIffGapFree([], calls, senders, receivers);
    KnownOnTheWire(senders, receivers, calls);
    WireReadsBack(PutAll(senders, calls), rest, receivers);
  }

  lemma NothingDone()
    ensures GapFree([])
  {}

  lemma {:induction false} KnownOnTheWire(senders: seq<Chan>, receivers: seq<Chan>, calls: seq<Attempt>)
    requires |senders| == |receivers| && forall k :: 0 <= k < |senders| ==> senders[k].id == receivers[k].id
    requires Known(senders, calls)
    ensures forall i :: 0 <= i < |PutAll(senders, calls)| ==>
              Find(receivers, PutAll(senders, calls)[i].channel) < |receivers|
    decreases |calls|
  {
    if calls != [] {
      hide Find;
      var k := Find(senders, calls[0].channel);
      var senders' := senders[k := AfterPut(senders[k], calls[0])];
      SameIds(senders, senders', calls);
      KnownOnTheWire(senders', receivers, calls[1..]);
      FindDepends(senders, receivers, calls[0].channel);
    }
  }

  /** One refusal is enough: two accepted messages around it do not both arrive. */
  lemma OneRefusalLosesTheNext(rest: string)
    ensures var calls, ends := AroundRefusal(), [NewChan(0)];
      && Known(ends, calls) && |PutAll(ends, calls)| == 2
      && GetAll(In(Wire(PutAll(ends, calls)) + rest, false, false), ends, 2).i.error
  {
    hide GetAll, Wire, PutAll, GapFree, GapAt, Outgoing.Printable, Known, AroundRefusal;
    var ends := [NewChan(0)];
    PutsTwo();
    HasGap();
    ConversationTheorem(ends, ends, AroundRefusal(), rest);
  }

  lemma HasGap()
    ensures !GapFree(AroundRefusal())
  {
    assert GapAt(AroundRefusal(), 0, 1, 2);
  }

  function Say(image: string, accepted: bool): Attempt { Attempt(MSG, 0, -1, image, accepted) }

  function AroundRefusal(): seq<Attempt> {
    [Say("a", true)] + ([Say("b", false)] + ([Say("c", true)] + []))
  }

  lemma PutsTwo()
    ensures Known([NewChan(0)], AroundRefusal()) && |PutAll([NewChan(0)], AroundRefusal())| == 2
    ensures forall i :: 0 <= i < 2 ==> PutAll([NewChan(0)], AroundRefusal())[i].Printable()
  {
    hide PutAll, Known, Outgoing.Printable, AfterPut;
    var x := NewChan(0);
    KnownByOne(x, AroundRefusal());
    OneCall(x, Say("a", true), [Say("b", false)] + ([Say("c", true)] + []));
    var y := AfterPut(x, Say("a", true));
    OneCall(y, Say("b", false), [Say("c", true)] + []);
    var z := AfterPut(y, Say("b", false));
    OneCall(z, Say("c", true), []);
    PutsNothing(AfterPut(z, Say("c", true)));
    BothPrintable(x, Say("a", true), Say("b", false), Say("c", true));
  }

  lemma BothPrintable(x: Chan, a: Attempt, b: Attempt, c: Attempt)
    requires x.nextMsgNo == x.nextSeqNo == 0 && a.channel == c.channel == 0
    requires a.ansNo == c.ansNo == -1 && |a.image| == |c.image| == 1 && a.accepted && !b.accepted
    ensures Numbered(x, a).Printable() && Numbered(AfterPut(AfterPut(x, a), b), c).Printable()
  {}

  lemma KnownByOne(c: Chan, calls: seq<Attempt>)
    requires forall i :: 0 <= i < |calls| ==> calls[i].channel == c.id
    ensures Known([c], calls)
  {}

  lemma PutsNothing(c: Chan)
    ensures PutAll([c], []) == []
  {}

  lemma OneCall(c: Chan, a: Attempt, more: seq<Attempt>)
    requires a.channel == c.id && Known([c], [a] + more)
    ensures Known([AfterPut(c, a)], more) && AfterPut(c, a).id == c.id
    ensures PutAll([c], [a] + more) ==
      (if a.accepted then [Numbered(c, a)] else []) + PutAll([AfterPut(c, a)], more)
  {
    var calls := [a] + more;
    assert calls[1..] == more && Find([c], a.channel) == 0;
    assert [c][0 := AfterPut(c, a)] == [AfterPut(c, a)];
    SameIds([c], [AfterPut(c, a)], calls);
  }
}
