/** Progress of the pipeline: what a write callback puts on the wire, and that enough of
    them bring every request out. */
module PipelineDrain {
  import opened PipelineSpec
  import opened Wrappers
  import opened PipelineOrder
  import opened PipelineRuns

  // ----- filling -----

  /** Body bytes went into the buffer: no more than offered, none beyond the request or the
      buffer, and as many as that allows. */
  predicate PouredAllItCould(before: Xact, held: nat, after: Xact, held': nat, capacity: nat, offer: nat) {
    && after == before.(actual := after.actual)
    && after.actual - before.actual == held' - held
    && before.actual <= after.actual <= before.actual + offer && held' <= capacity
    && (before.actual <= before.expected ==> after.actual <= after.expected)
    && (after.actual == before.actual + offer || held' == capacity || after.actual >= after.expected)
  }

  /** What filling comes to: a request without a header waits until half the buffer is free
      and fails if its header would fill the buffer up; then body bytes follow.  More is
      needed if the body was incomplete before they did. */
  predicate FilledUp(x: Xact, held: nat, capacity: nat, offer: nat, r: Filled) {
    if x.expected >= 0 then
      r.ok && PouredAllItCould(x, held, r.xact, r.held, capacity, offer) && (r.needMore <==> x.actual < x.expected)
    else if 2 * (capacity - held) + 2 <= capacity then r == Filled(true, true, x, held)
    else if held + x.header >= capacity then !r.ok
    else
      && r.ok && (r.needMore <==> x.body > 0)
      && PouredAllItCould(Xact(x.header, x.body, x.header + x.body, x.header), held + x.header,
                          r.xact, r.held, capacity, offer)
  }

  lemma FillTheorem(x: Xact, held: nat, capacity: nat, offer: nat)
    requires held <= capacity
    ensures FilledUp(x, held, capacity, offer, Fill(x, held, capacity, offer))
  {}

  // ----- one callback -----

  /** A write callback sends what the socket takes of what is in the buffer after filling,
      provided somebody stands among the writers; nothing else leaves the buffer. */
  lemma WireTheorem(p: Pipe, offers: seq<nat>, sent: nat)
    requires Sound(p) && FillLine(p, offers).Some?
    ensures var f, q := FillLine(p, offers).value, Step(p, WriteReady(offers, sent)).value;
      && q.wire - p.wire == (if f.writers == [] then 0 else if sent < f.held then sent else f.held)
      && q.held == f.held - (q.wire - p.wire)
      && q.xacts == f.xacts
  {
    hide Fill, FillLine, JoinLine, MoveOn;
    FillKeepsWire(p, offers);
    MoveKeepsWire(WriteOnce(FillLine(p, offers).value, sent));
  }

  lemma {:induction false} FillKeepsWire(p: Pipe, offers: seq<nat>)
    requires Sound(p) && FillLine(p, offers).Some?
    ensures var f := FillLine(p, offers).value;
      f.wire == p.wire && f.wrSize == p.wrSize && f.capacity == p.capacity && |f.fillers| <= |p.fillers|
    decreases |p.fillers|
  {
    hide Fill, Sound, JoinLine;
    if p.fillers != [] && p.held < p.capacity {
      var x, offer := p.fillers[0], if offers == [] then 0 else offers[0];
      HeadIsSound(p);
      var r := Fill(p.xacts[x], p.held, p.capacity, offer);
      var q := p.(xacts := p.xacts[x := r.xact], held := r.held, writers := JoinLine(p.writers, x));
      var q' := q.(fillers := q.fillers[1..]);
      SoundAfterFill(p, offer, x, r, q, q');
      if !r.needMore {
        FillKeepsWire(q', if offers == [] then [] else offers[1..]);
      }
    }
  }

  lemma {:induction false} MoveKeepsWire(p: Pipe)
    requires Sound(p)
    ensures var q := MoveOn(p);
      q.wire == p.wire && q.held == p.held && q.xacts == p.xacts && q.fillers == p.fillers && q.capacity == p.capacity
    decreases |p.writers|
  {
    if p.writers == [] || p.wrSize <= 0 {
    } else {
      var w := p.writers[0];
      if p.wrSize >= p.xacts[w].expected {
        MoveKeepsWire(Left(p, w));
      }
    }
  }

  // ----- nothing is held up -----

  /** With an empty buffer no credit is left: all that is filled has been claimed. */
  lemma NoCreditLeft(p: Pipe, w: nat, f: nat)
    requires Sound(p) && Inv(p) && Bodiless(p) && p.held == 0
    requires w == WriteFront(p) && f == FillFront(p)
    ensures p.wrSize == 0 && w == f && p.wire == Bytes(p.xacts)
  {
    hide Bytes, Full, Begun, Fresh, Window;
    var n := |p.xacts|;
    FrontsFit(p, w, f);
    FillersAreFresh(p, f);
    FreshBytes(p.xacts, f, n);
    assert p.xacts[..n] == p.xacts;
    if w < f {
      BytesStep(p.xacts, w);
      BytesGrow(p.xacts, w + 1, f);
      BeganOrFull(p.xacts[w]);
      if p.wrSize > 0 {
        FirstWriter(p, w);
      }
    }
  }

  lemma FirstWriter(p: Pipe, w: nat)
    requires Inv(p) && w == WriteFront(p) && p.wrSize > 0
    ensures p.writers != [] && w < |p.xacts| && p.wrSize < p.xacts[w].expected
  {
    hide Bytes, Full, Begun, Fresh;
    WindowTail(w, w + |p.writers|);
  }

  lemma FillersAreFresh(p: Pipe, f: nat)
    requires Sound(p) && Inv(p) && Bodiless(p) && f == FillFront(p) <= |p.xacts|
    ensures forall i :: f <= i < |p.xacts| ==> Fresh(p.xacts[i])
  {
    hide Progress, Credit, Waiting, Fresh;
    forall i | f <= i < |p.xacts| ensures Fresh(p.xacts[i]) {
      assert Lines(p, WriteFront(p), f);
      assert p.fillers[i - f] == i;
    }
  }

  /** With the buffer empty, every filled request is among the readers or finished. */
  lemma DrainedTheorem(p: Pipe, x: nat)
    requires Sound(p) && Inv(p) && Bodiless(p) && p.held == 0 && x < |p.xacts|
    ensures Full(p.xacts[x]) <==> x in p.finished || x in p.readers
    ensures Full(p.xacts[x]) <==> x !in p.fillers
    ensures p.wire == Bytes(p.xacts) && p.wrSize == 0
  {
    hide Bytes, Full, Begun, Fresh;
    var w, f, n, done := WriteFront(p), FillFront(p), |p.xacts|, |p.finished|;
    FrontsFit(p, w, f);
    NoCreditLeft(p, w, f);
    FillersAreFresh(p, f);
    WindowHas(f, n, x);
    WindowHas(0, done, x);
    WindowHas(done, done + |p.readers|, x);
    if x >= f {
      HeadersShow(p.xacts[x]);
    }
  }

  lemma HeadersShow(x: Xact)
    requires x.header > 0 && Fresh(x)
    ensures !Full(x)
  {}

  // ----- enough callbacks bring everything out -----

  /** A write callback in which the socket takes all that is in the buffer after filling. */
  predicate Covers(p: Pipe, e: Event)
    requires Sound(p)
  {
    e.WriteReady? && (FillLine(p, e.offers).Some? ==> e.sent >= FillLine(p, e.offers).value.held)
  }

  /** Every event of the run is such a callback. */
  predicate AllCover(p: Pipe, es: seq<Event>)
    requires Sound(p)
    decreases |es|
  {
    es == [] || (Covers(p, es[0]) && (Step(p, es[0]).Some? ==> AllCover(Step(p, es[0]).value, es[1..])))
  }

  lemma CoverDrains(p: Pipe, e: Event)
    requires Sound(p) && Inv(p) && Bodiless(p) && Covers(p, e) && Step(p, e).Some?
    ensures var q := Step(p, e).value;
      Inv(q) && Bodiless(q) && q.held == 0 && q.capacity == p.capacity && |q.fillers| <= |p.fillers|
  {
    hide Inv, Bodiless, FillLine, MoveOn, InTime, Sound;
    BodilessIsInTime(p, e);
    StepTheorem(p, e);
    WireTheorem(p, e.offers, e.sent);
    FillKeepsWire(p, e.offers);
    var f, q := FillLine(p, e.offers).value, Step(p, e).value;
    WriteIsSound(f, e.sent);
    MoveKeepsWire(WriteOnce(f, e.sent));
    if f.writers == [] {
      NobodyWrites(f, e.sent);
      NobodyHolds(q);
    }
  }

  lemma WriteIsSound(p: Pipe, sent: nat)
    requires Sound(p)
    ensures Sound(WriteOnce(p, sent))
  {}

  lemma NobodyWrites(p: Pipe, sent: nat)
    requires Sound(p) && p.writers == []
    ensures MoveOn(WriteOnce(p, sent)) == p
  {}

  lemma NobodyHolds(p: Pipe)
    requires Sound(p) && Inv(p) && p.writers == []
    ensures p.held == 0
  {
    hide Inv;
    CreditTheorem(p);
    PositiveCredit(p);
  }

  lemma PositiveCredit(p: Pipe)
    requires Inv(p)
    ensures p.wrSize >= 0
  {}

  /** With room in the buffer and nothing in it, the head filler gets its request out. */
  lemma FillsTheHead(p: Pipe, offers: seq<nat>)
    requires Sound(p) && Bodiless(p) && p.held == 0 < p.capacity && p.fillers != []
    requires FillLine(p, offers).Some?
    ensures |FillLine(p, offers).value.fillers| < |p.fillers|
  {
    hide FillLine, Sound, Fill, JoinLine;
    var x, offer := p.fillers[0], if offers == [] then 0 else offers[0];
    HeadIsSound(p);
    assert Fresh(p.xacts[x]);
    MakesTheHeader(p.xacts[x], p.capacity, offer);
    FillLineStep(p, offers);
  }

  lemma MakesTheHeader(x: Xact, capacity: nat, offer: nat)
    requires Fresh(x) && x.body == 0
    ensures Fill(x, 0, capacity, offer).ok ==> !Fill(x, 0, capacity, offer).needMore
  {}

  lemma FillLineStep(p: Pipe, offers: seq<nat>)
    requires Sound(p) && p.fillers != [] && p.held < p.capacity
    requires var r := Fill(p.xacts[p.fillers[0]], p.held, p.capacity, if offers == [] then 0 else offers[0]);
      r.ok ==> !r.needMore
    ensures FillLine(p, offers).Some? ==> |FillLine(p, offers).value.fillers| < |p.fillers|
  {
    hide Fill, Sound, JoinLine;
    var x, offer := p.fillers[0], if offers == [] then 0 else offers[0];
    HeadIsSound(p);
    var r := Fill(p.xacts[x], p.held, p.capacity, offer);
    if r.ok {
      var q := p.(xacts := p.xacts[x := r.xact], held := r.held, writers := JoinLine(p.writers, x));
      var q' := q.(fillers := q.fillers[1..]);
      SoundAfterFill(p, offer, x, r, q, q');
      if FillLine(q', if offers == [] then [] else offers[1..]).Some? {
        FillKeepsWire(q', if offers == [] then [] else offers[1..]);
      }
    }
  }

  lemma {:induction false} CoversGoOn(p: Pipe, es: seq<Event>)
    requires Sound(p) && Inv(p) && Bodiless(p) && p.held == 0 < p.capacity
    requires AllCover(p, es) && |es| >= |p.fillers| && Run(p, es).Some?
    ensures var q := Run(p, es).value;
      Inv(q) && Bodiless(q) && q.held == 0 && q.fillers == []
    decreases |es|
  {
    hide Inv, Bodiless, FillLine, Step, Sound;
    if es != [] {
      CoverDrains(p, es[0]);
      if p.fillers != [] {
        StepFillsTheHead(p, es[0]);
      }
      CoversGoOn(Step(p, es[0]).value, es[1..]);
    }
  }

  lemma StepFillsTheHead(p: Pipe, e: Event)
    requires Sound(p) && Bodiless(p) && p.held == 0 < p.capacity && p.fillers != []
    requires Covers(p, e) && Step(p, e).Some?
    ensures |Step(p, e).value.fillers| < |p.fillers|
  {
    hide FillLine, MoveOn, Sound, Bodiless;
    FillsTheHead(p, e.offers);
    WriteIsSound(FillLine(p, e.offers).value, e.sent);
    MoveKeepsWire(WriteOnce(FillLine(p, e.offers).value, e.sent));
  }

  /** One covering callback more than there are fillers, and every request is wholly on the
      wire and has become a reader or finished, in the order of control. */
  lemma DrainTheorem(p: Pipe, es: seq<Event>)
    requires Sound(p) && Inv(p) && Bodiless(p) && p.capacity > 0
    requires AllCover(p, es) && |es| > |p.fillers| && Run(p, es).Some?
    ensures var q := Run(p, es).value;
      && q.wire == Bytes(q.xacts) && q.finished + q.readers == Window(0, |q.xacts|)
      && forall x :: 0 <= x < |q.xacts| ==> Full(q.xacts[x]) && (x in q.finished || x in q.readers)
  {
    hide Inv, Bodiless, FillLine, Step, Sound, Full, Bytes, Window;
    var q := Step(p, es[0]).value;
    CoverDrains(p, es[0]);
    CoversGoOn(q, es[1..]);
    AllOut(Run(q, es[1..]).value);
  }

  lemma AllOut(p: Pipe)
    requires Sound(p) && Inv(p) && Bodiless(p) && p.held == 0 && p.fillers == []
    ensures p.wire == Bytes(p.xacts) && p.finished + p.readers == Window(0, |p.xacts|)
    ensures forall x :: 0 <= x < |p.xacts| ==> Full(p.xacts[x]) && (x in p.finished || x in p.readers)
  {
    hide Bytes, Full, Bodiless, Begun, Fresh;
    var n := |p.xacts|;
    NoCreditLeft(p, WriteFront(p), FillFront(p));
    FrontsFit(p, WriteFront(p), FillFront(p));
    assert p.fillers == Window(FillFront(p), n);
    JoinedWindows(0, |p.finished|, |p.finished| + |p.readers|);
    forall x: nat | x < n ensures Full(p.xacts[x]) && (x in p.finished || x in p.readers) {
      DrainedTheorem(p, x);
    }
  }
}
