/** Whole runs of the pipeline: when the order and the credit hold throughout, what they
    say, and how a request body can break them. */
module PipelineRuns {
  import opened PipelineSpec
  import opened Wrappers
  import opened PipelineOrder

  predicate ValidEvent(e: Event) { e.Controlled? ==> e.header > 0 }

  /** The event comes in time: a response is over only after its request has left the
      writers, and no write sends off the last of a body poured in the same callback. */
  predicate InTime(p: Pipe, e: Event)
    requires Sound(p)
  {
    match e
    case Controlled(_, _) => true
    case WriteReady(offers, sent) =>
      var f := FillLine(p, offers);
      f.Some? ==> !Late(WriteOnce(f.value, sent))
    case ResponseDone => p.readers != [] ==> p.readers[0] !in p.writers
  }

  lemma ControlKeepsCredit(p: Pipe, w: nat, x: Xact)
    requires Credit(p, w) && x.actual == 0
    ensures Credit(Control(p, x), w)
  {
    hide Bytes;
    var q, n := Control(p, x), |p.xacts|;
    assert q.xacts[..n] == p.xacts && q.xacts[..w] == p.xacts[..w];
    BytesStep(q.xacts, n);
    assert q.xacts[..n + 1] == q.xacts;
  }

  lemma ControlKeepsLines(p: Pipe, w: nat, f: nat, x: Xact)
    requires Lines(p, w, f)
    ensures Lines(Control(p, x), w, f)
  {
    hide Window;
    WindowSnoc(f, |p.xacts|);
  }

  lemma ControlKeepsProgress(p: Pipe, w: nat, f: nat, x: Xact)
    requires Progress(p, w, f) && Fresh(x) && x.header > 0
    ensures f <= |p.xacts| ==> Progress(Control(p, x), w, f)
  {
    hide Full, Begun, Fresh;
  }

  lemma ControlKeepsInv(p: Pipe, header: nat, body: nat)
    requires Inv(p) && header > 0
    ensures Inv(Control(p, NewXact(header, body)))
  {
    hide Lines, Progress, Credit;
    var w, f, x := WriteFront(p), FillFront(p), NewXact(header, body);
    ControlKeepsLines(p, w, f, x);
    ControlKeepsProgress(p, w, f, x);
    ControlKeepsCredit(p, w, x);
    FrontsFit(p, w, f);
  }

  lemma FrontsFit(p: Pipe, w: nat, f: nat)
    requires Lines(p, w, f)
    ensures w <= f <= |p.xacts|
    ensures p.writers != [] ==> w < |p.xacts|
  {}

  lemma WindowHas(lo: nat, hi: nat, x: nat)
    requires lo <= hi
    ensures x in Window(lo, hi) <==> lo <= x < hi
  {
    if lo <= x < hi {
      assert Window(lo, hi)[x - lo] == x;
    }
  }

  lemma DoneKeepsInv(p: Pipe)
    requires Inv(p) && p.readers != []
    ensures var q := p.(readers := p.readers[1..], finished := p.finished + [p.readers[0]], reading := |p.readers| > 1);
      Inv(q) <==> p.readers[0] !in p.writers
  {
    hide Full, Begun, Fresh, Bytes, Window;
    var w, done := WriteFront(p), |p.finished|;
    WindowTail(done, done + |p.readers|);
    WindowSnoc(0, done);
    WindowHas(w, w + |p.writers|, done);
  }

  lemma WriteReadyKeepsInv(p: Pipe, offers: seq<nat>, sent: nat)
    requires Sound(p) && Inv(p) && FillLine(p, offers).Some?
    ensures var m := WriteOnce(FillLine(p, offers).value, sent);
      Sound(m) && if Late(m) then Overtaken(MoveOn(m)) else Inv(MoveOn(m))
  {
    hide Lines, Progress, Credit, FillLine, MoveOn, Late, Overtaken;
    var w, f := WriteFront(p), FillFront(p);
    FillKeepsPhase(p, offers, w, f);
    var g := FillLine(p, offers).value;
    WriteKeepsPhase(g, sent, w, FillFront(g));
    MoveOnTheorem(WriteOnce(g, sent), w, FillFront(g));
  }

  /** One event keeps order and credit exactly when it comes in time. */
  lemma StepTheorem(p: Pipe, e: Event)
    requires Sound(p) && Inv(p) && ValidEvent(e) && Step(p, e).Some?
    ensures Inv(Step(p, e).value) <==> InTime(p, e)
  {
    hide Inv, Sound, FillLine, MoveOn, Late, Overtaken;
    match e
    case Controlled(header, body) => ControlKeepsInv(p, header, body);
    case WriteReady(offers, sent) =>
      WriteReadyKeepsInv(p, offers, sent);
      var m := WriteOnce(FillLine(p, offers).value, sent);
      if Late(m) {
        OvertakenBreaks(MoveOn(m));
      }
    case ResponseDone => DoneKeepsInv(p);
  }

  // ----- runs -----

  function Run(p: Pipe, es: seq<Event>): (r: Option<Pipe>)
    requires Sound(p)
    ensures r.Some? ==> Sound(r.value)
    decreases |es|
  {
    if es == [] then Some(p)
    else
      var q := Step(p, es[0]);
      if q.None? then None else Run(q.value, es[1..])
  }

  /** Every event of the run comes in time. */
  predicate Smooth(p: Pipe, es: seq<Event>)
    requires Sound(p)
    decreases |es|
  {
    es == [] || (InTime(p, es[0]) && (Step(p, es[0]).Some? ==> Smooth(Step(p, es[0]).value, es[1..])))
  }

  /** The invariant holds in every state the run goes through. */
  predicate InOrder(p: Pipe, es: seq<Event>)
    requires Sound(p)
    decreases |es|
  {
    Inv(p) && (es == [] || Step(p, es[0]).None? || InOrder(Step(p, es[0]).value, es[1..]))
  }

  lemma {:induction false} RunTheorem(p: Pipe, es: seq<Event>)
    requires Sound(p) && Inv(p) && forall e :: e in es ==> ValidEvent(e)
    ensures Smooth(p, es) ==> InOrder(p, es)
    ensures InOrder(p, es) && Run(p, es).Some? ==> Smooth(p, es)
    decreases |es|
  {
    hide Inv, Step, Sound, ValidEvent, InTime;
    if es != [] {
      if Step(p, es[0]).None? {
        AbortIsInTime(p, es[0]);
      }
      if Step(p, es[0]).Some? {
        var q := Step(p, es[0]).value;
        assert es[0] in es;
        StepTheorem(p, es[0]);
        if Inv(q) {
          RunTheorem(q, es[1..]);
        } else {
          NotInOrder(q, es[1..]);
        }
      }
    }
  }

  lemma AbortIsInTime(p: Pipe, e: Event)
    requires Sound(p) && Step(p, e).None?
    ensures InTime(p, e)
  {}

  lemma NotInOrder(p: Pipe, es: seq<Event>)
    requires Sound(p) && !Inv(p)
    ensures !InOrder(p, es)
  {}

  lemma StartIsInv(first: Xact, capacity: nat)
    requires Full(first) && first.header > 0
    ensures Sound(Start(first, capacity)) && Inv(Start(first, capacity))
  {
    var p := Start(first, capacity);
    assert p.xacts[..1] == p.xacts;
    BytesStep(p.xacts, 0);
  }

  // ----- what the invariant says -----

  function LineBytes(xs: seq<Xact>, line: seq<nat>): nat
    requires Below(line, |xs|)
  {
    if line == [] then 0 else LineBytes(xs, line[..|line| - 1]) + xs[line[|line| - 1]].actual
  }

  lemma {:induction false} WindowBytes(xs: seq<Xact>, lo: nat, hi: nat)
    requires lo <= hi <= |xs|
    ensures Below(Window(lo, hi), |xs|)
    ensures Bytes(xs[..hi]) == Bytes(xs[..lo]) + LineBytes(xs, Window(lo, hi))
    decreases hi - lo
  {
    if lo < hi {
      WindowBytes(xs, lo, hi - 1);
      BytesStep(xs, hi - 1);
      WindowSnoc(lo, hi - 1);
      assert Window(lo, hi)[..hi - lo - 1] == Window(lo, hi - 1);
    }
  }

  /** The credit and the buffer together hold exactly the bytes the writers have filled;
      positive credit belongs to the first writer, whose size is known and not yet covered. */
  lemma CreditTheorem(p: Pipe)
    requires Sound(p) && Inv(p)
    ensures p.wrSize + p.held == LineBytes(p.xacts, p.writers)
    ensures p.wrSize > 0 ==> p.writers != [] && 0 < p.wrSize < p.xacts[p.writers[0]].expected
  {
    hide Bytes, Full, Begun, Fresh, LineBytes;
    var w, f, n := WriteFront(p), FillFront(p), |p.xacts|;
    var w' := w + |p.writers|;
    WindowBytes(p.xacts, w, w');
    FreshBytes(p.xacts, w', n);
    assert p.xacts[..n] == p.xacts;
    if p.writers != [] {
      WindowTail(w, w');
    }
  }

  /** Transactions become readers and finish in the order they came under control; a
      transaction in neither of the first two lines is on the wire to its last byte. */
  lemma OrderTheorem(p: Pipe, x: nat)
    requires Inv(p) && x < |p.xacts|
    ensures p.finished + p.readers == Window(0, |p.finished| + |p.readers|)
    ensures x !in p.fillers && x !in p.writers ==>
      Full(p.xacts[x]) && Bytes(p.xacts[..x + 1]) <= p.wire && (x in p.finished || x in p.readers)
  {
    hide Bytes, Full, Begun, Fresh;
    var w, f, n, done := WriteFront(p), FillFront(p), |p.xacts|, |p.finished|;
    JoinedWindows(0, done, done + |p.readers|);
    WindowHas(f, n, x);
    WindowHas(w, w + |p.writers|, x);
    if x !in p.fillers && x !in p.writers {
      BytesGrow(p.xacts, x + 1, w);
      WindowHas(0, done, x);
      WindowHas(done, done + |p.readers|, x);
    }
  }

  lemma JoinedWindows(a: nat, b: nat, c: nat)
    requires a <= b <= c
    ensures Window(a, b) + Window(b, c) == Window(a, c)
  {}

  /** Neighbouring lines share at most one transaction: the last of the one further on, the
      first of the one behind. */
  lemma OverlapTheorem(p: Pipe, x: nat)
    requires Inv(p)
    ensures x in p.readers && x in p.writers ==> x == p.readers[|p.readers| - 1] && x == p.writers[0]
    ensures x in p.writers && x in p.fillers ==> x == p.writers[|p.writers| - 1] && x == p.fillers[0]
  {
    hide Progress, Credit;
    var w, f, n, done := WriteFront(p), FillFront(p), |p.xacts|, |p.finished|;
    WindowHas(f, n, x);
    WindowHas(w, w + |p.writers|, x);
    WindowHas(done, done + |p.readers|, x);
  }

  // ----- requests without bodies -----

  /** No request has a body, and whoever still has to be filled is untouched. */
  predicate Bodiless(p: Pipe)
    requires Sound(p)
  {
    && (forall i :: 0 <= i < |p.xacts| ==> p.xacts[i].body == 0 && p.xacts[i].header > 0)
    && (forall i :: 0 <= i < |p.fillers| ==> Fresh(p.xacts[p.fillers[i]]))
    && (forall i, j :: 0 <= i < j < |p.fillers| ==> p.fillers[i] != p.fillers[j])
  }

  lemma FillWithoutBody(x: Xact, held: nat, capacity: nat, offer: nat)
    requires held <= capacity && x.header > 0 && x.body == 0 && Fresh(x)
    ensures var r := Fill(x, held, capacity, offer);
      r.ok ==> r.xact.body == 0 && r.xact.header == x.header && (r.needMore ==> r.xact == x)
  {}

  lemma {:induction false} FillKeepsBodiless(p: Pipe, offers: seq<nat>)
    requires Sound(p) && Bodiless(p)
    ensures var r := FillLine(p, offers);
      r.Some? ==> Bodiless(r.value)
    decreases |p.fillers|
  {
    hide Fill, Fresh, Sound, JoinLine;
    if p.fillers != [] && p.held < p.capacity {
      var x, offer := p.fillers[0], if offers == [] then 0 else offers[0];
      HeadIsSound(p);
      FillWithoutBody(p.xacts[x], p.held, p.capacity, offer);
      var r := Fill(p.xacts[x], p.held, p.capacity, offer);
      if r.ok {
        var q := p.(xacts := p.xacts[x := r.xact], held := r.held, writers := JoinLine(p.writers, x));
        var q' := q.(fillers := q.fillers[1..]);
        SoundAfterFill(p, offer, x, r, q, q');
        if r.needMore {
          assert q.xacts == p.xacts;
        } else {
          TailIsBodiless(p, x, r.xact, q');
          FillKeepsBodiless(q', if offers == [] then [] else offers[1..]);
        }
      }
    }
  }

  lemma HeadIsSound(p: Pipe)
    requires Sound(p) && p.fillers != []
    ensures p.fillers[0] < |p.xacts| && p.held <= p.capacity
  {}

  lemma TailIsBodiless(p: Pipe, x: nat, x': Xact, q: Pipe)
    requires Sound(p) && Sound(q) && Bodiless(p) && p.fillers != [] && p.fillers[0] == x < |p.xacts|
    requires q.xacts == p.xacts[x := x'] && q.fillers == p.fillers[1..] && x'.body == 0 && x'.header > 0
    ensures Bodiless(q)
  {
    hide Fresh;
    forall i | 0 <= i < |q.fillers| ensures Fresh(q.xacts[q.fillers[i]]) {
      assert q.fillers[i] == p.fillers[i + 1] && p.fillers[0] != p.fillers[i + 1];
    }
  }

  lemma {:induction false} MoveOnKeepsFillers(p: Pipe)
    requires Sound(p)
    ensures var q := MoveOn(p);
      q.fillers == p.fillers && q.xacts == p.xacts
    decreases |p.writers|
  {
    if p.writers == [] || p.wrSize <= 0 {
    } else {
      var w := p.writers[0];
      var q := Reading(p, w);
      if p.wrSize >= p.xacts[w].expected {
        var r := q.(wrSize := p.wrSize - p.xacts[w].expected, writers := p.writers[1..]);
        MoveOnKeepsFillers(if r.fillers == [] && r.writers == [] then r.(writing := false) else r);
      }
    }
  }

  /** The event brings no body, and a response is over only when its request has been written. */
  predicate Plain(p: Pipe, e: Event) {
    match e
    case Controlled(header, body) => header > 0 && body == 0
    case WriteReady(_, _) => true
    case ResponseDone => p.readers != [] ==> p.readers[0] !in p.writers
  }

  lemma BodilessIsInTime(p: Pipe, e: Event)
    requires Sound(p) && Bodiless(p) && Plain(p, e) && Inv(p)
    ensures InTime(p, e)
    ensures Step(p, e).Some? ==> Bodiless(Step(p, e).value)
  {
    hide FillLine, Inv, MoveOn, Sound;
    match e
    case Controlled(header, body) => ControlKeepsBodiless(p, NewXact(header, body));
    case WriteReady(offers, sent) =>
      FillKeepsBodiless(p, offers);
      if FillLine(p, offers).Some? {
        var m := WriteOnce(FillLine(p, offers).value, sent);
        WriteKeepsBodiless(FillLine(p, offers).value, sent);
        MoveOnKeepsFillers(m);
      }
    case ResponseDone =>
  }

  lemma WriteKeepsBodiless(p: Pipe, sent: nat)
    requires Sound(p) && Bodiless(p)
    ensures var m := WriteOnce(p, sent);
      Sound(m) && Bodiless(m) && !Late(m)
  {
    hide JoinLine;
  }

  lemma ControlKeepsBodiless(p: Pipe, x: Xact)
    requires Sound(p) && Bodiless(p) && Inv(p) && Fresh(x) && x.body == 0 && x.header > 0
    ensures Sound(Control(p, x)) && Bodiless(Control(p, x))
  {
    hide Progress, Credit, Waiting, Inv;
    forall i | 0 <= i < |p.fillers| ensures p.fillers[i] < |p.xacts| {}
  }

  /** The run only has requests without bodies, and every response is over in time. */
  predicate PlainRun(p: Pipe, es: seq<Event>)
    requires Sound(p)
    decreases |es|
  {
    es == [] || (Plain(p, es[0]) && (Step(p, es[0]).Some? ==> PlainRun(Step(p, es[0]).value, es[1..])))
  }

  /** Without bodies, order and credit hold in every state of every run. */
  lemma {:induction false} BodilessRunTheorem(p: Pipe, es: seq<Event>)
    requires Sound(p) && Inv(p) && Bodiless(p) && PlainRun(p, es)
    ensures InOrder(p, es)
    decreases |es|
  {
    hide Inv, Step, Sound, Bodiless, InTime;
    if es != [] {
      BodilessIsInTime(p, es[0]);
      if Step(p, es[0]).Some? {
        StepTheorem(p, es[0]);
        BodilessRunTheorem(Step(p, es[0]).value, es[1..]);
      }
    }
  }

  /** Two callbacks of a request with a 15-byte body behind a finished one. */
  function Started(): Pipe { Start(Xact(20, 0, 20, 20), 100) }

  function Poured(): Pipe {
    Pipe([Xact(20, 0, 20, 20), Xact(10, 15, 25, 25)], [1], [1], [0], [], 0, 25, 100, 20, true, true)
  }

  function SentOff(): Pipe {
    Poured().(held := 0, wire := 45, writers := [], readers := [0, 1])
  }

  function BackAgain(): Pipe {
    SentOff().(writers := [1], fillers := [])
  }

  function Blocked(): Pipe {
    Pipe([Xact(20, 0, 20, 20), Xact(10, 15, 25, 25), Xact(10, 0, 10, 10)], [], [1, 2], [0, 1], [], 10, 0, 100, 55, true, true)
  }

  lemma Pours(p: Pipe)
    requires p == Control(Started(), NewXact(10, 15))
    ensures Sound(p) && FillLine(p, [15]) == Some(Poured())
  {
    var x := Xact(10, 15, 25, 25);
    assert p.fillers == [1];
    assert Fill(p.xacts[1], 0, 100, 15) == Filled(true, true, x, 25);
    assert p.xacts[1 := x] == Poured().xacts;
    assert JoinLine([], 1) == [1];
  }

  lemma Sends()
    ensures Sound(Poured()) && MoveOn(WriteOnce(Poured(), 25)) == SentOff()
  {
    assert JoinLine([0], 1) == [0, 1] && [1][1..] == [];
  }

  lemma PoursAndSends()
    ensures var p := Control(Started(), NewXact(10, 15));
      Sound(p) && FillLine(p, [15]) == Some(Poured()) && Step(p, WriteReady([15], 25)) == Some(SentOff())
  {
    hide FillLine;
    Pours(Control(Started(), NewXact(10, 15)));
    Sends();
  }

  lemma ComesBack()
    ensures Sound(SentOff()) && Step(SentOff(), WriteReady([], 0)) == Some(BackAgain())
  {
    var p := SentOff();
    NothingToPour(p);
    assert BackAgain().wrSize == 0;
  }

  lemma NothingToPour(p: Pipe)
    requires p == SentOff()
    ensures Sound(p) && FillLine(p, []) == Some(BackAgain())
  {
    var x := p.xacts[1];
    assert Fill(x, 0, 100, 0) == Filled(true, false, x, 0);
    assert p.xacts[1 := x] == p.xacts && p.fillers[1..] == [];
    assert JoinLine(p.writers, 1) == [1];
  }

  /** The second request, filled while the first one is back among the writers. */
  function SecondFilled(): Pipe {
    Blocked().(wrSize := 0, held := 10, wire := 45)
  }

  lemma FillsSecond(p: Pipe)
    requires p == Control(BackAgain(), NewXact(10, 0))
    ensures Sound(p) && FillLine(p, []) == Some(SecondFilled())
  {
    var x := Xact(10, 0, 10, 10);
    assert p.fillers == [2] && p.fillers[1..] == [];
    assert Fill(p.xacts[2], 0, 100, 0) == Filled(true, false, x, 10);
    assert p.xacts[2 := x] == SecondFilled().xacts;
    assert JoinLine([1], 2) == [1, 2];
  }

  lemma Blocks()
    ensures var p := Control(BackAgain(), NewXact(10, 0));
      Sound(p) && Step(p, WriteReady([], 10)) == Some(Blocked())
  {
    hide FillLine;
    FillsSecond(Control(BackAgain(), NewXact(10, 0)));
    StaysBlocked();
  }

  lemma StaysBlocked()
    ensures Sound(SecondFilled()) && MoveOn(WriteOnce(SecondFilled(), 10)) == Blocked()
  {}

  lemma BytesOfThree(x: Xact, y: Xact, z: Xact)
    ensures Bytes([x, y, z]) == x.actual + y.actual + z.actual
  {
    var xs := [x, y, z];
    BytesStep(xs, 0);
    BytesStep(xs, 1);
    BytesStep(xs, 2);
    assert xs[..3] == xs && xs[..0] == [];
  }

  /** The body goes out, the transaction comes back, the next request goes out. */
  function LateRun(): seq<Event> { [Controlled(10, 15)] + LateCallbacks() }

  function LateCallbacks(): seq<Event> { [WriteReady([15], 25)] + ([WriteReady([], 0)] + NextRequest()) }

  function NextRequest(): seq<Event> { [Controlled(10, 0)] + ([WriteReady([], 10)] + []) }

  lemma RunCons(p: Pipe, e: Event, es: seq<Event>)
    requires Sound(p) && Step(p, e).Some?
    ensures Run(p, [e] + es) == Run(Step(p, e).value, es)
  {
    hide Sound, Step;
    assert ([e] + es)[1..] == es;
  }

  lemma LateRunGoes()
    ensures Sound(Started()) && Run(Started(), LateRun()) == Some(Blocked())
  {
    hide Sound, Run, Step, Started, SentOff, BackAgain, Blocked, Poured, Control;
    PoursAndSends();
    ComesBack();
    Blocks();
    StartedIsSound();
    ControlIsStep(Started(), 10, 15);
    ControlIsStep(BackAgain(), 10, 0);
    RunCons(Started(), Controlled(10, 15), LateCallbacks());
    RunCons(Control(Started(), NewXact(10, 15)), WriteReady([15], 25), [WriteReady([], 0)] + NextRequest());
    RunCons(SentOff(), WriteReady([], 0), NextRequest());
    RunCons(BackAgain(), Controlled(10, 0), [WriteReady([], 10)] + []);
    RunCons(Control(BackAgain(), NewXact(10, 0)), WriteReady([], 10), []);
    RunNothing(Blocked());
  }

  lemma RunNothing(p: Pipe)
    requires Sound(p)
    ensures Run(p, []) == Some(p)
  {}

  lemma StartedIsSound()
    ensures Sound(Started()) && Inv(Started())
  {
    hide Inv, Sound;
    StartIsInv(Xact(20, 0, 20, 20), 100);
  }

  /** A body poured to its end and sent off in one callback breaks the order: the request
      comes back into the writers with nothing to write, and the next one, though on the
      wire to its last byte, is stuck behind it, its bytes too few for the first one's size. */
  lemma LateBodyBlocksTheNext()
    ensures Sound(Started()) && Inv(Started()) && !Smooth(Started(), LateRun())
    ensures Run(Started(), LateRun()) == Some(Blocked())
    ensures Blocked().wire == Bytes(Blocked().xacts) && Blocked().held == 0 && Blocked().writers == [1, 2]
  {
    hide Inv, Sound, FillLine, MoveOn, Bytes, Late, Run, Smooth, Step;
    StartedIsSound();
    LateRunGoes();
    PoursAndSends();
    ControlIsStep(Started(), 10, 15);
    BytesOfThree(Xact(20, 0, 20, 20), Xact(10, 15, 25, 25), Xact(10, 0, 10, 10));
    LateInThePour();
    NotSmooth(Started(), LateRun());
  }

  lemma ControlIsStep(p: Pipe, header: nat, body: nat)
    requires Sound(p)
    ensures Step(p, Controlled(header, body)) == Some(Control(p, NewXact(header, body)))
  {}

  lemma LateInThePour()
    ensures Late(WriteOnce(Poured(), 25))
  {}

  lemma NotSmooth(p: Pipe, es: seq<Event>)
    requires Sound(p) && |es| >= 2 && Step(p, es[0]).Some? && !InTime(Step(p, es[0]).value, es[1])
    ensures !Smooth(p, es)
  {
    hide Sound, Step, InTime;
    assert es[1..][0] == es[1];
  }
}
