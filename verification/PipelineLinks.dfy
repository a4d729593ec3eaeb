/** The link field the three lines share: a queue only takes in a transaction that stands in
    no queue threading the same field, and the lines all thread one. */
module PipelineLinks {
  import opened PipelineSpec
  import opened Wrappers
  import opened PipelineOrder
  import opened PipelineRuns

  /** The link field of the transaction is in use. */
  predicate Linked(p: Pipe, x: nat) {
    x in p.fillers || x in p.writers || x in p.readers
  }

  /** The queue's assertion fails when the transaction is put at the end of the line. */
  predicate Rejected(p: Pipe, line: seq<nat>, x: nat) {
    !LastIs(line, x) && Linked(p, x)
  }

  /** Filling puts a transaction among the writers whose link field is in use. */
  predicate FillClashes(p: Pipe, offers: seq<nat>)
    requires Sound(p)
    decreases |p.fillers|
  {
    if p.fillers == [] || p.held >= p.capacity then false
    else
      var x := p.fillers[0];
      var offer := if offers == [] then 0 else offers[0];
      var f := Fill(p.xacts[x], p.held, p.capacity, offer);
      FillFits(p.xacts[x], p.held, p.capacity, offer);
      var q := p.(xacts := p.xacts[x := f.xact], held := f.held,
                  writers := JoinLine(p.writers, x), fillers := p.fillers[1..]);
      f.ok && (Rejected(p, p.writers, x)
               || (!f.needMore && FillClashes(q, if offers == [] then [] else offers[1..])))
  }

  /** Passing the writers on puts one among the readers whose link field is in use. */
  predicate MoveClashes(p: Pipe)
    requires Sound(p)
    decreases |p.writers|
  {
    p.writers != [] && p.wrSize > 0 &&
    var w := p.writers[0];
    var q := Reading(p, w).(wrSize := p.wrSize - p.xacts[w].expected, writers := p.writers[1..]);
    (Rejected(p, p.readers, w) || (p.wrSize >= p.xacts[w].expected && MoveClashes(q)))
  }

  /** Handling the event, the assertion fails. */
  predicate Clashes(p: Pipe, e: Event)
    requires Sound(p)
  {
    match e
    case Controlled(_, _) => Rejected(p, p.fillers, |p.xacts|)
    case WriteReady(offers, sent) =>
      var f := FillLine(p, offers);
      FillClashes(p, offers) || (f.Some? && MoveClashes(WriteOnce(f.value, sent)))
    case ResponseDone => false
  }

  // ----- when that happens -----

  /** Some filler that is not the last of the writers gets its turn: the first one, or the
      one behind a first one that needs no more. */
  predicate FillsNewcomer(p: Pipe, offers: seq<nat>)
    requires Sound(p)
  {
    p.fillers != [] && p.held < p.capacity &&
    var x := p.fillers[0];
    var f := Fill(p.xacts[x], p.held, p.capacity, if offers == [] then 0 else offers[0]);
    f.ok && (!LastIs(p.writers, x) || (!f.needMore && |p.fillers| > 1 && HasRoom(p, p.fillers[1], f.held)))
  }

  /** The transaction's turn comes and its header fits, or is made already. */
  predicate HasRoom(p: Pipe, x: nat, held: nat)
    requires x < |p.xacts|
  {
    && held < p.capacity
    && (p.xacts[x].expected >= 0 || p.capacity - held < p.capacity / 2 || held + p.xacts[x].header < p.capacity)
  }

  /** Some writer that is not the last of the readers gets a share of the credit: the first
      one, or the one behind a first one whose request leaves credit over. */
  predicate ReadsNewcomer(p: Pipe)
    requires Sound(p)
  {
    p.writers != [] && p.wrSize > 0 &&
    var w := p.writers[0];
    (!LastIs(p.readers, w) || (p.wrSize > p.xacts[w].expected && |p.writers| > 1))
  }

  lemma RoomFills(x: Xact, held: nat, capacity: nat, offer: nat)
    requires held <= capacity
    ensures Fill(x, held, capacity, offer).ok <==>
      x.expected >= 0 || capacity - held < capacity / 2 || held + x.header < capacity
  {}

  lemma JoinedIsLast(line: seq<nat>, x: nat)
    ensures LastIs(JoinLine(line, x), x)
  {}

  /** The head of the line is linked, so filling it clashes unless it is a writer already. */
  lemma HeadClashes(p: Pipe, offers: seq<nat>)
    requires Sound(p) && p.fillers != [] && !LastIs(p.writers, p.fillers[0])
    ensures FillClashes(p, offers) <==> HasRoom(p, p.fillers[0], p.held)
  {
    hide Fill, Sound, FillClashes;
    assert p.fillers[0] < |p.xacts| && p.held <= p.capacity by { HeadIsSound(p); }
    var offer := if offers == [] then 0 else offers[0];
    RoomFills(p.xacts[p.fillers[0]], p.held, p.capacity, offer);
    HeadStep(p, offers);
  }

  lemma HeadStep(p: Pipe, offers: seq<nat>)
    requires Sound(p) && p.fillers != [] && !LastIs(p.writers, p.fillers[0])
    ensures FillClashes(p, offers) <==>
      p.held < p.capacity && Fill(p.xacts[p.fillers[0]], p.held, p.capacity, if offers == [] then 0 else offers[0]).ok
  {
    hide Fill;
  }

  lemma FillClashTheorem(p: Pipe, offers: seq<nat>)
    requires Sound(p)
    requires |p.fillers| > 1 ==> p.fillers[0] != p.fillers[1]
    ensures FillClashes(p, offers) <==> FillsNewcomer(p, offers)
  {
    hide Fill;
    if p.fillers != [] && p.held < p.capacity && LastIs(p.writers, p.fillers[0]) {
      var x, offer := p.fillers[0], if offers == [] then 0 else offers[0];
      HeadIsSound(p);
      var f := Fill(p.xacts[x], p.held, p.capacity, offer);
      FillFits(p.xacts[x], p.held, p.capacity, offer);
      var q := p.(xacts := p.xacts[x := f.xact], held := f.held,
                  writers := JoinLine(p.writers, x), fillers := p.fillers[1..]);
      if f.ok && !f.needMore && |p.fillers| > 1 {
        JoinedIsLast(p.writers, x);
        HeadClashes(q, if offers == [] then [] else offers[1..]);
      }
    } else if p.fillers != [] && p.held < p.capacity {
      HeadStep(p, offers);
    }
  }

  lemma MoveClashTheorem(p: Pipe)
    requires Sound(p)
    requires |p.writers| > 1 ==> p.writers[0] != p.writers[1]
    ensures MoveClashes(p) <==> ReadsNewcomer(p)
  {
    if p.writers != [] && p.wrSize > 0 {
      JoinedIsLast(p.readers, p.writers[0]);
    }
  }

  /** Between callbacks in order, the assertion fails exactly in a write callback that fills
      a transaction not yet among the writers, or credits one not yet among the readers. */
  lemma ClashTheorem(p: Pipe, e: Event)
    requires Sound(p) && Inv(p)
    ensures Clashes(p, e) <==>
      e.WriteReady? &&
      (FillsNewcomer(p, e.offers) ||
       (FillLine(p, e.offers).Some? && ReadsNewcomer(WriteOnce(FillLine(p, e.offers).value, e.sent))))
  {
    hide FillClashes, MoveClashes, FillsNewcomer, ReadsNewcomer, FillLine, Lines, Progress, Credit;
    match e
    case Controlled(_, _) => NobodyYet(p);
    case WriteReady(offers, sent) =>
      var w, f := WriteFront(p), FillFront(p);
      Apart(p, w, f);
      FillClashTheorem(p, offers);
      if FillLine(p, offers).Some? {
        FillKeepsPhase(p, offers, w, f);
        var g := FillLine(p, offers).value;
        WriteKeepsPhase(g, sent, w, FillFront(g));
        Apart(WriteOnce(g, sent), w, FillFront(g));
        MoveClashTheorem(WriteOnce(g, sent));
      }
    case ResponseDone =>
  }

  lemma Apart(p: Pipe, w: nat, f: nat)
    requires Lines(p, w, f)
    ensures |p.fillers| > 1 ==> p.fillers[0] != p.fillers[1]
    ensures |p.writers| > 1 ==> p.writers[0] != p.writers[1]
  {}

  lemma NobodyYet(p: Pipe)
    requires Sound(p)
    ensures !Linked(p, |p.xacts|)
  {}

  // ----- whole runs -----

  /** No request behind the first has put a byte into the buffer. */
  predicate Still(p: Pipe) {
    && Sound(p) && p.xacts != [] && p.held == 0 && p.writers == [] && p.wrSize == 0
    && (forall i :: 1 <= i < |p.xacts| ==> Fresh(p.xacts[i]))
    && (forall i :: 0 <= i < |p.fillers| ==> p.fillers[i] > 0)
  }

  /** Write space comes while somebody waits whose header fits into the buffer. */
  predicate Opens(p: Pipe, e: Event)
    requires Sound(p)
  {
    e.WriteReady? && p.fillers != [] && p.xacts[p.fillers[0]].header < p.capacity
  }

  lemma StillFill(p: Pipe, offers: seq<nat>)
    requires Still(p)
    ensures FillClashes(p, offers) <==> p.fillers != [] && p.xacts[p.fillers[0]].header < p.capacity
    ensures !FillClashes(p, offers) && FillLine(p, offers).Some? ==> FillLine(p, offers).value == p
  {
    hide Fill;
    if p.fillers != [] && p.held < p.capacity {
      var x, offer := p.fillers[0], if offers == [] then 0 else offers[0];
      assert Fresh(p.xacts[x]);
      RoomFills(p.xacts[x], 0, p.capacity, offer);
      HeadStep(p, offers);
    }
  }

  /** While no request has been filled, the assertion fails at the first one that can be. */
  lemma StillStep(p: Pipe, e: Event)
    requires Still(p)
    ensures Clashes(p, e) <==> Opens(p, e)
    ensures !Clashes(p, e) && Step(p, e).Some? ==> Still(Step(p, e).value) && Step(p, e).value.wire == p.wire
  {
    hide FillClashes, FillLine;
    match e
    case Controlled(header, body) => NobodyYet(p);
    case WriteReady(offers, sent) => StillFill(p, offers);
    case ResponseDone =>
  }

  /** The assertion fails at no event of the run. */
  predicate ClashFree(p: Pipe, es: seq<Event>)
    requires Sound(p)
    decreases |es|
  {
    es == [] || (!Clashes(p, es[0]) && (Step(p, es[0]).Some? ==> ClashFree(Step(p, es[0]).value, es[1..])))
  }

  lemma {:induction false} StillRun(p: Pipe, es: seq<Event>)
    requires Still(p) && ClashFree(p, es) && Run(p, es).Some?
    ensures Still(Run(p, es).value) && Run(p, es).value.wire == p.wire
    decreases |es|
  {
    hide Clashes, Step;
    if es != [] {
      StillStep(p, es[0]);
      StillRun(Step(p, es[0]).value, es[1..]);
    }
  }

  /** With one link field, a run from the start that meets no assertion sends nothing behind
      the first request and fills nothing. */
  lemma StillTheorem(first: Xact, capacity: nat, es: seq<Event>)
    requires Sound(Start(first, capacity)) && ClashFree(Start(first, capacity), es)
    requires Run(Start(first, capacity), es).Some?
    ensures var q := Run(Start(first, capacity), es).value;
      q.wire == first.actual && q.held == 0 && forall i :: 1 <= i < |q.xacts| ==> Fresh(q.xacts[i])
  {
    StillRun(Start(first, capacity), es);
  }

  /** The run with the late body meets the assertion. */
  lemma LateRunClashes()
    ensures Sound(Started()) && !ClashFree(Started(), LateRun())
  {
    hide Run, ClashFree, Sound, LateRun, Start, Blocked;
    StartedIsSound();
    LateRunGoes();
    if ClashFree(Started(), LateRun()) {
      StillTheorem(Xact(20, 0, 20, 20), 100, LateRun());
      assert Blocked().wire == 20;
      BlockedHasSent();
      assert false;
    }
  }

  lemma BlockedHasSent()
    ensures Blocked().wire == 55
  {}
}
