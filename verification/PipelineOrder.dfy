/** The order and the credit of the pipeline, callback by callback and over whole runs. */
module PipelineOrder {
  import opened PipelineSpec
  import opened Wrappers

  // ----- windows -----

  lemma JoinNext(lo: nat, hi: nat)
    requires lo <= hi
    ensures JoinLine(Window(lo, hi), hi) == Window(lo, hi + 1)
    ensures JoinLine(Window(lo, hi + 1), hi) == Window(lo, hi + 1)
  {}

  lemma WindowTail(lo: nat, hi: nat)
    requires lo < hi
    ensures Window(lo, hi)[0] == lo && Window(lo, hi)[1..] == Window(lo + 1, hi)
  {}

  lemma WindowSnoc(lo: nat, hi: nat)
    requires lo <= hi
    ensures Window(lo, hi) + [hi] == Window(lo, hi + 1)
  {}

  // ----- byte sums -----

  lemma {:induction false} BytesUpdate(xs: seq<Xact>, f: nat, x: Xact)
    requires f < |xs|
    ensures Bytes(xs[f := x]) == Bytes(xs) - xs[f].actual + x.actual
  {
    var n := |xs| - 1;
    if f == n {
      assert xs[f := x][..n] == xs[..n];
    } else {
      assert xs[f := x][..n] == xs[..n][f := x];
      BytesUpdate(xs[..n], f, x);
    }
  }

  lemma BytesStep(xs: seq<Xact>, w: nat)
    requires w < |xs|
    ensures Bytes(xs[..w + 1]) == Bytes(xs[..w]) + xs[w].actual
  {
    assert xs[..w + 1][..w] == xs[..w];
  }

  lemma {:induction false} BytesGrow(xs: seq<Xact>, lo: nat, hi: nat)
    requires lo <= hi <= |xs|
    ensures Bytes(xs[..lo]) <= Bytes(xs[..hi])
    decreases hi - lo
  {
    if lo < hi {
      BytesStep(xs, hi - 1);
      BytesGrow(xs, lo, hi - 1);
    }
  }

  /** Nothing is filled from `lo` on. */
  lemma {:induction false} FreshBytes(xs: seq<Xact>, lo: nat, hi: nat)
    requires lo <= hi <= |xs| && forall i :: lo <= i < hi ==> Fresh(xs[i])
    ensures Bytes(xs[..lo]) == Bytes(xs[..hi])
    decreases hi - lo
  {
    if lo < hi {
      BytesStep(xs, hi - 1);
      FreshBytes(xs, lo, hi - 1);
    }
  }

  // ----- filling -----

  predicate Phase(p: Pipe, w: nat, f: nat) {
    Lines(p, w, f) && Progress(p, w, f) && Credit(p, w)
  }

  lemma FillOutcome(x: Xact, held: nat, capacity: nat, offer: nat)
    requires held <= capacity && x.header > 0 && (Fresh(x) || Begun(x))
    ensures var r := Fill(x, held, capacity, offer);
      r.ok ==>
        && r.xact.header == x.header && r.held <= capacity && r.held - held == r.xact.actual - x.actual
        && (if r.needMore then Fresh(r.xact) || Begun(r.xact) else Full(r.xact))
  {}

  /** The head of the fillers puts bytes in and stands among the writers from then on. */
  lemma FillOneLines(p: Pipe, w: nat, f: nat, q: Pipe)
    requires Lines(p, w, f) && f < |p.xacts|
    requires q == p.(xacts := q.xacts, held := q.held, writers := JoinLine(p.writers, f)) && |q.xacts| == |p.xacts|
    ensures Lines(q, w, f) && w + |q.writers| == f + 1
    ensures p.fillers != [] && p.fillers[0] == f
    ensures Lines(q.(fillers := q.fillers[1..]), w, f + 1)
  {
    hide LastIs;
    var w' := w + |p.writers|;
    WindowTail(f, |p.xacts|);
    JoinNext(w, f);
    assert w' == f || w' == f + 1;
  }

  lemma FillOneBytes(p: Pipe, w: nat, f: nat, x: Xact, q: Pipe)
    requires Credit(p, w) && w <= f < |p.xacts|
    requires q == p.(xacts := p.xacts[f := x], held := q.held, writers := q.writers)
    requires q.held <= p.capacity && q.held - p.held == x.actual - p.xacts[f].actual
    ensures Credit(q, w)
  {
    hide Bytes;
    BytesUpdate(p.xacts, f, x);
    assert q.xacts[..w] == p.xacts[..w];
  }

  lemma FillOneProgress(p: Pipe, w: nat, f: nat, x: Xact, q: Pipe)
    requires Progress(p, w, f) && f < |p.xacts| && w + |q.writers| == f + 1
    requires q == p.(xacts := p.xacts[f := x], held := q.held, writers := q.writers)
    requires x.header > 0 && q.fillers != []
    ensures Fresh(x) || Begun(x) ==> Progress(q, w, f)
    ensures Full(x) ==> Progress(q.(fillers := q.fillers[1..]), w, f + 1)
  {
    hide Fresh, Begun, Full;
  }

  /** What filling leaves alone. */
  predicate SameBut(p: Pipe, q: Pipe) {
    && |q.xacts| == |p.xacts| && q.readers == p.readers && q.finished == p.finished
    && q.wrSize == p.wrSize && q.wire == p.wire && q.capacity == p.capacity
    && q.writing == p.writing && q.reading == p.reading
    && (p.fillers == [] && p.writers == [] <==> q.fillers == [] && q.writers == [])
  }

  lemma {:induction false} FillKeepsPhase(p: Pipe, offers: seq<nat>, w: nat, f: nat)
    requires Sound(p) && Phase(p, w, f)
    ensures var r := FillLine(p, offers);
      r.Some? ==> SameBut(p, r.value) && f <= FillFront(r.value) && Phase(r.value, w, FillFront(r.value))
    decreases |p.fillers|
  {
    hide Fill, Bytes, Sound, LastIs, Begun, Full, Fresh, Waiting;
    if p.fillers == [] || p.held >= p.capacity {
    } else {
      assert Lines(p, w, f);
      WindowTail(f, |p.xacts|);
      var offer := if offers == [] then 0 else offers[0];
      BeforeFill(p, w, f);
      FillOutcome(p.xacts[f], p.held, p.capacity, offer);
      var r := Fill(p.xacts[f], p.held, p.capacity, offer);
      if r.ok {
        var q := p.(xacts := p.xacts[f := r.xact], held := r.held, writers := JoinLine(p.writers, f));
        FillOneLines(p, w, f, q);
        FillOneBytes(p, w, f, r.xact, q);
        FillOneProgress(p, w, f, r.xact, q);
        if !r.needMore {
          var q' := q.(fillers := q.fillers[1..]);
          SoundAfterFill(p, offer, f, r, q, q');
          FillKeepsPhase(q', if offers == [] then [] else offers[1..], w, f + 1);
        }
      }
    }
  }

  lemma BeforeFill(p: Pipe, w: nat, f: nat)
    requires Phase(p, w, f) && f < |p.xacts|
    ensures p.held <= p.capacity && p.xacts[f].header > 0 && (Fresh(p.xacts[f]) || Begun(p.xacts[f]))
  {
    hide Fresh, Begun, Bytes;
  }

  lemma SoundAfterFill(p: Pipe, offer: nat, f: nat, r: Filled, q: Pipe, q': Pipe)
    requires Sound(p) && f < |p.xacts| && r == Fill(p.xacts[f], p.held, p.capacity, offer)
    requires q == p.(xacts := p.xacts[f := r.xact], held := r.held, writers := JoinLine(p.writers, f))
    requires q.fillers != [] && q' == q.(fillers := q.fillers[1..])
    ensures Sound(q) && Sound(q')
  {
    hide Fill;
    FillFits(p.xacts[f], p.held, p.capacity, offer);
  }

  // ----- writing -----

  lemma WriteKeepsPhase(p: Pipe, offer: nat, w: nat, f: nat)
    requires Phase(p, w, f)
    ensures var q := WriteOnce(p, offer);
      Phase(q, w, f) && q.wrSize - p.wrSize == p.held - q.held >= 0
  {
    hide Bytes, Fresh, Begun, Full;
  }

  /** The head filler has its whole request in the buffer, yet still counts as filling, and
      the buffer has been written out. */
  predicate Late(p: Pipe) {
    && p.held == 0 && p.fillers != [] && LastIs(p.writers, p.fillers[0])
    && p.fillers[0] < |p.xacts| && Full(p.xacts[p.fillers[0]])
  }

  /** The head filler has left the writers. */
  predicate Overtaken(p: Pipe) {
    p.wrSize == 0 && p.writers == [] && p.fillers != [] && p.fillers[0] == |p.finished| + |p.readers| - 1
  }

  /** The reader ahead of the write front got there on partial credit. */
  predicate Head(p: Pipe, w: nat) {
    |p.finished| + |p.readers| > w ==> p.wrSize > 0
  }

  /** While there is credit there is a writer, its size is known, and the credit covers its
      request in one of two cases: it is filled and past, or it is the late one. */
  lemma CreditHasOwner(p: Pipe, w: nat, f: nat)
    requires Phase(p, w, f) && p.wrSize > 0
    ensures p.writers != [] && p.writers[0] == w < |p.xacts| && p.xacts[w].expected > 0
    ensures p.wrSize >= p.xacts[w].expected ==> Full(p.xacts[w])
    ensures w == f && p.wrSize >= p.xacts[w].expected ==> Late(p) && p.wrSize == p.xacts[w].expected
  {
    hide Bytes, Full, Begun;
    var n, w' := |p.xacts|, w + |p.writers|;
    assert p.xacts[..n] == p.xacts;
    if p.writers == [] {
      FreshBytes(p.xacts, w, n);
      assert false;
    }
    WindowTail(w, w');
    if w < f {
      BeganOrFull(p.xacts[w]);
    } else {
      FreshBytes(p.xacts, w + 1, n);
      BytesStep(p.xacts, w);
      BeganOrFull(p.xacts[w]);
      if p.wrSize >= p.xacts[w].expected {
        assert p.held == 0 && p.wrSize == p.xacts[w].actual;
      }
      WindowTail(f, n);
    }
  }

  lemma BeganOrFull(x: Xact)
    requires x.header > 0
    ensures Full(x) ==> x.expected > 0 && x.actual == x.expected
    ensures Begun(x) ==> x.expected > 0 && x.actual <= x.expected && (x.actual == x.expected <==> Full(x))
  {}

  /** A filled request at the front leaves the writers and takes its bytes off the credit. */
  lemma LeaveLines(p: Pipe, w: nat, f: nat, q: Pipe)
    requires Lines(p, w, f) && p.writers != [] && w < f
    requires q == p.(readers := JoinLine(p.readers, w), writers := p.writers[1..],
                     wrSize := q.wrSize, writing := q.writing, reading := q.reading)
    ensures Lines(q, w + 1, f) && |q.finished| + |q.readers| == w + 1
  {
    hide LastIs;
    WindowTail(w, w + |p.writers|);
    JoinNext(|p.finished|, w);
  }

  lemma LeaveCredit(p: Pipe, w: nat, f: nat, q: Pipe)
    requires Credit(p, w) && w < |p.xacts| && Full(p.xacts[w]) && p.wrSize >= p.xacts[w].expected
    requires q == p.(readers := q.readers, writers := q.writers,
                     wrSize := p.wrSize - p.xacts[w].expected, writing := q.writing, reading := q.reading)
    ensures Credit(q, w + 1)
  {
    hide Bytes;
    BytesStep(p.xacts, w);
  }

  lemma LeaveProgress(p: Pipe, w: nat, f: nat, q: Pipe)
    requires Progress(p, w, f) && w + |p.writers| == w + 1 + |q.writers| && q.xacts == p.xacts
    ensures Progress(q, w + 1, f)
  {
    hide Full, Fresh, Begun;
  }

  lemma StayLines(p: Pipe, w: nat, f: nat, q: Pipe)
    requires Lines(p, w, f) && p.writers != []
    requires q == Reading(p, w).(writing := true)
    ensures Lines(q, w, f) && |q.finished| + |q.readers| == w + 1
  {
    hide LastIs;
    JoinNext(|p.finished|, w);
  }

  lemma LateCovers(p: Pipe, w: nat, f: nat)
    requires Phase(p, w, f) && Late(p)
    ensures p.wrSize > 0 && w < |p.xacts| && p.wrSize >= p.xacts[w].expected
  {
    hide Bytes, Full, Begun;
    var n := |p.xacts|;
    WindowTail(f, n);
    WindowTail(w, w + |p.writers|);
    assert w + |p.writers| == f + 1;
    assert p.xacts[..n] == p.xacts;
    FreshBytes(p.xacts, f + 1, n);
    BytesStep(p.xacts, w);
    BytesGrow(p.xacts, w + 1, f + 1);
    BeganOrFull(p.xacts[w]);
  }

  lemma OvertakenBreaks(p: Pipe)
    requires Overtaken(p)
    ensures !Inv(p)
  {
    hide Progress, Credit, Waiting;
  }

  lemma RestIsInv(p: Pipe, w: nat, f: nat)
    requires Phase(p, w, f) && Head(p, w) && Waiting(p)
    requires p.writers == [] || p.wrSize <= 0 || (p.wrSize < p.xacts[w].expected && |p.finished| + |p.readers| == w + 1)
    ensures Inv(p) && !Late(p)
  {
    hide Bytes, Full, Fresh, Begun, LastIs, Window, Waiting;
    if p.wrSize > 0 {
      CreditHasOwner(p, w, f);
    }
    if Late(p) {
      LateCovers(p, w, f);
    }
    assert Lines(p, w, f);
  }

  /** The state in which the loop goes on after a request left the writers. */
  function Left(p: Pipe, w: nat): Pipe
    requires w < |p.xacts| && p.writers != []
  {
    var r := Reading(p, w).(wrSize := p.wrSize - p.xacts[w].expected, writers := p.writers[1..]);
    if r.fillers == [] && r.writers == [] then r.(writing := false) else r
  }

  lemma LeaveKeepsPhase(p: Pipe, w: nat, f: nat)
    requires Sound(p) && Phase(p, w, f) && Waiting(p)
    requires w < f && p.writers != [] && p.writers[0] == w && Full(p.xacts[w]) && p.wrSize >= p.xacts[w].expected
    ensures var q := Left(p, w);
      Sound(q) && Phase(q, w + 1, f) && Head(q, w + 1) && Waiting(q)
  {
    hide Bytes, Full, Fresh, Begun, Window;
    var q := Left(p, w);
    LeaveLines(p, w, f, q);
    LeaveCredit(p, w, f, q);
    LeaveProgress(p, w, f, q);
  }

  lemma LateStays(p: Pipe, w: nat, f: nat)
    requires Lines(p, w, f) && w < f && p.writers != [] && w < |p.xacts|
    ensures Late(p) <==> Late(Left(p, w))
  {
    hide Full, Window;
    var t := p.writers[1..];
    if t != [] {
      assert t[|t| - 1] == p.writers[|p.writers| - 1];
    } else if p.fillers != [] {
      WindowTail(f, |p.xacts|);
      WindowTail(w, w + 1);
    }
  }

  lemma LateLeaves(p: Pipe, w: nat, f: nat)
    requires Phase(p, w, f) && p.wrSize > 0 && Late(p) && w == f
    requires w < |p.xacts| && p.writers != [] && p.wrSize == p.xacts[w].expected
    ensures Overtaken(Left(p, w))
  {
    hide Progress, Credit, Full;
    JoinNext(|p.finished|, w);
    WindowTail(f, |p.xacts|);
  }

  /** After a write the lines are in order again, unless the head filler is late: then it
      leaves the writers while it is still a filler. */
  lemma {:induction false} MoveOnTheorem(p: Pipe, w: nat, f: nat)
    requires Sound(p) && Phase(p, w, f) && Head(p, w) && Waiting(p)
    ensures if Late(p) then Overtaken(MoveOn(p)) else Inv(MoveOn(p))
    decreases |p.writers|
  {
    hide Bytes, Full, LastIs, Window, Phase, Late, Inv, Sound, Waiting, Overtaken, Head, JoinLine;
    if p.writers == [] || p.wrSize <= 0 {
      RestIsInv(p, w, f);
    } else {
      CreditHasOwner(p, w, f);
      if p.wrSize < p.xacts[w].expected {
        StaysInv(p, w, f);
      } else if w < f {
        LeaveKeepsPhase(p, w, f);
        LateStaysInPhase(p, w, f);
        MoveOnTheorem(Left(p, w), w + 1, f);
      } else {
        FrontIsFirst(p, w, f);
        LateLeaves(p, w, f);
        OvertakenRests(Left(p, w));
      }
    }
  }

  lemma FrontIsFirst(p: Pipe, w: nat, f: nat)
    requires Phase(p, w, f)
    ensures w <= f
  {
    hide Progress, Credit;
  }

  lemma LateStaysInPhase(p: Pipe, w: nat, f: nat)
    requires Phase(p, w, f) && w < f && p.writers != [] && w < |p.xacts|
    ensures Late(p) <==> Late(Left(p, w))
  {
    hide Lines, Progress, Credit, Late;
    LateStays(p, w, f);
  }

  lemma OvertakenRests(p: Pipe)
    requires Overtaken(p)
    ensures Sound(p) ==> MoveOn(p) == p
  {}

  lemma StaysInv(p: Pipe, w: nat, f: nat)
    requires Sound(p) && Phase(p, w, f) && Head(p, w) && Waiting(p)
    requires p.writers != [] && p.writers[0] == w < |p.xacts| && 0 < p.wrSize < p.xacts[w].expected
    ensures !Late(p) && Inv(MoveOn(p))
  {
    hide Bytes, Full, Fresh, Begun, Window, MoveOn, Late, Inv;
    if Late(p) {
      LateCovers(p, w, f);
    }
    var q := Reading(p, w).(writing := true);
    StayLines(p, w, f, q);
    assert Phase(q, w, f);
    RestIsInv(q, w, f);
    StaysIs(p, w);
  }

  lemma StaysIs(p: Pipe, w: nat)
    requires Sound(p) && p.writers != [] && p.writers[0] == w < |p.xacts| && 0 < p.wrSize < p.xacts[w].expected
    ensures MoveOn(p) == Reading(p, w).(writing := true)
  {}
}
