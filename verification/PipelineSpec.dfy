/** HTTP pipelining (section 8.1.2.2 of RFC 2616) as a state machine: transactions, numbered
    in the order they come under control, pass from fillers to writers to readers and may
    stand in two lines at once, while one byte credit tells which requests are on the wire. */
module PipelineSpec {
  import opened Wrappers

  /** A request: how long its header and body are, and how much of it is in the buffer
      already.  Until the header is made the expected size is unknown, which is -1. */
  datatype Xact = Xact(header: nat, body: nat, expected: int, actual: nat)

  function NewXact(header: nat, body: nat): Xact {
    Xact(header, body, -1, 0)
  }

  predicate Full(x: Xact) { x.expected == x.actual == x.header + x.body }

  predicate Begun(x: Xact) { x.expected == x.header + x.body && x.header <= x.actual <= x.expected }

  predicate Fresh(x: Xact) { x.expected == -1 && x.actual == 0 }

  /** `held` bytes wait in the write buffer; `wire` bytes have left it; `wrSize` of those
      are not yet claimed by a request.  `finished` lists the transactions that are done. */
  datatype Pipe = Pipe(
    xacts: seq<Xact>, fillers: seq<nat>, writers: seq<nat>, readers: seq<nat>, finished: seq<nat>,
    wrSize: int, held: nat, capacity: nat, wire: nat, writing: bool, reading: bool)

  /** The connection's first transaction hands over its read control. */
  function Start(first: Xact, capacity: nat): Pipe {
    Pipe([first], [], [], [0], [], 0, 0, capacity, first.actual, false, true)
  }

  function Control(p: Pipe, x: Xact): Pipe {
    p.(xacts := p.xacts + [x], fillers := p.fillers + [|p.xacts|], writing := true)
  }

  function Min(a: int, b: int): int { if a < b then a else b }

  // ----- filling -----

  datatype Filled = Filled(ok: bool, needMore: bool, xact: Xact, held: nat)

  /** Makes the header when half the buffer is free, then pours body bytes, as many as the
      body iterator offers.  Whether more is needed is decided before the pouring. */
  function Fill(x: Xact, held: nat, capacity: nat, offer: nat): Filled
    requires held <= capacity
  {
    if x.expected < 0 then
      if capacity - held < capacity / 2 then Filled(true, true, x, held)
      else if held + x.header >= capacity then Filled(false, false, x, held)
      else Pour(x.(expected := x.header + x.body, actual := x.header), held + x.header, capacity, offer)
    else Pour(x, held, capacity, offer)
  }

  function Pour(x: Xact, held: nat, capacity: nat, offer: nat): Filled
    requires held <= capacity
  {
    if x.actual < x.expected then
      var n: nat := Min(offer, Min(capacity - held, x.expected - x.actual));
      Filled(true, true, x.(actual := x.actual + n), held + n)
    else Filled(true, false, x, held)
  }

  predicate LastIs(line: seq<nat>, x: nat) { line != [] && line[|line| - 1] == x }

  function JoinLine(line: seq<nat>, x: nat): seq<nat> {
    if LastIs(line, x) then line else line + [x]
  }

  predicate Sound(p: Pipe) {
    && p.held <= p.capacity
    && Below(p.fillers, |p.xacts|)
    && Below(p.writers, |p.xacts|)
    && Below(p.readers, |p.xacts|)
  }

  predicate Below(line: seq<nat>, n: nat) {
    forall i :: 0 <= i < |line| ==> line[i] < n
  }

  /** Fills the buffer from the head of the line on; `None` when a header does not fit. */
  function FillLine(p: Pipe, offers: seq<nat>): (r: Option<Pipe>)
    requires Sound(p)
    ensures r.Some? ==> Sound(r.value)
    decreases |p.fillers|
  {
    if p.fillers == [] || p.held >= p.capacity then Some(p)
    else
      var x := p.fillers[0];
      var offer := if offers == [] then 0 else offers[0];
      var f := Fill(p.xacts[x], p.held, p.capacity, offer);
      if !f.ok then None
      else
        FillFits(p.xacts[x], p.held, p.capacity, offer);
        var q := p.(xacts := p.xacts[x := f.xact], held := f.held, writers := JoinLine(p.writers, x));
        if f.needMore then Some(q)
        else FillLine(q.(fillers := q.fillers[1..]), if offers == [] then [] else offers[1..])
  }

  lemma FillFits(x: Xact, held: nat, capacity: nat, offer: nat)
    requires held <= capacity
    ensures Fill(x, held, capacity, offer).held <= capacity
  {}

  // ----- writing -----

  /** One raw write of at most `offer` bytes on behalf of whoever stands in line. */
  function WriteOnce(p: Pipe, offer: nat): Pipe {
    if p.writers == [] then p
    else
      var n: nat := Min(offer, p.held);
      p.(held := p.held - n, wire := p.wire + n, wrSize := p.wrSize + n)
  }

  /** The transaction stands among the readers from now on. */
  function Reading(p: Pipe, w: nat): Pipe {
    p.(readers := JoinLine(p.readers, w), reading := p.reading || !LastIs(p.readers, w))
  }

  /** Claims the credit for the requests it covers and moves them on. */
  function MoveOn(p: Pipe): (q: Pipe)
    requires Sound(p)
    ensures Sound(q)
    decreases |p.writers|
  {
    if p.writers == [] || p.wrSize <= 0 then p
    else
      var w := p.writers[0];
      var q := Reading(p, w);
      if p.wrSize >= p.xacts[w].expected then
        var r := q.(wrSize := p.wrSize - p.xacts[w].expected, writers := p.writers[1..]);
        MoveOn(if r.fillers == [] && r.writers == [] then r.(writing := false) else r)
      else q.(writing := true)
  }

  // ----- events -----

  datatype Event =
    | Controlled(header: nat, body: nat)
    | WriteReady(offers: seq<nat>, sent: nat)
    | ResponseDone

  /** What an event makes of the pipeline; `None` where the source aborts it: a header that
      does not fit, or a read without a reader. */
  function Step(p: Pipe, e: Event): (r: Option<Pipe>)
    requires Sound(p)
    ensures r.Some? ==> Sound(r.value)
  {
    match e
    case Controlled(header, body) => Some(Control(p, NewXact(header, body)))
    case WriteReady(offers, sent) =>
      var f := FillLine(p, offers);
      if f.None? then None else Some(MoveOn(WriteOnce(f.value, sent)))
    case ResponseDone =>
      if p.readers == [] then None
      else
        Some(p.(readers := p.readers[1..], finished := p.finished + [p.readers[0]], reading := |p.readers| > 1))
  }

  // ----- the order -----

  /** `lo`, `lo + 1`, ... up to but not including `hi`. */
  function Window(lo: nat, hi: nat): (s: seq<nat>)
    requires lo <= hi
    ensures |s| == hi - lo
  {
    seq(hi - lo, i requires 0 <= i => lo + i)
  }

  function Bytes(xs: seq<Xact>): nat {
    if xs == [] then 0 else Bytes(xs[..|xs| - 1]) + xs[|xs| - 1].actual
  }

  /** The lines are consecutive windows: fillers from `f` on, writers from `w` on, readers
      up to `w` or one beyond.  One transaction at most stands at each boundary twice. */
  predicate Lines(p: Pipe, w: nat, f: nat) {
    var n, done := |p.xacts|, |p.finished|;
    && done <= w <= f <= n
    && f <= w + |p.writers| <= Min(f + 1, n)
    && w <= done + |p.readers| <= Min(w + 1, n)
    && p.finished == Window(0, done)
    && p.readers == Window(done, done + |p.readers|)
    && p.writers == Window(w, w + |p.writers|)
    && p.fillers == Window(f, n)
  }

  /** Requests before the head filler are in the buffer in full, those behind it not at all. */
  predicate Progress(p: Pipe, w: nat, f: nat) {
    && (forall i :: 0 <= i < |p.xacts| ==> p.xacts[i].header > 0)
    && (forall i :: 0 <= i < |p.xacts| && i < f ==> Full(p.xacts[i]))
    && (forall i :: f <= i < |p.xacts| ==>
      Fresh(p.xacts[i]) || (i == f && f < w + |p.writers| && Begun(p.xacts[i])))
  }

  /** All bytes filled are on the wire or in the buffer; what is on the wire beyond the
      requests that left the writers is the credit. */
  predicate Credit(p: Pipe, w: nat) {
    && w <= |p.xacts|
    && 0 <= p.wrSize && p.held <= p.capacity
    && p.wire + p.held == Bytes(p.xacts)
    && p.wire == Bytes(p.xacts[..w]) + p.wrSize
  }

  predicate Waiting(p: Pipe) {
    && (p.writing <==> p.fillers != [] || p.writers != [])
    && (p.reading <==> p.readers != [])
  }

  /** The first transaction that is still to be written in part. */
  function WriteFront(p: Pipe): int {
    |p.finished| + |p.readers| - (if p.wrSize > 0 then 1 else 0)
  }

  function FillFront(p: Pipe): int { |p.xacts| - |p.fillers| }

  /** What holds between callbacks. */
  predicate Inv(p: Pipe) {
    var w, f := WriteFront(p), FillFront(p);
    && w >= 0 && f >= 0
    && Lines(p, w, f) && Progress(p, w, f) && Credit(p, w) && Waiting(p)
    && (p.wrSize > 0 ==> p.writers != [] && p.wrSize < p.xacts[w].expected)
  }
}
