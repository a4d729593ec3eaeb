/** The pipeline manager and its transactions, updated in place; every callback is one step
    of the state machine. */
module Pipelines {
  import opened PipelineSpec
  import opened Wrappers
  import opened PipelineDrain

  /** The write buffer, as far as sizes go. */
  class WrBuf {
    const capacity: nat
    var contSize: nat

    constructor (capacity: nat)
      ensures this.capacity == capacity && contSize == 0
    {
      this.capacity := capacity;
      contSize := 0;
    }
  }

  class CltXact {
    ghost const number: nat
    const header: nat
    const body: nat
    var expected: int
    var actual: nat

    ghost function Value(): Xact
      reads this
    {
      Xact(header, body, expected, actual)
    }

    constructor (ghost number: nat, header: nat, body: nat)
      ensures this.number == number && Value() == NewXact(header, body)
    {
      this.number := number;
      this.header, this.body := header, body;
      expected, actual := -1, 0;
    }

    /** Fills buffer space under manager control. */
    method ControlledFill(buf: WrBuf, offer: nat) returns (ok: bool, needMore: bool)
      requires buf.contSize <= buf.capacity
      modifies this, buf
      ensures var r := old(Fill(Value(), buf.contSize, buf.capacity, offer));
        && ok == r.ok
        && (ok ==> needMore == r.needMore && Value() == r.xact && buf.contSize == r.held)
      ensures FilledUp(old(Value()), old(buf.contSize), buf.capacity, offer, Filled(ok, needMore, Value(), buf.contSize))
    {
      FillTheorem(Value(), buf.contSize, buf.capacity, offer);
      needMore := false;
      if expected < 0 {
        var reservedSpace := buf.capacity / 2;
        needMore := buf.capacity - buf.contSize < reservedSpace;
        if needMore {
          return true, needMore;
        }
        if buf.contSize + header >= buf.capacity {
          return false, needMore;
        }
        expected, actual := header + body, header;
        buf.contSize := buf.contSize + header;
      }
      needMore := actual < expected;
      if actual < expected {
        var poured: nat := Min(offer, Min(buf.capacity - buf.contSize, expected - actual));
        actual := actual + poured;
        buf.contSize := buf.contSize + poured;
      }
      ok := true;
    }

    /** Takes the request's size off the credit if the credit covers it. */
    method ControlledPostWrite(size: int) returns (left: int, needMore: bool)
      ensures needMore <==> size < expected
      ensures left == if needMore then size else size - expected
    {
      if size >= expected {
        left, needMore := size - expected, false;
      } else {
        left, needMore := size, true;
      }
    }
  }

  ghost function Numbers(line: seq<CltXact>): (s: seq<nat>)
    ensures |s| == |line|
  {
    seq(|line|, i requires 0 <= i < |line| => line[i].number)
  }

  ghost function Values(line: seq<CltXact>): (s: seq<Xact>)
    reads line
    ensures |s| == |line|
  {
    seq(|line|, i requires 0 <= i < |line| reads line => line[i].Value())
  }

  class PipelinedCxm {
    const theWrBuf: WrBuf
    var theFillers: seq<CltXact>
    var theWriters: seq<CltXact>
    var theReaders: seq<CltXact>
    var theWrSize: int
    var writing: bool
    var reading: bool
    /** Everybody who came under control, who has finished, and the bytes sent. */
    ghost var xacts: seq<CltXact>
    ghost var finished: seq<nat>
    ghost var wire: nat

    ghost predicate Registered(line: seq<CltXact>)
      reads this
    {
      forall i :: 0 <= i < |line| ==> line[i].number < |xacts| && xacts[line[i].number] == line[i]
    }

    ghost predicate Valid()
      reads this, theWrBuf
    {
      && theWrBuf.contSize <= theWrBuf.capacity
      && (forall i :: 0 <= i < |xacts| ==> xacts[i].number == i)
      && Registered(theFillers) && Registered(theWriters) && Registered(theReaders)
    }

    ghost function State(): (p: Pipe)
      requires Valid()
      reads this, theWrBuf, xacts
      ensures Sound(p)
    {
      Pipe(Values(xacts), Numbers(theFillers), Numbers(theWriters), Numbers(theReaders), finished,
           theWrSize, theWrBuf.contSize, theWrBuf.capacity, wire, writing, reading)
    }

    /** Read control over the connection's first transaction, whose request is written. */
    constructor (first: CltXact, buf: WrBuf)
      requires first.number == 0 && buf.contSize == 0
      ensures Valid() && fresh(this) && theWrBuf == buf && xacts == [first]
      ensures State() == Start(first.Value(), buf.capacity)
    {
      theWrBuf := buf;
      theFillers, theWriters, theReaders := [], [], [first];
      theWrSize, writing, reading := 0, false, true;
      xacts, finished, wire := [first], [], first.actual;
    }

    method Control(x: CltXact)
      requires Valid() && x.number == |xacts| && x.Value() == NewXact(x.header, x.body)
      modifies this
      ensures Valid() && xacts == old(xacts) + [x]
      ensures State() == PipelineSpec.Control(old(State()), x.Value())
    {
      ghost var p := State();
      theFillers := theFillers + [x];
      xacts := xacts + [x];
      if !writing {
        writing := true;
      }
      assert Values(xacts) == p.xacts + [x.Value()];
      assert Numbers(theFillers) == p.fillers + [|p.xacts|];
    }

    /** The head filler fills what it can and joins the writers. */
    method FillHead(offer: nat) returns (ok: bool, needMore: bool)
      requires Valid() && theFillers != []
      modifies this`theWriters, theWrBuf, theFillers[0]
      ensures xacts == old(xacts)
      ensures var p := old(State());
        var x := p.fillers[0];
        var r := Fill(p.xacts[x], p.held, p.capacity, offer);
        && ok == r.ok
        && (ok ==> Valid() && needMore == r.needMore)
        && (ok ==> State() == p.(xacts := p.xacts[x := r.xact], held := r.held, writers := JoinLine(p.writers, x)))
    {
      ghost var p := State();
      var x := theFillers[0];
      ok, needMore := x.ControlledFill(theWrBuf, offer);
      if ok {
        FillFits(p.xacts[x.number], p.held, p.capacity, offer);
        if |theWriters| == 0 || theWriters[|theWriters| - 1] != x {
          theWriters := theWriters + [x];
        }
        assert Values(xacts) == p.xacts[x.number := x.Value()];
        assert Numbers(theWriters) == JoinLine(p.writers, x.number);
      }
    }

    method DropFiller()
      requires Valid() && theFillers != []
      modifies this`theFillers
      ensures Valid() && State() == old(State()).(fillers := old(State()).fillers[1..])
    {
      theFillers := theFillers[1..];
      assert Numbers(theFillers) == old(State()).fillers[1..];
    }

    method FillBuffer(offers: seq<nat>) returns (ok: bool)
      requires Valid()
      modifies this`theFillers, this`theWriters, theWrBuf, xacts
      ensures ok <==> old(FillLine(State(), offers)).Some?
      ensures ok ==> Valid() && State() == old(FillLine(State(), offers)).value
    {
      hide Fill, Valid, State, Sound, JoinLine;
      var rest := offers;
      while |theFillers| > 0 && theWrBuf.contSize < theWrBuf.capacity
        invariant Valid() && FillLine(State(), rest) == old(FillLine(State(), offers))
        decreases |theFillers|
      {
        Shape();
        var needMore;
        ok, needMore := FillHead(if |rest| == 0 then 0 else rest[0]);
        if !ok {
          return;
        }
        if needMore {
          return;
        }
        Shape();
        DropFiller();
        Shape();
        rest := if |rest| == 0 then [] else rest[1..];
      }
      Shape();
      ok := true;
    }

    lemma Shape()
      requires Valid()
      ensures |State().fillers| == |theFillers| && |State().writers| == |theWriters| && |State().readers| == |theReaders|
      ensures State().held == theWrBuf.contSize <= theWrBuf.capacity == State().capacity && State().wrSize == theWrSize
      ensures theFillers != [] ==> theFillers[0] in xacts
      ensures theWriters != [] ==> theWriters[0] in xacts
    {}

    lemma Shown()
      requires Valid()
      ensures State().wire == wire && State().held == theWrBuf.contSize
    {}

    /** One raw write on behalf of the first writer. */
    method MasterWrite(offer: nat)
      requires Valid()
      modifies this`theWrSize, this`wire, theWrBuf
      ensures Valid() && State() == WriteOnce(old(State()), offer)
      ensures var sz := if |theWriters| == 0 then 0
                        else if offer < old(theWrBuf.contSize) then offer else old(theWrBuf.contSize);
        wire == old(wire) + sz && theWrSize == old(theWrSize) + sz && theWrBuf.contSize == old(theWrBuf.contSize) - sz
    {
      if |theWriters| > 0 {
        var sz: nat := Min(offer, theWrBuf.contSize);
        theWrBuf.contSize := theWrBuf.contSize - sz;
        wire := wire + sz;
        theWrSize := theWrSize + sz;
      }
    }

    /** The first writer takes its share of the credit, stands among the readers, and leaves
        the writers when its request is covered. */
    method PostWrite() returns (more: bool)
      requires Valid() && theWriters != []
      modifies this`theWriters, this`theReaders, this`theWrSize, this`writing, this`reading
      ensures Valid() && |theWriters| == old(|theWriters|) - (if more then 0 else 1)
      ensures var p := old(State());
        var w := p.writers[0];
        var q := Reading(p, w);
        var r := q.(wrSize := p.wrSize - p.xacts[w].expected, writers := p.writers[1..]);
        && (more <==> p.wrSize < p.xacts[w].expected)
        && State() == if more then q.(writing := true)
          else if r.fillers == [] && r.writers == [] then r.(writing := false) else r
    {
      hide Valid, State, Sound, JoinLine, LastIs, Numbers;
      Shape();
      var w := theWriters[0];
      HeadWriter();
      var left;
      left, more := w.ControlledPostWrite(theWrSize);
      PrepReading(w);
      if more {
        KeepWriting();
      } else {
        LeaveWriters(left);
      }
    }

    lemma HeadWriter()
      requires Valid() && theWriters != []
      ensures var w := theWriters[0];
        && State().writers != [] && State().writers[0] == w.number < |xacts| && xacts[w.number] == w
        && State().xacts[w.number].expected == w.expected
    {}

    /** Lines the transaction up for reading unless it is the last in that line already. */
    method PrepReading(x: CltXact)
      requires Valid() && x.number < |xacts| && xacts[x.number] == x
      modifies this`theReaders, this`reading
      ensures Valid() && State() == Reading(old(State()), x.number)
    {
      ghost var p := State();
      if |theReaders| == 0 || theReaders[|theReaders| - 1] != x {
        theReaders := theReaders + [x];
        if !reading {
          reading := true;
        }
      }
      assert Numbers(theReaders) == JoinLine(p.readers, x.number);
    }

    method KeepWriting()
      requires Valid()
      modifies this`writing
      ensures Valid() && State() == old(State()).(writing := true)
    {
      if !writing {
        writing := true;
      }
    }

    method LeaveWriters(left: int)
      requires Valid() && theWriters != []
      modifies this`theWriters, this`theWrSize, this`writing
      ensures Valid() && |theWriters| == old(|theWriters|) - 1
      ensures var p := old(State());
        var r := p.(wrSize := left, writers := p.writers[1..]);
        State() == if r.fillers == [] && r.writers == [] then r.(writing := false) else r
    {
      ghost var p := State();
      theWrSize := left;
      theWriters := theWriters[1..];
      assert Numbers(theWriters) == p.writers[1..];
      if |theFillers| == 0 && |theWriters| == 0 {
        writing := false;
      }
    }

    method PassOn()
      requires Valid()
      modifies this`theWriters, this`theReaders, this`theWrSize, this`writing, this`reading
      ensures Valid() && State() == MoveOn(old(State()))
    {
      hide Valid, State, Sound, JoinLine;
      while |theWriters| > 0 && theWrSize > 0
        invariant Valid() && MoveOn(State()) == MoveOn(old(State()))
        decreases |theWriters|
      {
        Shape();
        var more := PostWrite();
        if more {
          return;
        }
      }
      Shape();
    }

    /** Fills, writes once and passes the writers on.  False when the pipeline is aborted. */
    method NoteWriteReady(offers: seq<nat>, sent: nat) returns (ok: bool)
      requires Valid()
      modifies this`theFillers, this`theWriters, this`theReaders, this`theWrSize, this`writing, this`reading, this`wire
      modifies theWrBuf, xacts
      ensures ok <==> Step(old(State()), WriteReady(offers, sent)).Some?
      ensures ok ==> Valid() && State() == Step(old(State()), WriteReady(offers, sent)).value
      ensures ok ==>
        var f := old(FillLine(State(), offers)).value;
        && wire - old(wire) == (if f.writers == [] then 0 else if sent < f.held then sent else f.held)
        && theWrBuf.contSize == f.held - (wire - old(wire))
    {
      hide Valid, State, Sound, FillLine, MoveOn;
      ghost var p := State();
      Shown();
      ok := FillBuffer(offers);
      if ok {
        WireTheorem(p, offers, sent);
        MasterWrite(sent);
        PassOn();
        Shown();
      }
    }

    /** The first reader, the only one ever asked to read, is done. */
    method NoteDone() returns (x: CltXact)
      requires Valid() && theReaders != []
      modifies this`theReaders, this`finished, this`reading
      ensures x == old(theReaders[0])
      ensures Valid() && Step(old(State()), ResponseDone) == Option.Some(State())
    {
      ghost var p := State();
      x := theReaders[0];
      finished := finished + [x.number];
      theReaders := theReaders[1..];
      assert Numbers(theReaders) == p.readers[1..];
      reading := |theReaders| > 0;
    }
  }
}
