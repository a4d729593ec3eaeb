/** The imperative chunked parser: a view that is consumed in place, an owner that is
    told about content and trailers, and the step loop, each tied to the step functions
    of ChunkedDecoding. */
module ChunkedParsing {
  import opened CText
  import opened Wrappers
  import opened HttpText
  import opened ChunkedDecoding

  /** A read-only view: a pointer into memory and the number of bytes that may be consumed. */
  class ParseBuffer {
    var theData: string  // memory from the pointer on, the view first
    var theSize: nat

    ghost predicate Valid()
      reads this
    {
      theSize <= |theData|
    }

    function View(): string
      requires Valid()
      reads this
    {
      theData[..theSize]
    }

    constructor ()
      ensures Valid() && View() == ""
    {
      theData, theSize := "", 0;
    }

    method Assign(data: string, size: nat)
      requires size <= |data|
      modifies this
      ensures Valid() && theData == data && theSize == size
    {
      theData, theSize := data, size;
    }

    /** Consuming too much is complained about and consumes everything. */
    method Consume(size: nat)
      requires Valid()
      modifies this
      ensures Valid()
      ensures var n := if size <= old(theSize) then size else old(theSize);
              theData == old(theData)[n..] && View() == old(View())[n..]
    {
      var n := if size <= theSize then size else theSize;
      theData := theData[n..];
      theSize := theSize - n;
    }
  }

  /** What the owning transaction hears from its body parsers. */
  class Owner {
    var content: string
    var trailers: seq<string>
    var endsSeen: nat

    constructor ()
      ensures content == "" && trailers == [] && endsSeen == 0
    {
      content, trailers, endsSeen := "", [], 0;
    }

    method NoteContent(data: string)
      modifies `content
      ensures content == old(content) + data
    {
      content := content + data;
    }

    method NoteTrailerHeader(header: string)
      modifies `trailers
      ensures trailers == old(trailers) + [header]
    {
      trailers := trailers + [header];
    }

    method NoteEndOfTrailer()
      modifies `endsSeen
      ensures endsSeen == old(endsSeen) + 1
    {
      endsSeen := endsSeen + 1;
    }
  }

  class ChunkedCodingParser {
    const theOwner: Owner
    const theBuf: ParseBuffer
    var theStep: Phase
    var theChunkSize: int
    var theLeftBodySize: int
    var needMoreData: bool
    var theError: bool

    ghost predicate Valid()
      reads this, theBuf, theOwner
    {
      theBuf.Valid() && Coherent(State())
    }

    function State(): Decoder
      reads this, theOwner
    {
      Decoder(theStep, theChunkSize, theLeftBodySize, theError,
              theOwner.content, theOwner.trailers, theOwner.endsSeen)
    }

    function After(): string
      requires theBuf.Valid()
      reads this, theBuf
    {
      theBuf.theData[theBuf.theSize..]
    }

    predicate MayContinue()
      reads this
    {
      !needMoreData && !theError && theStep != MessageEnd
    }

    constructor (owner: Owner)
      requires owner.content == "" && owner.trailers == [] && owner.endsSeen == 0
      ensures Valid() && theOwner == owner && fresh(this) && fresh(theBuf)
      ensures State() == Fresh
    {
      theOwner := owner;
      theBuf := new ParseBuffer();
      theStep, theChunkSize, theLeftBodySize := ChunkBeg, -1, -1;
      needMoreData, theError := false, false;
    }

    /** The effect of one step on the fields, as the step function `s` gives it. */
    twostate predicate Did(s: Stepped)
      reads this, theBuf, theOwner
    {
      && theBuf.Valid() && old(theBuf.Valid())
      && State() == s.d && needMoreData == s.stalled
      && s.used <= |old(theBuf.View())|
      && theBuf.theData == old(theBuf.theData)[s.used..]
      && theBuf.theSize == old(theBuf.theSize) - s.used
    }

    method ParseChunkBeg()
      requires Valid() && MayContinue() && theStep == ChunkBeg
      modifies this, theBuf
      ensures Did(old(StepChunkBeg(State(), theBuf.View(), After())))
    {
      hide IsInt, Coherent;
      assert theBuf.theData == theBuf.View() + After();
      var crlf := HttpFindCrlf(theBuf.View());
      if crlf.None? {
        needMoreData := true;
        return;
      }
      var size := IsInt(theBuf.theData, 16);
      if size.None? || size.value < 0 {
        theError := true;
        return;
      }
      theBuf.Consume(crlf.value.end);
      theChunkSize, theLeftBodySize := size.value, size.value;
      theStep := if theChunkSize == 0 then Trailer else ChunkBody;
    }

    method ParseChunkBody()
      requires Valid() && MayContinue() && theStep == ChunkBody
      modifies this, theBuf, theOwner`content
      ensures Did(old(StepChunkBody(State(), theBuf.View())))
    {
      var size := if theLeftBodySize <= theBuf.theSize then theLeftBodySize else theBuf.theSize;
      theOwner.NoteContent(theBuf.View()[..size]);
      theBuf.Consume(size);
      theLeftBodySize := theLeftBodySize - size;
      if theLeftBodySize == 0 {
        theStep := ChunkEnd;
      } else {
        needMoreData := true;
      }
    }

    method ParseChunkEnd()
      requires Valid() && MayContinue() && theStep == ChunkEnd
      modifies this, theBuf
      ensures Did(old(StepChunkEnd(State(), theBuf.View())))
    {
      var crlf := HttpFindCrlf(theBuf.View());
      if crlf.None? {
        needMoreData := true;
      } else if crlf.value.beg != 0 {
        theError := true;
      } else {
        theBuf.Consume(crlf.value.end);
        theChunkSize := -1;
        theStep := ChunkBeg;
      }
    }

    method ParseTrailerHeader()
      requires Valid() && MayContinue() && theStep == Trailer
      modifies this, theBuf, theOwner
      ensures Did(old(StepTrailerHeader(State(), theBuf.View())))
    {
      var crlf := HttpFindCrlf(theBuf.View());
      if crlf.None? {
        needMoreData := true;
        return;
      }
      if crlf.value.beg > 0 {
        theOwner.NoteTrailerHeader(theBuf.View()[..crlf.value.beg]);
      }
      theBuf.Consume(crlf.value.end);
      if crlf.value.beg == 0 {
        theStep := MessageEnd;
        theOwner.NoteEndOfTrailer();
      }
    }

    /** The method the step pointer designates, for a step that may still run. */
    method RunStep()
      requires Valid() && MayContinue()
      modifies this, theBuf, theOwner
      ensures Did(old(Step(State(), theBuf.View(), After())))
    {
      match theStep
      case ChunkBeg => ParseChunkBeg();
      case ChunkBody => ParseChunkBody();
      case ChunkEnd => ParseChunkEnd();
      case Trailer => ParseTrailerHeader();
    }

    /** One turn of the loop, with `used` bytes of the data behind it. */
    method OneStep(data: string, size: nat, used: nat) returns (after: nat)
      requires Valid() && MayContinue() && used <= size <= |data|
      requires theBuf.theData == data[used..] && theBuf.theSize == size - used
      modifies this, theBuf, theOwner
      ensures Valid() && used <= after <= size
      ensures theBuf.theData == data[after..] && theBuf.theSize == size - after
      ensures old(Parse(State(), data[used..size], data[size..]))
           == if needMoreData then Progress(State(), data[after..size])
              else Parse(State(), data[after..size], data[size..])
      ensures after > used || theError || needMoreData
    {
      hide Parse, Step;
      assert theBuf.View() == data[used..size] && After() == data[size..];
      ParseUnfolds(State(), data[used..size], data[size..]);
      RunStep();
      var taken := size - used - theBuf.theSize;
      SliceOfSlice(data, used, size, taken);
      after := used + taken;
    }

    /** Returns how much of the presented data was consumed.  The source nests a second
        loop for trailer headers, with this loop's own guard. */
    method ParseData(data: string, size: nat) returns (used: nat)
      requires Valid() && size <= |data|
      modifies this, theBuf, theOwner
      ensures Valid()
      ensures used <= size
      ensures Parse(old(State()), data[..size], data[size..])
           == Progress(State(), data[used..size])
    {
      hide Parse, Step, Coherent;
      theBuf.Assign(data, size);
      needMoreData := theBuf.theSize == 0;
      ghost var goal := Parse(State(), data[..size], data[size..]);
      used := 0;
      if needMoreData {
        ParseOfNothing(State(), data[size..]);
      }
      while MayContinue()
        invariant Valid() && used <= size
        invariant theBuf.theData == data[used..] && theBuf.theSize == size - used
        invariant if needMoreData then goal == Progress(State(), data[used..size])
                  else goal == Parse(State(), data[used..size], data[size..])
        decreases size - used, !theError, !needMoreData
      {
        used := OneStep(data, size, used);
      }
      if !needMoreData {
        ParseWhenHalted(State(), data[used..size], data[size..]);
      }
    }
  }

  lemma SliceOfSlice(data: string, from: nat, upto: nat, n: nat)
    requires from + n <= upto <= |data|
    ensures data[from..upto][n..] == data[from + n..upto]
  {}

  lemma ParseOfNothing(d: Decoder, after: string)
    requires Coherent(d)
    ensures Parse(d, "", after) == Progress(d, "")
  {}

  lemma ParseWhenHalted(d: Decoder, buf: string, after: string)
    requires Coherent(d) && d.Halted()
    ensures Parse(d, buf, after) == Progress(d, buf)
  {}

  /** One round of the loop; entered with an exhausted view it only asks for more. */
  lemma ParseUnfolds(d: Decoder, buf: string, after: string)
    requires Coherent(d) && !d.Halted()
    ensures var s := Step(d, buf, after);
            Parse(d, buf, after) == if s.stalled then Progress(s.d, buf[s.used..])
                                    else Parse(s.d, buf[s.used..], after)
  {
    if buf == "" {
      assert d.content + "" == d.content;
      assert Step(d, buf, after) == Stepped(d, 0, true);
    }
  }
}
