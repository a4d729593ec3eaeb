/** The buffered binary output log: a growing buffer that is flushed piecemeal, and an
    open entry whose size field is patched when it ends. */
module OutputLog {
  import opened LogFormat

  class OLog {
    var isOpen: bool          // whether there is a stream to write to
    var written: seq<byte>    // what the stream has received
    var theBuf: array<byte>
    var theSize: nat
    var thePos: int
    var theEntry: int         // offset of the open entry in theBuf, or -1
    var theEntryTag: int
    var theDir: seq<int>

    ghost var items: seq<Item>     // everything put so far except the open entry
    ghost var pending: seq<byte>   // the open entry, its size still a placeholder

    ghost predicate Valid()
      reads this, theBuf
      ensures Valid() ==> 0 < theBuf.Length && theSize <= theBuf.Length && thePos == |Log()|
    {
      && 0 < theBuf.Length && theSize <= theBuf.Length
      && -1 <= theEntry <= theSize
      && (!isOpen ==> theEntry < 0)
      && thePos == |Log()|
      && Log() == Rendered(items) + pending
      && (theEntry < 0 ==> pending == [])
      && (theEntry >= 0 ==> theEntryTag > 0 && |written| + theEntry == |Rendered(items)|)
      && IsDirectory(theDir, items)
    }

    /** The logical log: what the stream has, then what is still buffered. */
    ghost function Log(): seq<byte>
      requires theSize <= theBuf.Length
      reads this, theBuf
    {
      written + theBuf[..theSize]
    }

    ghost predicate EntryOpen()
      reads this
    {
      theEntry >= 0
    }

    /** An entry is open and its two header fields are in place. */
    ghost predicate InEntry()
      reads this
    {
      EntryOpen() && |pending| >= 8 && pending[..8] == Be32(0) + Be32(theEntryTag)
    }

    ghost function Payload(): seq<byte>
      requires InEntry()
      reads this
    {
      pending[8..]
    }

    /** Nothing but the buffer's extent and the flushed share of the log has changed. */
    twostate predicate SameLog()
      requires theSize <= theBuf.Length && old(theSize <= theBuf.Length)
      reads this, theBuf
    {
      && Log() == old(Log()) && items == old(items) && pending == old(pending)
      && EntryOpen() == old(EntryOpen()) && theEntryTag == old(theEntryTag)
      && isOpen == old(isOpen) && theDir == old(theDir) && thePos == old(thePos)
    }

    constructor (capacity: nat)
      requires capacity > 0
      ensures Valid() && fresh(theBuf)
      ensures !isOpen && Log() == [] && items == []
    {
      theBuf := new byte[capacity](_ => 0);
      isOpen, written, theSize, thePos := false, [], 0, 0;
      theEntry, theEntryTag, theDir := -1, -1, [];
      items, pending := [], [];
    }

    /** Attaches a fresh stream and writes the header. */
    method Stream(zlib: bool)
      requires Valid() && !isOpen && Log() == [] && items == []
      modifies this, theBuf
      ensures Valid() && (theBuf == old(theBuf) || fresh(theBuf))
      ensures isOpen && !EntryOpen()
      ensures items == [Raw(Header(zlib))] && Log() == Header(zlib)
    {
      OpenStream();
      PutHeader(zlib);
    }

    method OpenStream()
      requires Valid() && !isOpen
      modifies this
      ensures Valid() && isOpen && !EntryOpen()
      ensures Log() == old(Log()) && items == old(items)
      ensures theBuf == old(theBuf)
    {
      isOpen := true;
    }

    method PutHeader(zlib: bool)
      requires Valid() && isOpen && !EntryOpen() && Log() == [] && items == []
      modifies this, theBuf
      ensures Valid() && (theBuf == old(theBuf) || fresh(theBuf))
      ensures isOpen && !EntryOpen()
      ensures items == [Raw(Header(zlib))] && Log() == Header(zlib)
    {
      hide Valid, Be32, AddRaw;
      PutInt(26);
      assert [] + Be32(26) == Be32(26);
      PutLoose(Be32(26));
      if zlib {
        PutLoose(Be32(32));
        PutLoose(ZlibName());
        Flush(theSize);
      } else {
        PutLoose(Be32(0));
      }
      assert items == [Raw(Log())] by {
        AddRawToNone(Log());
      }
    }

    /** Puts bytes while everything in the log is loose bytes. */
    method PutLoose(buf: seq<byte>)
      requires Valid() && isOpen && !EntryOpen() && items == AddRaw([], Log()) && buf != []
      modifies this, theBuf
      ensures Valid() && (theBuf == old(theBuf) || fresh(theBuf))
      ensures isOpen && !EntryOpen() && items == AddRaw([], Log()) && Log() == old(Log()) + buf
    {
      hide Valid, AddRaw;
      AddRawTwice([], Log(), buf);
      Put(buf);
    }

    /** Grows the buffer; the open entry moves along with the bytes. */
    method Capacity(cap: nat)
      requires Valid() && cap >= theBuf.Length
      modifies this
      ensures Valid() && SameLog() && (theBuf == old(theBuf) || fresh(theBuf))
      ensures theBuf.Length == cap && theSize == old(theSize) && written == old(written)
    {
      if cap > theBuf.Length {
        var buf := new byte[cap](_ => 0);
        forall i | 0 <= i < theSize {
          buf[i] := theBuf[i];
        }
        assert buf[..theSize] == theBuf[..theSize];
        theBuf := buf;
      }
    }

    method Resize(minCap: nat)
      requires Valid() && minCap >= theBuf.Length
      modifies this
      ensures Valid() && SameLog() && (theBuf == old(theBuf) || fresh(theBuf))
      ensures theBuf.Length >= minCap && theSize == old(theSize) && written == old(written)
    {
      var newCap := theBuf.Length;
      while newCap < minCap
        invariant newCap >= theBuf.Length
      {
        newCap := newCap * 2;
      }
      Capacity(newCap);
    }

    /** Writes out at most `maxSize` buffered bytes, none of them from the open entry. */
    method Flush(maxSize: int)
      requires Valid()
      modifies this, theBuf
      ensures Valid() && SameLog() && theBuf == old(theBuf)
      ensures var ready := if old(theEntry) >= 0 then old(theEntry) else old(theSize);
              var n := if !isOpen || maxSize < 0 then 0 else if maxSize <= ready then maxSize else ready;
              && theSize == old(theSize) - n
              && written == old(written) + old(theBuf[..theSize])[..n]
    {
      hide IsDirectory, Rendered;
      if !isOpen {
        assert theBuf[..theSize][..0] == [];
        return;
      }
      var ready := if theEntry >= 0 then theEntry else theSize;
      var n := if maxSize <= ready then maxSize else ready;
      if n > 0 {
        WriteOut(n);
      } else {
        assert theBuf[..theSize][..0] == [];
      }
    }

    /** Writes the first `n` bytes and moves the leftovers to the front. */
    method WriteOut(n: nat)
      requires Valid() && isOpen && n <= if theEntry >= 0 then theEntry else theSize
      modifies this, theBuf
      ensures Valid() && SameLog() && theBuf == old(theBuf)
      ensures theSize == old(theSize) - n
      ensures written == old(written) + old(theBuf[..theSize])[..n]
    {
      hide IsDirectory, Rendered;
      ghost var before := theBuf[..theSize];
      written := written + theBuf[..n];
      theSize := theSize - n;
      forall i | 0 <= i < theSize {
        theBuf[i] := theBuf[i + n];
      }
      assert theBuf[..theSize] == before[n..];
      assert Log() == old(written) + before;
      if theEntry >= 0 {
        theEntry := theEntry - n;
      }
    }

    /** Appends bytes to the log; a log without a stream ignores them. */
    method Put(buf: seq<byte>)
      requires Valid()
      modifies this, theBuf
      ensures Valid() && (theBuf == old(theBuf) || fresh(theBuf))
      ensures Appended(buf)
      decreases |buf|, if theSize + |buf| <= theBuf.Length then 0 else 2
    {
      if |buf| > 0 && isOpen {
        if theSize + |buf| <= theBuf.Length {
          Store(buf);
        } else {
          Overflow(buf);
        }
      }
    }

    ghost function Now(): Face
      requires theSize <= theBuf.Length
      reads this, theBuf
    {
      Face(isOpen, EntryOpen(), theEntryTag, theDir, Log(), items, pending)
    }

    /** What putting `buf` does to the log and its pieces. */
    twostate predicate Appended(buf: seq<byte>)
      requires theSize <= theBuf.Length && old(theSize <= theBuf.Length)
      reads this, theBuf
    {
      Added(old(Now()), buf, Now())
    }

    method Store(buf: seq<byte>)
      requires Valid() && isOpen && buf != [] && theSize + |buf| <= theBuf.Length
      modifies this, theBuf
      ensures Valid() && theBuf == old(theBuf)
      ensures Appended(buf)
      ensures theSize == old(theSize) + |buf|
    {
      hide IsDirectory, Rendered, AddRaw, Be32;
      ghost var before := theBuf[..theSize];
      forall i | 0 <= i < |buf| {
        theBuf[theSize + i] := buf[i];
      }
      theSize := theSize + |buf|;
      assert theBuf[..theSize] == before + buf;
      assert Log() == old(Log()) + buf;
      thePos := thePos + |buf|;
      if theEntry >= 0 {
        pending := pending + buf;
      } else {
        RenderedAddRaw(items, buf);
        RawKeepsDirectory(theDir, items, buf);
        items := AddRaw(items, buf);
      }
    }

    method Overflow(buf: seq<byte>)
      requires Valid() && isOpen && theSize + |buf| > theBuf.Length
      modifies this, theBuf
      ensures Valid() && (theBuf == old(theBuf) || fresh(theBuf))
      ensures Appended(buf)
      decreases |buf|, 1
    {
      hide Valid, Added;
      ghost var before := Now();
      var rest := buf;
      var space := theBuf.Length - theSize;
      AddedNothing(before);
      if space > 0 {
        Put(rest[..space]);
        rest := rest[space..];
      }
      ghost var between := Now();
      MakeRoom(|rest|);
      Put(rest);
      AddedTwice(before, between, Now(), buf[..space], rest);
      assert buf[..space] + buf[space..] == buf;
    }

    /** Empties what may be emptied, then grows if `n` more bytes still do not fit. */
    method MakeRoom(n: nat)
      requires Valid()
      modifies this, theBuf
      ensures Valid() && SameLog() && (theBuf == old(theBuf) || fresh(theBuf))
      ensures theSize + n <= theBuf.Length
    {
      hide IsDirectory, Rendered, Be32;
      Flush(theSize);
      var space := theBuf.Length - theSize;
      if space < n {
        Resize(theSize + n);
      }
    }

    method PutInt(x: int)
      requires Valid()
      modifies this, theBuf
      ensures Valid() && (theBuf == old(theBuf) || fresh(theBuf))
      ensures Appended(Be32(x))
    {
      Put(Be32(x));
    }

    /** The array writer: a count, then the elements. */
    method PutInts(xs: seq<int>)
      requires Valid() && isOpen
      modifies this, theBuf
      ensures Valid() && (theBuf == old(theBuf) || fresh(theBuf))
      ensures Appended(Directory(xs))
    {
      hide Valid, Be32, Added, Be32s;
      ghost var before := Now();
      PutInt(|xs|);
      NoBe32s(Be32(|xs|), xs);
      for i := 0 to |xs|
        invariant Valid() && (theBuf == old(theBuf) || fresh(theBuf))
        invariant Appended(Be32(|xs|) + Be32s(xs[..i]))
      {
        ghost var between := Now();
        Be32sGrows(Be32(|xs|), xs, i);
        PutInt(xs[i]);
        AddedTwice(before, between, Now(), Be32(|xs|) + Be32s(xs[..i]), Be32(xs[i]));
      }
      assert xs[..|xs|] == xs;
    }

    method BegEntry(tag: int)
      requires Valid() && isOpen && !EntryOpen() && tag > 0
      modifies this, theBuf
      ensures Valid() && isOpen && (theBuf == old(theBuf) || fresh(theBuf))
      ensures InEntry() && theEntryTag == tag && Payload() == []
      ensures items == old(items) && theDir == old(theDir)
    {
      hide Valid, Be32;
      OpenEntry(tag);
      PutInt(0);  // size placeholder
      PutInt(tag);
      assert pending == Be32(0) + Be32(tag);
    }

    method OpenEntry(tag: int)
      requires Valid() && isOpen && !EntryOpen() && tag > 0
      modifies this
      ensures Valid() && isOpen && theBuf == old(theBuf)
      ensures EntryOpen() && theEntryTag == tag && pending == []
      ensures items == old(items) && theDir == old(theDir)
    {
      hide IsDirectory, Rendered;
      theEntry := theSize;
      theEntryTag := tag;
    }

    /** Patches the size field and files the entry in the directory. */
    method EndEntry()
      requires Valid() && isOpen && InEntry()
      modifies this, theBuf
      ensures Valid() && isOpen && theBuf == old(theBuf) && !EntryOpen()
      ensures items == old(items) + [Closed(Entry(old(theEntryTag), old(Payload())))]
      ensures written == old(written)
    {
      hide IsDirectory, Rendered, Be32;
      ghost var e := Entry(theEntryTag, Payload());
      ghost var before := theBuf[..theSize];
      var x := Be32(theSize - theEntry);
      forall i | 0 <= i < 4 {
        theBuf[theEntry + i] := x[i];
      }
      assert theBuf[..theSize] == before[..theEntry] + x + before[theEntry + 4..];
      PatchedSize(written, before, theEntry, Rendered(items), e);
      RenderedLast(items, Closed(e));
      DirectoryAdds(theDir, items, e);
      if |theDir| > theEntryTag {
        if theDir[theEntryTag] == 0 {
          theDir := theDir[theEntryTag := thePos];
        } else if theDir[theEntryTag] > 0 {
          theDir := theDir[theEntryTag := -theDir[theEntryTag]];
        }
      } else {
        theDir := theDir + seq(theEntryTag - |theDir|, _ => 0) + [thePos];
      }
      theEntryTag := -1;
      theEntry := -1;
      items, pending := items + [Closed(e)], [];
    }

    /** Forgets the open entry: none of its bytes has been handed over. */
    method Abort()
      requires Valid() && isOpen
      modifies this
      ensures Valid() && isOpen && !EntryOpen() && theBuf == old(theBuf)
      ensures items == old(items) && theDir == old(theDir) && Log() == Rendered(items)
    {
      hide IsDirectory, Rendered, Be32;
      if theEntry >= 0 {
        var readySize := theEntry;
        assert Log()[..|Rendered(items)|] == written + theBuf[..readySize];
        thePos := thePos - (theSize - readySize);
        theSize := readySize;
        theEntry := -1;
        pending := [];
      }
    }

    method PutTrailer()
      requires Valid() && isOpen && !EntryOpen()
      modifies this, theBuf
      ensures Valid() && isOpen && !EntryOpen() && (theBuf == old(theBuf) || fresh(theBuf))
      ensures Log() == old(Log()) + Trailer(old(theDir))
    {
      hide Valid, Be32, Directory, Added;
      ghost var f0 := Now();
      PutInt(0);
      ghost var f1 := Now();
      AddedMeans(f0, Be32(0), f1);
      PutInt(0);
      ghost var f2 := Now();
      AddedMeans(f1, Be32(0), f2);
      var dirPos := thePos;
      PutInts(theDir);
      ghost var f3 := Now();
      AddedMeans(f2, Directory(f0.dir), f3);
      PutInt(thePos - dirPos);
      AddedMeans(f3, Be32(|Directory(f0.dir)|), Now());
      Glued(f0.log, Be32(0), Be32(0), Directory(f0.dir), Be32(|Directory(f0.dir)|));
    }

    /** Drops the unfinished entry, if any, adds the trailer and hands everything over. */
    method Close()
      requires Valid()
      modifies this, theBuf
      ensures Valid() && (theBuf == old(theBuf) || fresh(theBuf))
      ensures !isOpen
      ensures old(isOpen) ==> written == Rendered(old(items)) + Trailer(old(theDir)) && theSize == 0
      ensures !old(isOpen) ==> written == old(written)
    {
      if isOpen {
        Abort();
        PutTrailer();
        Flush(theSize);
        isOpen := false;
      }
    }
  }

  /** The log and its pieces at one moment. */
  datatype Face = Face(isOpen: bool, entryOpen: bool, tag: int, dir: seq<int>, log: seq<byte>, items: seq<Item>, pending: seq<byte>)

  ghost predicate Added(a: Face, buf: seq<byte>, b: Face) {
    && b.isOpen == a.isOpen && b.tag == a.tag && b.dir == a.dir && b.entryOpen == a.entryOpen
    && (buf == [] || !b.isOpen ==> b.log == a.log && b.items == a.items && b.pending == a.pending)
    && (buf != [] && b.isOpen ==>
          && b.log == a.log + buf
          && b.items == (if b.entryOpen then a.items else AddRaw(a.items, buf))
          && b.pending == (if b.entryOpen then a.pending + buf else a.pending))
  }

  lemma AddedNothing(a: Face)
    ensures Added(a, [], a)
  {}

  lemma AddedTwice(a: Face, b: Face, c: Face, x: seq<byte>, y: seq<byte>)
    requires Added(a, x, b) && Added(b, y, c)
    ensures Added(a, x + y, c)
  {
    hide AddRaw;
    AddRawTwice(a.items, x, y);
    if x == [] {
      assert x + y == y;
    } else if y == [] {
      assert x + y == x;
    } else {
      assert a.log + x + y == a.log + (x + y) && a.pending + x + y == a.pending + (x + y);
    }
  }

  lemma AddedMeans(a: Face, buf: seq<byte>, b: Face)
    requires Added(a, buf, b) && a.isOpen
    ensures b.isOpen && b.dir == a.dir && b.entryOpen == a.entryOpen && b.log == a.log + buf
    ensures !a.entryOpen ==> b.pending == a.pending
  {
    hide AddRaw;
    assert a.log + [] == a.log;
  }

  lemma Glued(a: seq<byte>, b: seq<byte>, c: seq<byte>, d: seq<byte>, e: seq<byte>)
    ensures a + b + c + d + e == a + (b + c + d + e)
  {}

  lemma NoBe32s(prefix: seq<byte>, xs: seq<int>)
    ensures prefix + Be32s(xs[..0]) == prefix
  {}

  lemma Be32sGrows(prefix: seq<byte>, xs: seq<int>, i: nat)
    requires i < |xs|
    ensures prefix + Be32s(xs[..i]) + Be32(xs[i]) == prefix + Be32s(xs[..i + 1])
  {
    hide Be32;
    assert xs[..i + 1][..i] == xs[..i];
  }

  /** Overwriting the placeholder turns the open entry into a closed one. */
  lemma PatchedSize(written: seq<byte>, buf: seq<byte>, at: nat, closed: seq<byte>, e: Entry)
    requires at + 8 <= |buf| && |written| + at == |closed|
    requires written + buf == closed + e.OpenBytes()
    ensures |buf| - at == e.Size()
    ensures written + (buf[..at] + Be32(e.Size()) + buf[at + 4..]) == closed + e.Bytes()
  {
    hide Be32;
    var n := |written|;
    assert buf == (written + buf)[n..];
    assert closed == (written + buf)[..n + at] == written + buf[..at];
    assert buf[at + 4..] == (written + buf)[n + at + 4..] == e.OpenBytes()[4..];
    assert e.OpenBytes()[4..] == Be32(e.tag) + e.payload;
  }

  function DirectoryWith(dir: seq<int>, tag: nat, pos: int): seq<int> {
    if |dir| > tag then
      if dir[tag] == 0 then dir[tag := pos]
      else if dir[tag] > 0 then dir[tag := -dir[tag]]
      else dir
    else dir + seq(tag - |dir|, _ => 0) + [pos]
  }

  lemma DirectoryAdds(dir: seq<int>, items: seq<Item>, e: Entry)
    requires IsDirectory(dir, items) && e.tag >= 0
    ensures var items' := items + [Closed(e)];
            IsDirectory(DirectoryWith(dir, e.tag, |Rendered(items')|), items')
  {
    var items' := items + [Closed(e)];
    assert items'[..|items|] == items;
    var dir' := DirectoryWith(dir, e.tag, |Rendered(items')|);
    forall t: int
      ensures Tally(items', t) == Tally(items, t) + if t == e.tag then 1 else 0
      ensures FirstEnd(items', t) == if FirstEnd(items, t) > 0 then FirstEnd(items, t)
                                     else if t == e.tag then |Rendered(items')| else 0
    {}
    hide Rendered;
    forall t | 0 <= t < |dir'|
      ensures dir'[t] == if Tally(items', t) > 1 then 0 - FirstEnd(items', t) else FirstEnd(items', t)
    {
      assert t < |dir| ==> dir[t] == if Tally(items, t) > 1 then 0 - FirstEnd(items, t) else FirstEnd(items, t);
      assert t >= |dir| ==> Tally(items, t) == 0;
    }
  }

  lemma RawKeepsDirectory(dir: seq<int>, items: seq<Item>, buf: seq<byte>)
    requires IsDirectory(dir, items)
    ensures IsDirectory(dir, AddRaw(items, buf))
  {
    forall t
      ensures Tally(AddRaw(items, buf), t) == Tally(items, t)
      ensures FirstEnd(AddRaw(items, buf), t) == FirstEnd(items, t)
    {
      RawKeepsTally(items, buf, t);
    }
  }

  lemma RawKeepsTally(items: seq<Item>, buf: seq<byte>, t: int)
    ensures Tally(AddRaw(items, buf), t) == Tally(items, t)
    ensures FirstEnd(AddRaw(items, buf), t) == FirstEnd(items, t)
  {
    var n := |items|;
    if n > 0 && items[n - 1].Raw? {
      assert AddRaw(items, buf)[..n - 1] == items[..n - 1];
    } else {
      assert AddRaw(items, buf)[..n] == items;
    }
  }
}
