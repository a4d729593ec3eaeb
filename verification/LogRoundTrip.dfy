/** Whole runs of the output log, and the input log reading them back. */
module LogRoundTrip {
  import opened LogFormat
  import opened OutputLog
  import opened InputLog
  import Wrappers

  /** What a program may do to an open log between opening and closing it. */
  datatype Op = Begin(tag: int) | Bytes(buf: seq<byte>) | End | FlushUpTo(max: int) | Reserve(extra: nat)

  /** The logical log: the finished items and the entry in progress. */
  datatype Ledger = Ledger(items: seq<Item>, open: Option<Entry>) {
    predicate Legal(op: Op) {
      match op
      case Begin(tag) => open.None? && tag > 0
      case End => open.Some?
      case _ => true
    }

    function After(op: Op): Ledger
      requires Legal(op)
    {
      match op
      case Begin(tag) => Ledger(items, Wrappers.Some(Entry(tag, [])))
      case End => Ledger(items + [Closed(open.value)], Wrappers.None)
      case Bytes(buf) =>
        if buf == [] then this
        else if open.Some? then Ledger(items, Wrappers.Some(Entry(open.value.tag, open.value.payload + buf)))
        else Ledger(AddRaw(items, buf), Wrappers.None)
      case _ => this
    }

    predicate AllLegal(ops: seq<Op>)
      decreases |ops|
    {
      ops == [] || (Legal(ops[0]) && After(ops[0]).AllLegal(ops[1..]))
    }

    function AfterAll(ops: seq<Op>): Ledger
      requires AllLegal(ops)
      decreases |ops|
    {
      if ops == [] then this else After(ops[0]).AfterAll(ops[1..])
    }
  }

  /** The log between two operations is the ledger `l`. */
  ghost predicate Keeps(log: OLog, l: Ledger)
    reads log, log.theBuf
  {
    && log.Valid() && log.isOpen && log.items == l.items
    && if l.open.Some? then
         log.InEntry() && log.theEntryTag == l.open.value.tag && log.Payload() == l.open.value.payload
       else !log.EntryOpen()
  }

  /** Finished bytes only: the stream holds a prefix of the patched, closed log. */
  lemma OpenEntryStaysBuffered(log: OLog)
    requires log.Valid()
    ensures log.written <= Rendered(log.items)
    ensures log.Log() == Rendered(log.items) + log.pending
  {
    assert log.Log()[..|log.written|] == log.written;
  }

  method Perform(log: OLog, op: Op, ghost l: Ledger)
    requires Keeps(log, l) && l.Legal(op)
    modifies log, log.theBuf
    ensures Keeps(log, l.After(op)) && (log.theBuf == old(log.theBuf) || fresh(log.theBuf))
  {
    hide log.Valid, IsDirectory, Rendered, Be32;
    match op
    case Begin(tag) => log.BegEntry(tag);
    case Bytes(buf) =>
      log.Put(buf);
      if l.open.Some? {
        assert log.pending[8..] == old(log.pending)[8..] + buf;
      }
    case End => log.EndEntry();
    case FlushUpTo(max) => log.Flush(max);
    case Reserve(extra) => log.Capacity(log.theBuf.Length + extra);
  }

  /** For every legal run: the stream ends up with the patched entries that were closed,
      the unfinished one is gone, and the trailer indexes exactly the closed entries. */
  method Run(capacity: nat, zlib: bool, ops: seq<Op>) returns (stream: seq<byte>, dir: seq<int>)
    requires capacity > 0
    requires Ledger([Raw(Header(zlib))], Wrappers.None).AllLegal(ops)
    ensures var end := Ledger([Raw(Header(zlib))], Wrappers.None).AfterAll(ops);
            stream == Rendered(end.items) + Trailer(dir) && IsDirectory(dir, end.items)
  {
    var log := new OLog(capacity);
    log.Stream(zlib);
    ghost var l := Ledger([Raw(Header(zlib))], Wrappers.None);
    ghost var end := l.AfterAll(ops);
    for i := 0 to |ops|
      invariant Keeps(log, l) && fresh(log) && fresh(log.theBuf)
      invariant l.AllLegal(ops[i..]) && l.AfterAll(ops[i..]) == end
    {
      assert ops[i..][0] == ops[i] && ops[i..][1..] == ops[i + 1..];
      Perform(log, ops[i], l);
      l := l.After(ops[i]);
    }
    dir := log.theDir;
    log.Close();
    stream := log.written;
  }

  function Items(rs: seq<Record>): (items: seq<Item>)
    ensures |items| == |rs|
  {
    seq(|rs|, i requires 0 <= i < |rs| => Closed(rs[i].Logged()))
  }

  lemma {:induction false} LaidAppends(rs: seq<Record>, r: Record)
    ensures Laid(rs + [r]) == Laid(rs) + r.Logged().Bytes()
  {
    hide Be32;
    if rs == [] {
      assert ([] + [r])[1..] == [];
    } else {
      assert (rs + [r])[1..] == rs[1..] + [r];
      LaidAppends(rs[1..], r);
    }
  }

  lemma ItemsAppend(rs: seq<Record>, r: Record)
    ensures Items(rs + [r]) == Items(rs) + [Closed(r.Logged())]
  {}

  lemma RenderedStep(header: seq<byte>, init: seq<Record>, r: Record)
    requires Rendered([Raw(header)] + Items(init)) == header + Laid(init)
    ensures Rendered([Raw(header)] + Items(init + [r])) == header + Laid(init + [r])
  {
    hide Rendered, Laid, Items, Be32;
    ItemsAppend(init, r);
    RenderedLast([Raw(header)] + Items(init), Closed(r.Logged()));
    LaidAppends(init, r);
    assert [Raw(header)] + Items(init + [r]) == [Raw(header)] + Items(init) + [Closed(r.Logged())];
  }

  lemma {:induction false} RenderedIsLaid(header: seq<byte>, rs: seq<Record>)
    ensures Rendered([Raw(header)] + Items(rs)) == header + Laid(rs)
    decreases |rs|
  {
    if rs == [] {
      RenderedLast([], Raw(header));
      assert [Raw(header)] + Items(rs) == [] + [Raw(header)];
    } else {
      hide Rendered, Laid, Items;
      var init, r := rs[..|rs| - 1], rs[|rs| - 1];
      assert init + [r] == rs;
      RenderedIsLaid(header, init);
      RenderedStep(header, init, r);
    }
  }

  /** The stream of a run that logged the records `rs` reads back as exactly its
      non-progress records, however much of each payload the reader takes. */
  lemma ReadsBackTheRun(zlib: bool, rs: seq<Record>, dir: seq<int>, takes: seq<nat>)
    requires AllValid(rs) && Fits(NonProgress(rs), takes)
    ensures var data := Rendered([Raw(Header(zlib))] + Items(rs)) + Trailer(dir);
            var end := |Header(zlib)| + |Laid(rs)|;
            ReadSession(data, Wrappers.Some(|Header(zlib)|), takes)
              == Session(Sights(NonProgress(rs), takes), Began(Prefix(0, 0, 0), end, end + 8))
  {
    hide ReadSession, Be32, Header, Directory;
    var header, tail := Header(zlib), Trailer(dir);
    RenderedIsLaid(header, rs);
    var data := Rendered([Raw(header)] + Items(rs)) + tail;
    assert data[|header|..] == Laid(rs) + tail;
    assert tail[..8] == Be32(0) + Be32(0);
    ReadingUndoesWriting(data, Wrappers.Some(|header|), |header|, rs, tail, takes);
  }

  // ----- from operations to what is read -----

  /** The operations log the records `rs`, one entry each, its payload in any pieces, with
      flushes and reserves anywhere, and possibly an entry at the end that is never closed. */
  predicate Logs(ops: seq<Op>, open: Option<Entry>, rs: seq<Record>)
    decreases |ops|
  {
    if ops == [] then rs == []
    else
      match ops[0]
      case Begin(tag) => open.None? && tag > 0 && Logs(ops[1..], Wrappers.Some(Entry(tag, [])), rs)
      case Bytes(buf) =>
        open.Some? && Logs(ops[1..], Wrappers.Some(Entry(open.value.tag, open.value.payload + buf)), rs)
      case End =>
        open.Some? && rs != [] && rs[0].Logged() == open.value && Logs(ops[1..], Wrappers.None, rs[1..])
      case _ => Logs(ops[1..], open, rs)
  }

  lemma {:induction false} LogsItems(l: Ledger, ops: seq<Op>, rs: seq<Record>)
    requires Logs(ops, l.open, rs)
    ensures l.AllLegal(ops) && l.AfterAll(ops).items == l.items + Items(rs)
    decreases |ops|
  {
    if ops == [] {
      assert Items(rs) == [];
    } else {
      var next := l.After(ops[0]);
      if ops[0].End? {
        LogsItems(next, ops[1..], rs[1..]);
        assert Items(rs) == [Closed(rs[0].Logged())] + Items(rs[1..]);
      } else {
        if ops[0].Bytes? && ops[0].buf == [] {
          assert l.open.value.payload + [] == l.open.value.payload;
        }
        LogsItems(next, ops[1..], rs);
      }
    }
  }

  /** Reads through a log: begins an entry, takes some of its payload, ends it. */
  method ReadThrough(log: ILog, takes: seq<nat>) returns (s: Session)
    requires log.Valid()
    modifies log
    ensures log.Valid()
    ensures s == ReadSession(log.data, old(log.At()), takes)
    decreases |takes|
  {
    hide BegEntry;
    var px, died := log.BeginEntry();
    if died {
      return Session([], Died);
    }
    if log.ranOff {
      return Session([], Exhausted);
    }
    if |takes| == 0 || px.tag <= 0 {
      return Session([], Began(px, log.theEntryEnd, log.pos));
    }
    ghost var start := log.pos;
    assert BegEntry(log.data, old(log.At())) == Began(px, log.theEntryEnd, start);
    var bytes := [];
    if takes[0] > 0 {
      bytes := log.Get(takes[0]);
    }
    if log.ranOff {
      return Session([], Exhausted);
    }
    assert bytes == log.data[start..start + takes[0]];
    var overread := log.EndEntry();
    if overread {
      return Session([], Died);
    }
    var rest := ReadThrough(log, takes[1..]);
    s := Session([Seen(px, bytes)] + rest.seen, rest.stop);
  }

  /** Whatever way the records are logged, through a buffer of any size and with flushes in
      between, reading the stream yields exactly the non-progress ones, then the trailer. */
  method WriteThenRead(capacity: nat, zlib: bool, ops: seq<Op>, ghost rs: seq<Record>, takes: seq<nat>)
      returns (s: Session)
    requires capacity > 0 && Logs(ops, Wrappers.None, rs)
    requires AllValid(rs) && Fits(NonProgress(rs), takes)
    ensures var end := |Header(zlib)| + |Laid(rs)|;
            s == Session(Sights(NonProgress(rs), takes), Began(Prefix(0, 0, 0), end, end + 8))
  {
    hide ReadSession, Rendered, Header, Trailer, IsDirectory, Sights, Be32, Laid;
    LogsItems(Ledger([Raw(Header(zlib))], Wrappers.None), ops, rs);
    var stream, dir := Run(capacity, zlib, ops);
    ReadsBackTheRun(zlib, rs, dir, takes);
    RenderedIsLaid(Header(zlib), rs);
    var log := new ILog(stream, |Header(zlib)|);
    s := ReadThrough(log, takes);
  }
}
