/** The binary input log: entry prefixes, transparent progress entries, the scan that
    resynchronises after corruption, and the proof that reading undoes writing. */
module InputLog {
  import opened LogFormat
  import Wrappers

  type Option<+T> = Wrappers.Option<T>

  const LG_PROGRESS := 1
  const LG_END := 276
  const LGC_END := 3
  const MAX_ENTRY := 10 * 1024 * 1024
  const PROGRESS_SIZE := 24  // a time stamp and two 64-bit counters

  datatype Prefix = Prefix(size: int, cat: int, tag: int) {
    predicate Good() {
      0 <= cat < LGC_END && 0 <= tag < LG_END && 0 < size <= MAX_ENTRY
    }

    /** What the resynchronising scan settles for. */
    predicate Recoverable() {
      tag > 0 && Good() && tag == LG_PROGRESS && size < 1024
    }
  }

  const NoPrefix := Prefix(-1, -1, -1)

  /** The tag and category share one integer; the tag is its sign-extended low half. */
  function Load(b: seq<byte>): (px: Prefix)
    requires |b| == 8
  {
    var h := FromBe32(b[4..]);
    var low := h % 0x1_0000;
    Prefix(FromBe32(b[..4]), h / 0x1_0000, if low < 0x8000 then low else low - 0x1_0000)
  }

  function Pack(tag: int, cat: int): int { tag + cat * 0x1_0000 }

  function PrefixAt(data: seq<byte>, at: nat): Prefix
    requires at + 8 <= |data|
  {
    Load(data[at..at + 8])
  }

  /** The first offset from `at` on where a recoverable prefix sits. */
  function NextRecoverable(data: seq<byte>, at: nat): (r: Option<nat>)
    ensures r.Some? ==> at <= r.value && r.value + 8 <= |data| && PrefixAt(data, r.value).Recoverable()
    ensures forall q | at <= q < (if r.Some? then r.value else |data| - 7) :: !PrefixAt(data, q).Recoverable()
    decreases |data| - at
  {
    if at + 8 > |data| then Wrappers.None
    else if PrefixAt(data, at).Recoverable() then Wrappers.Some(at)
    else NextRecoverable(data, at + 1)
  }

  /** A stream position; `None` once a read or a skip has run off the end. */
  type Where = Option<nat>

  /** How `begEntry` ends: with a prefix and the entry's end, at the end of the data, or
      with the process giving up because a progress record overruns its entry. */
  datatype Begun = Began(px: Prefix, entryEnd: int, pos: nat) | Exhausted | Died

  function Skip(data: seq<byte>, pos: nat, n: nat): Where {
    if pos + n <= |data| then Wrappers.Some(pos + n) else Wrappers.None
  }

  function BegEntry(data: seq<byte>, pos: Where): (r: Begun)
    decreases if pos.Some? && pos.value <= |data| then |data| - pos.value + 1 else 0
  {
    if pos.None? || pos.value + 8 > |data| then Exhausted
    else
      var px := PrefixAt(data, pos.value);
      if px.tag > 0 && !px.Good() then
        match NextRecoverable(data, pos.value + 1)
        case None => Exhausted
        case Some(q) => PassProgress(data, q)
      else if px.tag == LG_PROGRESS then PassProgress(data, pos.value)
      else Began(px, pos.value + px.size, pos.value + 8)
  }

  /** Loads the progress entry at `at` and carries on with the next one. */
  function PassProgress(data: seq<byte>, at: nat): Begun
    requires at + 8 <= |data|
    decreases |data| - at, 0
  {
    var size := PrefixAt(data, at).size;
    if at + 8 + PROGRESS_SIZE > |data| then Exhausted
    else if size < 8 + PROGRESS_SIZE then Died
    else BegEntry(data, Skip(data, at, size))
  }

  /** Reads through a log: for every entry that begins, takes the given number of
      payload bytes and ends the entry. */
  datatype Seen = Seen(px: Prefix, bytes: seq<byte>)

  datatype Session = Session(seen: seq<Seen>, stop: Begun)

  function ReadSession(data: seq<byte>, pos: Where, takes: seq<nat>): Session
    decreases |takes|
  {
    var b := BegEntry(data, pos);
    if takes == [] || !b.Began? || b.px.tag <= 0 then Session([], b)
    else if b.pos + takes[0] > |data| then Session([], Exhausted)
    else if b.pos + takes[0] > b.entryEnd then Session([], Died)
    else
      var rest := ReadSession(data, Skip(data, b.pos, b.entryEnd - b.pos), takes[1..]);
      Session([Seen(b.px, data[b.pos..b.pos + takes[0]])] + rest.seen, rest.stop)
  }

  // ----- reading undoes writing -----

  /** An entry as its author sees it. */
  datatype Record = Record(tag: int, cat: int, payload: seq<byte>) {
    predicate Valid() {
      && 0 < tag < LG_END && 0 <= cat < LGC_END && 8 + |payload| <= MAX_ENTRY
      && (tag == LG_PROGRESS ==> |payload| >= PROGRESS_SIZE)
    }

    function Logged(): Entry { Entry(Pack(tag, cat), payload) }

    function Px(): Prefix { Prefix(8 + |payload|, cat, tag) }
  }

  predicate AllValid(rs: seq<Record>) {
    forall i :: 0 <= i < |rs| ==> rs[i].Valid()
  }

  function Laid(rs: seq<Record>): seq<byte> {
    if rs == [] then [] else rs[0].Logged().Bytes() + Laid(rs[1..])
  }

  function NonProgress(rs: seq<Record>): seq<Record> {
    if rs == [] then []
    else if rs[0].tag == LG_PROGRESS then NonProgress(rs[1..])
    else [rs[0]] + NonProgress(rs[1..])
  }

  /** `data` holds the records from `at` on, then something that begins like a trailer. */
  ghost predicate HoldsFrom(data: seq<byte>, at: nat, rs: seq<Record>, tail: seq<byte>) {
    && at <= |data| && data[at..] == Laid(rs) + tail
    && |tail| >= 8 && tail[..8] == Be32(0) + Be32(0)
  }

  lemma LoadsBack(r: Record)
    requires r.Valid()
    ensures Load(Be32(r.Logged().Size()) + Be32(r.Logged().tag)) == r.Px()
    ensures r.Px().Good()
  {
    hide Be32, FromBe32;
    var b := Be32(r.Logged().Size()) + Be32(r.Logged().tag);
    assert b[..4] == Be32(r.Logged().Size()) && b[4..] == Be32(r.Logged().tag);
    Be32RoundTrip(r.Logged().Size());
    Be32RoundTrip(r.Logged().tag);
  }

  /** Any size, category and tag, negative ones included, load back from their bytes. */
  lemma LoadsAny(size: int, cat: int, tag: int)
    requires -0x8000_0000 <= size < 0x8000_0000 && -0x8000 <= cat < 0x8000 && -0x8000 <= tag < 0x8000
    ensures Load(Be32(size) + Be32(cat * 0x1_0000 + tag % 0x1_0000)) == Prefix(size, cat, tag)
  {
    hide Be32, FromBe32;
    var h := cat * 0x1_0000 + tag % 0x1_0000;
    var b := Be32(size) + Be32(h);
    assert b[..4] == Be32(size) && b[4..] == Be32(h);
    Be32RoundTrip(size);
    Be32RoundTrip(h);
    assert h % 0x1_0000 == tag % 0x1_0000 && h / 0x1_0000 == cat;
  }

  lemma HoldsFirst(data: seq<byte>, at: nat, rs: seq<Record>, tail: seq<byte>)
    requires HoldsFrom(data, at, rs, tail) && AllValid(rs) && rs != []
    ensures at + rs[0].Px().size + 8 <= |data|
    ensures PrefixAt(data, at) == rs[0].Px()
    ensures data[at + 8..at + rs[0].Px().size] == rs[0].payload
    ensures HoldsFrom(data, at + rs[0].Px().size, rs[1..], tail)
  {
    hide Be32, Load;
    var e := rs[0].Logged();
    assert e.Bytes() + Laid(rs[1..]) + tail == e.Bytes() + (Laid(rs[1..]) + tail);
    EntryCut(data, at, e, Laid(rs[1..]) + tail);
    LoadsBack(rs[0]);
  }

  lemma EntryCut(data: seq<byte>, at: nat, e: Entry, more: seq<byte>)
    requires at <= |data| && data[at..] == e.Bytes() + more
    ensures at + e.Size() <= |data|
    ensures data[at..at + 8] == Be32(e.Size()) + Be32(e.tag)
    ensures data[at + 8..at + e.Size()] == e.payload
    ensures data[at + e.Size()..] == more
  {
    hide Be32;
    var from := data[at..];
    assert from[..8] == data[at..at + 8];
    assert from[8..e.Size()] == data[at + 8..at + e.Size()];
    assert from[e.Size()..] == data[at + e.Size()..];
  }

  lemma TrailerPrefix(data: seq<byte>, at: nat, tail: seq<byte>)
    requires HoldsFrom(data, at, [], tail)
    ensures at + 8 <= |data| && PrefixAt(data, at) == Prefix(0, 0, 0)
  {
    hide Be32, FromBe32;
    assert data[at..] == tail;
    assert data[at..at + 8] == data[at..][..8] == Be32(0) + Be32(0);
    var b := Be32(0) + Be32(0);
    assert b[..4] == Be32(0) && b[4..] == Be32(0);
    Be32RoundTrip(0);
  }

  function AfterProgress(rs: seq<Record>): seq<Record> {
    if rs == [] || rs[0].tag != LG_PROGRESS then rs else AfterProgress(rs[1..])
  }

  lemma {:induction false} BeginsNext(data: seq<byte>, at: nat, rs: seq<Record>, tail: seq<byte>)
      returns (at': nat)
    requires HoldsFrom(data, at, rs, tail) && AllValid(rs)
    ensures var rs' := AfterProgress(rs);
            && AllValid(rs') && HoldsFrom(data, at', rs', tail)
            && NonProgress(rs) == NonProgress(rs')
            && BegEntry(data, Wrappers.Some(at)) == if rs' == [] then Began(Prefix(0, 0, 0), at', at' + 8)
                                                  else Began(rs'[0].Px(), at' + rs'[0].Px().size, at' + 8)
    decreases |rs|
  {
    hide Load;
    if rs == [] {
      TrailerPrefix(data, at, tail);
      at' := at;
    } else {
      HoldsFirst(data, at, rs, tail);
      if rs[0].tag == LG_PROGRESS {
        at' := BeginsNext(data, at + rs[0].Px().size, rs[1..], tail);
      } else {
        at' := at;
      }
    }
  }

  ghost predicate Fits(rs: seq<Record>, takes: seq<nat>) {
    |takes| == |rs| && forall i :: 0 <= i < |rs| ==> takes[i] <= |rs[i].payload|
  }

  function Sights(rs: seq<Record>, takes: seq<nat>): (s: seq<Seen>)
    requires |takes| == |rs|
    requires forall i :: 0 <= i < |rs| ==> takes[i] <= |rs[i].payload|
    ensures |s| == |rs|
    ensures forall i :: 0 <= i < |rs| ==> s[i] == Seen(rs[i].Px(), rs[i].payload[..takes[i]])
  {
    seq(|rs|, i requires 0 <= i < |rs| => Seen(rs[i].Px(), rs[i].payload[..takes[i]]))
  }

  /** Whatever the caller takes of each payload, the session visits exactly the
      non-progress records, in order, and stops at the trailer. */
  lemma {:induction false} ReadingUndoesWriting(data: seq<byte>, pos: Where, at: nat, rs: seq<Record>,
                                                tail: seq<byte>, takes: seq<nat>)
    requires pos == Wrappers.Some(at)
    requires HoldsFrom(data, at, rs, tail) && AllValid(rs)
    requires Fits(NonProgress(rs), takes)
    ensures var end := |data| - |tail|;
            ReadSession(data, pos, takes) == Session(Sights(NonProgress(rs), takes),
                                                     Began(Prefix(0, 0, 0), end, end + 8))
    decreases |takes|
  {
    hide BegEntry, HoldsFrom, ReadSession, Sights;
    var at' := BeginsNext(data, at, rs, tail);
    var rs' := AfterProgress(rs);
    if rs' == [] {
      TrailerStopsSession(data, pos, at', tail, takes);
    } else {
      AfterProgressStartsWithEntry(rs);
      ReadsOne(data, at', rs', tail);
      var next := at' + rs'[0].Px().size;
      ReadingUndoesWriting(data, Wrappers.Some(next), next, rs'[1..], tail, takes[1..]);
      SessionSteps(data, pos, at', rs'[0], takes);
      SightsStep(NonProgress(rs'), takes);
    }
  }

  lemma TrailerStopsSession(data: seq<byte>, pos: Where, at: nat, tail: seq<byte>, takes: seq<nat>)
    requires HoldsFrom(data, at, [], tail)
    requires BegEntry(data, pos) == Began(Prefix(0, 0, 0), at, at + 8)
    ensures ReadSession(data, pos, takes) == Session([], Began(Prefix(0, 0, 0), |data| - |tail|, |data| - |tail| + 8))
  {
    hide BegEntry;
    assert data[at..] == tail;
  }

  lemma {:induction false} AfterProgressStartsWithEntry(rs: seq<Record>)
    requires AfterProgress(rs) != []
    ensures AfterProgress(rs)[0].tag != LG_PROGRESS
    ensures var rs' := AfterProgress(rs); NonProgress(rs') == [rs'[0]] + NonProgress(rs'[1..])
  {
    if rs[0].tag == LG_PROGRESS {
      AfterProgressStartsWithEntry(rs[1..]);
    }
  }

  lemma SessionSteps(data: seq<byte>, pos: Where, at: nat, r: Record, takes: seq<nat>)
    requires r.Valid() && takes != [] && takes[0] <= |r.payload|
    requires at + r.Px().size <= |data| && data[at + 8..at + 8 + takes[0]] == r.payload[..takes[0]]
    requires BegEntry(data, pos) == Began(r.Px(), at + r.Px().size, at + 8)
    ensures var rest := ReadSession(data, Wrappers.Some(at + r.Px().size), takes[1..]);
            ReadSession(data, pos, takes) == Session([Seen(r.Px(), r.payload[..takes[0]])] + rest.seen, rest.stop)
  {
    hide BegEntry;
  }

  lemma SightsStep(rs: seq<Record>, takes: seq<nat>)
    requires Fits(rs, takes) && rs != []
    ensures Fits(rs[1..], takes[1..])
    ensures Sights(rs, takes) == [Seen(rs[0].Px(), rs[0].payload[..takes[0]])] + Sights(rs[1..], takes[1..])
  {}

  lemma ReadsOne(data: seq<byte>, at: nat, rs: seq<Record>, tail: seq<byte>)
    requires HoldsFrom(data, at, rs, tail) && AllValid(rs) && rs != []
    ensures at + rs[0].Px().size <= |data|
    ensures data[at + 8..at + rs[0].Px().size] == rs[0].payload
    ensures HoldsFrom(data, at + rs[0].Px().size, rs[1..], tail)
    ensures forall n :: 0 <= n <= |rs[0].payload| ==> data[at + 8..at + 8 + n] == rs[0].payload[..n]
  {
    HoldsFirst(data, at, rs, tail);
    var p := data[at + 8..at + rs[0].Px().size];
    forall n | 0 <= n <= |rs[0].payload|
      ensures data[at + 8..at + 8 + n] == rs[0].payload[..n]
    {
      assert p[..n] == data[at + 8..at + 8 + n];
    }
  }

  // ----- reading behind corruption -----

  /** At `pos` stands a prefix that cannot be one, and `q` is the first offset behind it
      that looks like a short progress entry. */
  ghost predicate Corrupted(data: seq<byte>, pos: nat, q: nat) {
    && pos < q && q + 8 <= |data|
    && PrefixAt(data, pos).tag > 0 && !PrefixAt(data, pos).Good()
    && PrefixAt(data, q).Recoverable()
    && forall i :: pos < i < q ==> !PrefixAt(data, i).Recoverable()
  }

  /** Prefixes that count as intact, in numbers: three categories, 276 tags, ten megabytes. */
  lemma IntactPrefixes(size: int, cat: int, tag: int)
    ensures Prefix(size, cat, tag).Good() <==>
      cat in {0, 1, 2} && 0 <= tag <= 275 && 1 <= size <= 10_485_760
  {}

  /** Which records the scan can stop at: progress records of less than 1024 bytes. */
  lemma RecoverableRecords(r: Record)
    requires r.Valid()
    ensures r.Px().Recoverable() <==> r.tag == LG_PROGRESS && 8 + |r.payload| < 1024
  {}

  /** If records are laid out from the offset the scan stops at, the entry that begins at
      the corruption is the first of them that is no progress record, or the trailer. */
  lemma BeginsBehindCorruption(data: seq<byte>, pos: nat, q: nat, rs: seq<Record>, tail: seq<byte>)
      returns (at: nat)
    requires Corrupted(data, pos, q) && HoldsFrom(data, q, rs, tail) && AllValid(rs)
    ensures BegEntry(data, Wrappers.Some(pos)) == BegEntry(data, Wrappers.Some(q))
    ensures var later := NonProgress(rs);
      if later == [] then
        BegEntry(data, Wrappers.Some(pos)) == Began(Prefix(0, 0, 0), |data| - |tail|, |data| - |tail| + 8)
      else
        && BegEntry(data, Wrappers.Some(pos)) == Began(later[0].Px(), at + 8 + |later[0].payload|, at + 8)
        && at + 8 + |later[0].payload| <= |data|
        && data[at + 8..at + 8 + |later[0].payload|] == later[0].payload
  {
    hide HoldsFrom, Load;
    ScanStopsAt(data, pos + 1, q);
    at := BeginsNext(data, q, rs, tail);
    var rs' := AfterProgress(rs);
    if rs' == [] {
      TrailerIsLast(data, at, tail);
    } else {
      AfterProgressStartsWithEntry(rs);
      ReadsOne(data, at, rs', tail);
    }
  }

  lemma TrailerIsLast(data: seq<byte>, at: nat, tail: seq<byte>)
    requires HoldsFrom(data, at, [], tail)
    ensures at == |data| - |tail|
  {
    assert |data[at..]| == |tail|;
  }

  lemma {:induction false} ScanStopsAt(data: seq<byte>, at: nat, q: nat)
    requires at <= q && q + 8 <= |data| && PrefixAt(data, q).Recoverable()
    requires forall i :: at <= i < q ==> !PrefixAt(data, i).Recoverable()
    ensures NextRecoverable(data, at) == Wrappers.Some(q)
    decreases q - at
  {
    hide Load;
    if at < q {
      ScanStopsAt(data, at + 1, q);
    }
  }

  /** A session begun at the corruption visits exactly the non-progress records behind it. */
  lemma ReadingBehindCorruption(data: seq<byte>, pos: nat, q: nat, rs: seq<Record>,
                                tail: seq<byte>, takes: seq<nat>)
    requires Corrupted(data, pos, q) && HoldsFrom(data, q, rs, tail) && AllValid(rs)
    requires Fits(NonProgress(rs), takes)
    ensures var end := |data| - |tail|;
            ReadSession(data, Wrappers.Some(pos), takes) == Session(Sights(NonProgress(rs), takes),
                                                                    Began(Prefix(0, 0, 0), end, end + 8))
  {
    hide BegEntry, HoldsFrom, Corrupted, Sights, ReadSession;
    var at := BeginsBehindCorruption(data, pos, q, rs, tail);
    SameSession(data, Wrappers.Some(pos), Wrappers.Some(q), takes);
    ReadingUndoesWriting(data, Wrappers.Some(q), q, rs, tail, takes);
  }

  lemma SameSession(data: seq<byte>, a: Where, b: Where, takes: seq<nat>)
    requires BegEntry(data, a) == BegEntry(data, b)
    ensures ReadSession(data, a, takes) == ReadSession(data, b, takes)
  {
    hide BegEntry;
  }

  /** With nothing to stop at behind it, the corruption ends the log. */
  lemma NothingBehindCorruption(data: seq<byte>, pos: nat, takes: seq<nat>)
    requires pos + 8 <= |data| && PrefixAt(data, pos).tag > 0 && !PrefixAt(data, pos).Good()
    requires forall i :: pos < i <= |data| - 8 ==> !PrefixAt(data, i).Recoverable()
    ensures ReadSession(data, Wrappers.Some(pos), takes) == Session([], Exhausted)
  {
    hide Load;
  }

  lemma SlidWindow(data: seq<byte>, at: nat)
    requires at + 9 <= |data|
    ensures data[at..at + 8][1..] + data[at + 8..at + 9] == data[at + 1..at + 9]
  {}

  lemma NothingBegins(data: seq<byte>)
    ensures BegEntry(data, Wrappers.None) == Exhausted
  {}

  /** The reader: a stream position that moves, and the end of the current entry. */
  class ILog {
    const data: seq<byte>
    var pos: nat
    var ranOff: bool      // a read or a skip went past the end; nothing more can be read
    var theEntryEnd: int
    var theCurPx: Prefix

    ghost predicate Valid()
      reads this
    {
      pos <= |data|
    }

    function At(): Where
      reads this
    {
      if ranOff then Wrappers.None else Wrappers.Some(pos)
    }

    constructor (bytes: seq<byte>, start: nat)
      requires start <= |bytes|
      ensures Valid() && data == bytes && At() == Wrappers.Some(start)
    {
      data, pos, ranOff := bytes, start, false;
      theEntryEnd, theCurPx := -1, NoPrefix;
    }

    /** `tellg` answers -1 on a stream that ran off its end. */
    function Pos(): int
      reads this
    {
      if ranOff then -1 else pos
    }

    /** Returns fewer bytes than asked for exactly when the data runs out. */
    method Get(len: nat) returns (buf: seq<byte>)
      requires Valid() && len > 0
      modifies `pos, `ranOff
      ensures Valid() && pos >= old(pos)
      ensures if !old(ranOff) && old(pos) + len <= |data|
              then !ranOff && pos == old(pos) + len && buf == data[old(pos)..pos]
              else ranOff && |buf| < len
    {
      if ranOff {
        buf := [];
        return;
      }
      if pos + len <= |data| {
        buf := data[pos..pos + len];
        pos := pos + len;
      } else {
        buf := data[pos..];
        pos := |data|;
        ranOff := true;
      }
    }

    method Ignore(n: nat)
      requires Valid()
      modifies `pos, `ranOff
      ensures Valid() && pos >= old(pos)
      ensures At() == if old(ranOff) then Wrappers.None else Skip(data, old(pos), n)
    {
      if !ranOff {
        if pos + n <= |data| {
          pos := pos + n;
        } else {
          pos := |data|;
          ranOff := true;
        }
      }
    }

    /** Skips what is left of the entry; an entry that was overread is fatal. */
    method EndEntry() returns (died: bool)
      requires Valid()
      modifies this
      ensures Valid() && pos >= old(pos)
      ensures died <==> theEntryEnd < old(Pos())
      ensures theEntryEnd == old(theEntryEnd)
      ensures !died && !old(ranOff) ==> At() == Skip(data, old(pos), theEntryEnd - old(pos))
      ensures !died && old(ranOff) ==> At() == Wrappers.None
    {
      var nextEntryOffset := theEntryEnd - Pos();
      if nextEntryOffset < 0 {
        return true;
      }
      Ignore(nextEntryOffset);
      theCurPx := NoPrefix;
      died := false;
    }

    /** The byte-by-byte scan for a progress entry; `window` holds the eight bytes at
        `theEntryEnd`, and the stream stands right behind them. */
    method Resync(window: seq<byte>) returns (found: bool)
      requires Valid() && !ranOff && 0 <= theEntryEnd && pos == theEntryEnd + 8
      requires window == data[theEntryEnd..pos]
      modifies this
      ensures Valid() && pos >= old(pos)
      ensures found <==> NextRecoverable(data, old(theEntryEnd) + 1).Some?
      ensures found ==>
                && !ranOff && theEntryEnd == NextRecoverable(data, old(theEntryEnd) + 1).value
                && pos == theEntryEnd + 8 && theCurPx == PrefixAt(data, theEntryEnd)
      ensures !found ==> ranOff
    {
      hide Load;
      var buf := window;
      ghost var start := theEntryEnd;
      found := false;
      while !found && !ranOff
        invariant Valid() && start <= theEntryEnd && pos >= old(pos)
        invariant !ranOff ==> pos == theEntryEnd + 8 && buf == data[theEntryEnd..pos]
        invariant !ranOff && !found ==> NextRecoverable(data, start + 1) == NextRecoverable(data, theEntryEnd + 1)
        invariant found ==>
                    && !ranOff && NextRecoverable(data, start + 1) == Wrappers.Some(theEntryEnd as nat)
                    && theCurPx == PrefixAt(data, theEntryEnd)
        invariant ranOff ==> NextRecoverable(data, start + 1) == Wrappers.None
        decreases |data| - pos, !ranOff, !found
      {
        theEntryEnd := theEntryEnd + 1;
        var c := Get(1);
        if !ranOff {
          SlidWindow(data, theEntryEnd - 1);
          buf := buf[1..] + c;
          theCurPx := Load(buf);
          found := theCurPx.Recoverable();
        }
      }
    }

    /** Loads a progress record and ends its entry. */
    method PassRecord(ghost at: nat) returns (died: bool)
      requires Valid() && !ranOff && pos == at + 8 && theEntryEnd == at + PrefixAt(data, at).size >= at
      modifies this
      ensures Valid() && pos >= old(pos)
      ensures PassProgress(data, at) == if died then Died else BegEntry(data, At())
      ensures theEntryEnd == old(theEntryEnd) && (!died && !ranOff ==> pos == theEntryEnd)
    {
      hide Load, BegEntry;
      var record := Get(PROGRESS_SIZE);
      died := EndEntry();
      NothingBegins(data);
    }

    /** Finds the next entry that is not a progress entry. */
    method BeginEntry() returns (px: Prefix, died: bool)
      requires Valid()
      modifies this
      ensures Valid()
      ensures match BegEntry(data, old(At()))
              case Began(p, end, at) => !died && px == p == theCurPx && theEntryEnd == end && At() == Wrappers.Some(at)
              case Exhausted => !died && px == NoPrefix && ranOff
              case Died => died
    {
      hide Load, NextRecoverable;
      ghost var goal := BegEntry(data, At());
      theEntryEnd := Pos();
      var buf := Get(8);
      while !ranOff
        invariant Valid()
        invariant if ranOff then goal == Exhausted
                  else 0 <= theEntryEnd && pos == theEntryEnd + 8 && buf == data[theEntryEnd..pos]
                       && goal == BegEntry(data, Wrappers.Some(theEntryEnd as nat))
        decreases |data| - pos, !ranOff
      {
        theCurPx := Load(buf);
        if theCurPx.tag > 0 && !theCurPx.Good() {
          var found := Resync(buf);
          if !found {
            break;
          }
        }
        theEntryEnd := theEntryEnd + theCurPx.size;
        if theCurPx.tag != LG_PROGRESS {
          return theCurPx, false;
        }
        ghost var at: nat := theEntryEnd - theCurPx.size;
        assert goal == PassProgress(data, at);
        var overrun := PassRecord(at);
        if overrun {
          return NoPrefix, true;
        }
        buf := Get(8);
      }
      theCurPx := NoPrefix;
      return theCurPx, false;
    }
  }
}
