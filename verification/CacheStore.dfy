/** The object cache: a capacity in bytes, the index, and a first-in first-out removal policy. */
module CacheStore {
  import opened CacheIndex

  function TotalSize(q: seq<CacheEntry>): int {
    if q == [] then 0 else q[0].objSize + TotalSize(q[1..])
  }

  ghost predicate NoRepeats(q: seq<CacheEntry>) {
    forall i, j :: 0 <= i < j < |q| ==> q[i] != q[j]
  }

  /** How many of the oldest entries have to go before `need` bytes are free. */
  function Victims(q: seq<CacheEntry>, space: int, need: int): (m: nat)
    ensures m <= |q|
    ensures forall j :: 0 <= j < m ==> space + TotalSize(q[..j]) < need
    ensures m < |q| ==> space + TotalSize(q[..m]) >= need
  {
    if q == [] || space >= need then 0
    else
      var m := 1 + Victims(q[1..], space + q[0].objSize, need);
      assert forall j :: 0 < j <= m ==> q[..j][1..] == q[1..][..j - 1];
      m
  }

  lemma {:induction false} TotalOfAppend(q: seq<CacheEntry>, e: CacheEntry)
    ensures TotalSize(q + [e]) == TotalSize(q) + e.objSize
  {
    if q == [] {
      assert [] + [e] == [e];
    } else {
      assert (q + [e])[1..] == q[1..] + [e];
      TotalOfAppend(q[1..], e);
    }
  }

  lemma {:induction false} TotalIsNonNegative(q: seq<CacheEntry>)
    requires forall i :: 0 <= i < |q| ==> q[i].objSize >= 0
    ensures TotalSize(q) >= 0
  {
    if q != [] {
      TotalIsNonNegative(q[1..]);
    }
  }

  class CachePolicy {
    var theQueue: seq<CacheEntry>  // in admission order

    constructor ()
      ensures theQueue == []
    {
      theQueue := [];
    }

    method NoteAdmitted(e: CacheEntry)
      modifies this
      ensures theQueue == old(theQueue) + [e]
    {
      theQueue := theQueue + [e];
    }

    /** Takes one entry out of the queue, wherever it is. */
    method NotePurged(e: CacheEntry, ghost at: nat)
      requires at < |theQueue| && theQueue[at] == e && NoRepeats(theQueue)
      modifies this
      ensures theQueue == old(theQueue)[..at] + old(theQueue)[at + 1..]
    {
      var i := 0;
      while theQueue[i] != e
        invariant i <= at
        decreases at - i
      {
        i := i + 1;
      }
      theQueue := theQueue[..i] + theQueue[i + 1..];
    }

    function NextVictim(): (v: CacheEntry?)
      reads this
    {
      if theQueue == [] then null else theQueue[0]
    }
  }

  /** `Aborted` is the process giving up on a failed assertion. */
  datatype Outcome = Cached | Refused | Aborted

  class Cache {
    const theIndex: CacheEntryHash
    const thePolicy: CachePolicy
    const theCapacity: int
    var theSize: int

    ghost predicate Valid()
      reads this, thePolicy, theIndex, theIndex.theIndex, theIndex.nodes
    {
      && theIndex.Valid()
      && Accounted(thePolicy.theQueue, theIndex.nodes, theSize)
      && theSize <= theCapacity
    }

    function Space(): int
      reads this
    {
      theCapacity - theSize
    }

    constructor (hash: Key -> nat, capacity: int, entries: nat)
      requires capacity >= 0
      ensures Valid() && fresh(theIndex) && fresh(theIndex.theIndex) && fresh(thePolicy)
      ensures theIndex.store == map[] && thePolicy.theQueue == [] && theCapacity == capacity
    {
      theIndex := new CacheEntryHash(hash, entries);
      thePolicy := new CachePolicy();
      theCapacity, theSize := capacity, 0;
    }

    /** The space is what the queued entries leave, and exactly they are in use. */
    lemma Books()
      requires Valid()
      ensures Space() == theCapacity - TotalSize(thePolicy.theQueue)
      ensures theIndex.nodes == set e | e in thePolicy.theQueue
    {}

    method Lookup(id: ObjId) returns (e: CacheEntry?)
      requires Valid()
      ensures e == if id.key in theIndex.store then theIndex.store[id.key] else null
    {
      var found, loc, at := theIndex.Find(id);
      if found {
        e := theIndex.Deref(loc);
      } else {
        e := null;
      }
    }

    lemma QueuedIsStored(at: nat)
      requires Valid() && at < |thePolicy.theQueue|
      ensures var e := thePolicy.theQueue[at]; e.id.key in theIndex.store && theIndex.store[e.id.key] == e
      ensures thePolicy.theQueue[at].objSize >= 0 && NoRepeats(thePolicy.theQueue)
    {
      hide CacheEntryHash.Valid;
      theIndex.NodesAreStored(thePolicy.theQueue[at]);
    }

    /** Takes a queued entry out of the index, the accounts and the queue, and gives up
        when that leaves no space at all; an entry with an unknown id stays alone. */
    method PurgeEntry(e: CacheEntry, ghost at: nat) returns (purged: bool, aborted: bool)
      requires Valid()
      requires e.id.key in theIndex.store ==> at < |thePolicy.theQueue| && thePolicy.theQueue[at] == e
      modifies `theSize, thePolicy, theIndex, theIndex.theIndex, theIndex.nodes`nextInIdx
      ensures Valid()
      ensures purged <==> e.id.key in old(theIndex.store)
      ensures theIndex.store == old(theIndex.store) - {e.id.key}
      ensures if purged then
                && theIndex.nodes == old(theIndex.nodes) - {e}
                && thePolicy.theQueue == old(thePolicy.theQueue)[..at] + old(thePolicy.theQueue)[at + 1..]
                && theSize == old(theSize) - e.objSize
              else
                && theIndex.nodes == old(theIndex.nodes)
                && thePolicy.theQueue == old(thePolicy.theQueue) && theSize == old(theSize)
      ensures aborted <==> purged && Space() <= 0
    {
      hide Key.Less, CacheEntryHash.Valid, Accounted;
      var found, loc, spot := theIndex.Find(e.id);
      if !found {
        EmptyDifference(theIndex.store, e.id.key);
        return false, false;
      }
      QueuedIsStored(at);
      RemoveAccounted(thePolicy.theQueue, theIndex.nodes, theSize, at);
      var gone := theIndex.DelAt(loc, e.id.key, spot);
      theSize := theSize - e.objSize;
      thePolicy.NotePurged(e, at);
      purged, aborted := true, Space() <= 0;
    }

    /** Admits a new entry, purging the oldest ones until it fits. */
    method CacheIt(e: CacheEntry) returns (r: Outcome)
      requires Valid() && e.objSize >= 0
      modifies `theSize, thePolicy, theIndex, theIndex.theIndex, theIndex.nodes`nextInIdx, e`nextInIdx
      ensures Valid()
      ensures r.Refused? <==> e.id.key in old(theIndex.store) || theCapacity < e.objSize
      ensures r.Aborted? <==> !r.Refused? && WouldAbort(old(thePolicy.theQueue), old(Space()), e.objSize)
      ensures r.Refused? ==>
                && theIndex.store == old(theIndex.store)
                && thePolicy.theQueue == old(thePolicy.theQueue) && theSize == old(theSize)
      ensures r.Cached? ==>
                var m := Victims(old(thePolicy.theQueue), old(Space()), e.objSize);
                && thePolicy.theQueue == old(thePolicy.theQueue)[m..] + [e]
                && theIndex.store == (old(theIndex.store) - KeysOf(old(thePolicy.theQueue)[..m]))[e.id.key := e]
    {
      hide Valid, CacheEntryHash.Valid, CacheEntryHash.Spot, Victims, KeysOf, WouldAbort;
      var known := Lookup(e.id);
      if known != null || theCapacity < e.objSize {
        return Refused;
      }
      r := MakeRoom(e);
      if r.Cached? {
        Insert(e);
      }
    }

    method Insert(e: CacheEntry)
      requires Valid() && 0 <= e.objSize <= Space() && e.id.key !in theIndex.store
      modifies `theSize, thePolicy, theIndex, theIndex.theIndex, theIndex.nodes`nextInIdx, e`nextInIdx
      ensures Valid()
      ensures thePolicy.theQueue == old(thePolicy.theQueue) + [e]
      ensures theIndex.store == old(theIndex.store)[e.id.key := e]
    {
      hide Key.Less, CacheEntryHash.Valid, Accounted;
      theIndex.NodesAreStored(e);
      AddAccounted(thePolicy.theQueue, theIndex.nodes, theSize, e);
      theIndex.Add(e);
      theSize := theSize + e.objSize;
      thePolicy.NoteAdmitted(e);
    }

    method MakeRoom(e: CacheEntry) returns (r: Outcome)
      requires Valid() && 0 <= e.objSize <= theCapacity && e.id.key !in theIndex.store
      modifies `theSize, thePolicy, theIndex, theIndex.theIndex, theIndex.nodes`nextInIdx
      ensures Valid() && theIndex.nodes <= old(theIndex.nodes)
      ensures e.id.key !in theIndex.store
      ensures r.Cached? || r.Aborted?
      ensures r.Aborted? <==> WouldAbort(old(thePolicy.theQueue), old(Space()), e.objSize)
      ensures r.Cached? ==>
                var m := Victims(old(thePolicy.theQueue), old(Space()), e.objSize);
                && thePolicy.theQueue == old(thePolicy.theQueue)[m..]
                && theIndex.store == old(theIndex.store) - KeysOf(old(thePolicy.theQueue)[..m])
                && Space() >= e.objSize
    {
      hide Key.Less, CacheEntryHash.Valid, Accounted;
      ghost var m := 0;
      ghost var q := thePolicy.theQueue;
      assert theIndex.store - KeysOf(q[..0]) == theIndex.store;
      while Space() < e.objSize
        invariant Valid() && m <= |q| && theIndex.nodes <= old(theIndex.nodes)
        invariant thePolicy.theQueue == q[m..]
        invariant theIndex.store == old(theIndex.store) - KeysOf(q[..m])
        invariant Victims(q, old(Space()), e.objSize) == m + Victims(q[m..], Space(), e.objSize)
        invariant m > 0 ==> Space() > 0 && !WouldAbort(q, old(Space()), e.objSize)
        invariant m == 0 ==> Space() == old(Space())
        decreases |q| - m
      {
        SomethingToPurge(thePolicy.theQueue, theIndex.nodes, theSize, theCapacity, e.objSize);
        var v := thePolicy.NextVictim();
        QueuedIsStored(0);
        assert q[m..][1..] == q[m + 1..] && q[..m + 1] == q[..m] + [v];
        assert KeysOf(q[..m + 1]) == KeysOf(q[..m]) + {v.id.key};
        var purged, aborted := PurgeEntry(v, 0);
        if aborted {
          return Aborted;
        }
        m := m + 1;
      }
      return Cached;
    }
  }

  /** The queue holds the indexed entries, once each, and their sizes add up. */
  ghost predicate Accounted(q: seq<CacheEntry>, nodes: set<CacheEntry>, size: int) {
    && NoRepeats(q)
    && nodes == (set e | e in q)
    && (forall i :: 0 <= i < |q| ==> q[i].objSize >= 0)
    && size == TotalSize(q)
  }

  /** The assertion that a purge frees something fails exactly when the cache is full to
      the last byte and its oldest entry is empty. */
  predicate WouldAbort(q: seq<CacheEntry>, space: int, need: int) {
    q != [] && space == 0 < need && q[0].objSize == 0
  }

  lemma EmptyDifference<V>(m: map<Key, V>, k: Key)
    requires k !in m
    ensures m - {k} == m
  {}

  lemma RemoveAccounted(q: seq<CacheEntry>, nodes: set<CacheEntry>, size: int, at: nat)
    requires Accounted(q, nodes, size) && at < |q|
    ensures Accounted(q[..at] + q[at + 1..], nodes - {q[at]}, size - q[at].objSize)
  {
    var rest := q[..at] + q[at + 1..];
    TotalOfRemoval(q, at);
    forall e
      ensures e in nodes - {q[at]} <==> e in rest
    {
      if e in q && e != q[at] {
        var i :| 0 <= i < |q| && q[i] == e;
        assert rest[if i < at then i else i - 1] == e;
      }
    }
  }

  lemma {:induction false} TotalOfRemoval(q: seq<CacheEntry>, at: nat)
    requires at < |q|
    ensures TotalSize(q[..at] + q[at + 1..]) == TotalSize(q) - q[at].objSize
  {
    if at == 0 {
      assert q[..0] + q[1..] == q[1..];
    } else {
      assert (q[..at] + q[at + 1..])[1..] == q[1..][..at - 1] + q[1..][at..];
      TotalOfRemoval(q[1..], at - 1);
    }
  }

  lemma AddAccounted(q: seq<CacheEntry>, nodes: set<CacheEntry>, size: int, e: CacheEntry)
    requires Accounted(q, nodes, size) && e !in nodes && e.objSize >= 0
    ensures Accounted(q + [e], nodes + {e}, size + e.objSize)
  {
    TotalOfAppend(q, e);
  }

  lemma SomethingToPurge(q: seq<CacheEntry>, nodes: set<CacheEntry>, size: int, capacity: int, need: int)
    requires Accounted(q, nodes, size) && size <= capacity && capacity - size < need <= capacity
    ensures q != []
  {}

  ghost function KeysOf(q: seq<CacheEntry>): set<Key> {
    set e | e in q :: e.id.key
  }

  /** A cache of ten bytes that an empty entry and one of ten have filled. */
  method Filled(a: CacheEntry, b: CacheEntry) returns (cache: Cache)
    requires a.objSize == 0 && b.objSize == 10 && a.id.key != b.id.key
    modifies a`nextInIdx, b`nextInIdx
    ensures fresh(cache) && fresh(cache.thePolicy) && fresh(cache.theIndex) && fresh(cache.theIndex.theIndex)
    ensures cache.Valid() && cache.theIndex.nodes == {a, b} && cache.theCapacity == 10
    ensures cache.thePolicy.theQueue == [a, b] && cache.theIndex.store.Keys == {a.id.key, b.id.key}
  {
    hide CacheEntryHash.Valid, Accounted, Victims, KeysOf, Cache.Valid, WouldAbort;
    cache := new Cache((k: Key) => 0, 10, 100);
    cache.Books();
    Empties(10, a);
    var r := cache.CacheIt(a);
    cache.Books();
    Singles(a, b);
    r := cache.CacheIt(b);
    cache.Books();
  }

  /** It happens: an empty entry, one that fills the cache, and one more. */
  method FillsUpAndAborts(a: CacheEntry, b: CacheEntry, c: CacheEntry) returns (r: Outcome)
    requires a.objSize == 0 && b.objSize == 10 && c.objSize == 1
    requires a.id.key != b.id.key && a.id.key != c.id.key && b.id.key != c.id.key
    modifies a`nextInIdx, b`nextInIdx, c`nextInIdx
    ensures r == Aborted
  {
    hide CacheEntryHash.Valid, Accounted, Victims, KeysOf, Cache.Valid, WouldAbort;
    var cache := Filled(a, b);
    cache.Books();
    Pairs(a, b);
    r := cache.CacheIt(c);
  }

  lemma Empties(space: int, a: CacheEntry)
    ensures TotalSize([]) == 0 && KeysOf([]) == {} && !WouldAbort([], space, a.objSize)
    ensures Victims([], space, a.objSize) == 0 && [] + [a] == [a]
    ensures TotalSize([a]) == a.objSize
  {
    assert [a][1..] == [];
  }

  lemma Singles(a: CacheEntry, b: CacheEntry)
    requires a.objSize == 0 && b.objSize == 10
    ensures Victims([a], 10, 10) == 0 && !WouldAbort([a], 10, 10)
    ensures [a][..0] == [] && KeysOf([]) == {} && [a][0..] + [b] == [a, b]
  {}

  lemma Pairs(a: CacheEntry, b: CacheEntry)
    requires a.objSize == 0 && b.objSize == 10
    ensures TotalSize([a, b]) == 10 && WouldAbort([a, b], 0, 1)
  {
    assert [a, b][1..] == [b] && [b][1..] == [];
    assert TotalSize([b]) == b.objSize + TotalSize([]);
  }
}
