/** Object ids as the cache compares them, and the hash of sorted collision chains that
    is walked and edited through links. */
module CacheIndex {
  datatype UniqId = UniqId(secs: int, mix: int, cnt: int) {
    predicate Less(u: UniqId) {
      if cnt != u.cnt then cnt < u.cnt
      else if mix != u.mix then mix < u.mix
      else secs < u.secs
    }
  }

  /** What `operator ==` and `operator <` look at. */
  datatype Key = Key(name: int, viserv: int, world: UniqId) {
    predicate Less(k: Key) {
      if name != k.name then name < k.name
      else if viserv != k.viserv then viserv < k.viserv
      else world.Less(k.world)
    }
  }

  /** An id also has parts that neither operator looks at. */
  datatype ObjId = ObjId(key: Key, contentType: int, flags: int)

  lemma LessIsStrictTotal(a: Key, b: Key, c: Key)
    ensures !a.Less(a)
    ensures a.Less(b) && b.Less(c) ==> a.Less(c)
    ensures a == b || a.Less(b) || b.Less(a)
    ensures !(a.Less(b) && b.Less(a))
  {}

  class CacheEntry {
    const id: ObjId
    const objSize: int
    var nextInIdx: CacheEntry?

    constructor (id: ObjId, size: int)
      ensures this.id == id && objSize == size && nextInIdx == null
    {
      this.id, objSize, nextInIdx := id, size, null;
    }
  }

  /** The address of a link: a bucket slot, or the next field of an entry. */
  datatype Loc = Slot(bucket: nat) | NextOf(entry: CacheEntry)

  predicate Sorted(chain: seq<CacheEntry>) {
    forall i, j :: 0 <= i < j < |chain| ==> chain[i].id.key.Less(chain[j].id.key)
  }

  ghost function Following(chain: seq<CacheEntry>, i: nat): CacheEntry? {
    if i + 1 < |chain| then chain[i + 1] else null
  }

  /** Slots and links spell out the chains. */
  ghost predicate SpelledOut(slots: seq<CacheEntry?>, links: map<CacheEntry, CacheEntry?>,
                             chains: seq<seq<CacheEntry>>) {
    && |slots| == |chains|
    && (forall b :: 0 <= b < |chains| ==> slots[b] == if chains[b] == [] then null else chains[b][0])
    && (forall b, i :: 0 <= b < |chains| && 0 <= i < |chains[b]| ==>
          chains[b][i] in links && links[chains[b][i]] == Following(chains[b], i))
  }

  function Bucket(hash: Key -> nat, k: Key, buckets: nat): (b: nat)
    requires buckets > 0
    ensures b < buckets
  {
    hash(k) % buckets
  }

  /** The chains hold exactly the entries of the finite map, each in its own bucket, sorted. */
  ghost predicate Represents(chains: seq<seq<CacheEntry>>, hash: Key -> nat, store: map<Key, CacheEntry>) {
    && |chains| > 0
    && (forall b :: 0 <= b < |chains| ==> Sorted(chains[b]))
    && (forall b, i :: 0 <= b < |chains| && 0 <= i < |chains[b]| ==> Filed(chains, hash, store, b, i))
    && (forall k :: k in store ==> store[k].id.key == k && store[k] in chains[Bucket(hash, k, |chains|)])
  }

  ghost predicate Filed(chains: seq<seq<CacheEntry>>, hash: Key -> nat, store: map<Key, CacheEntry>, b: nat, i: nat)
    requires b < |chains| && i < |chains[b]|
  {
    var e := chains[b][i];
    e.id.key in store && store[e.id.key] == e && Bucket(hash, e.id.key, |chains|) == b
  }

  /** `at` is the first position in the sorted chain whose key is not smaller than `k`. */
  ghost predicate Before(chain: seq<CacheEntry>, k: Key, at: nat) {
    && at <= |chain|
    && (forall i :: 0 <= i < at ==> chain[i].id.key.Less(k))
    && (forall i :: at <= i < |chain| ==> !chain[i].id.key.Less(k))
  }

  /** In a sorted chain the first key not smaller than `k` is `k` itself or nobody is. */
  lemma FirstNotSmaller(chain: seq<CacheEntry>, k: Key, at: nat)
    requires Sorted(chain) && at <= |chain|
    requires forall i :: 0 <= i < at ==> chain[i].id.key.Less(k)
    requires at < |chain| ==> !chain[at].id.key.Less(k)
    ensures Before(chain, k, at)
    ensures forall i :: 0 <= i < |chain| && chain[i].id.key == k ==> i == at
  {
    forall i | at < i < |chain|
      ensures !chain[i].id.key.Less(k) && chain[i].id.key != k
    {
      LessIsStrictTotal(chain[at].id.key, chain[i].id.key, k);
      LessIsStrictTotal(chain[at].id.key, k, chain[i].id.key);
      assert chain[at].id.key.Less(chain[i].id.key);
    }
    LessIsStrictTotal(k, k, k);
  }

  lemma InsertKeepsSorted(chain: seq<CacheEntry>, e: CacheEntry, at: nat)
    requires Sorted(chain) && Before(chain, e.id.key, at)
    requires forall i :: 0 <= i < |chain| ==> chain[i].id.key != e.id.key
    ensures Sorted(chain[..at] + [e] + chain[at..])
  {
    forall i | at <= i < |chain|
      ensures e.id.key.Less(chain[i].id.key)
    {
      LessIsStrictTotal(e.id.key, chain[i].id.key, e.id.key);
    }
    hide Key.Less;
    var c := chain[..at] + [e] + chain[at..];
    forall i, j | 0 <= i < j < |c|
      ensures c[i].id.key.Less(c[j].id.key)
    {
      assert i < at ==> c[i] == chain[i];
      assert i > at ==> c[i] == chain[i - 1];
      assert j < at ==> c[j] == chain[j];
      assert j > at ==> c[j] == chain[j - 1];
    }
  }

  lemma InsertRepresents(chains: seq<seq<CacheEntry>>, hash: Key -> nat, store: map<Key, CacheEntry>,
                         e: CacheEntry, at: nat)
    requires Represents(chains, hash, store) && e.id.key !in store
    requires Before(chains[Bucket(hash, e.id.key, |chains|)], e.id.key, at)
    ensures var b := Bucket(hash, e.id.key, |chains|);
            Represents(chains[b := chains[b][..at] + [e] + chains[b][at..]], hash, store[e.id.key := e])
  {
    hide Key.Less, Bucket;
    var b := Bucket(hash, e.id.key, |chains|);
    var chain := chains[b];
    var c := chain[..at] + [e] + chain[at..];
    var chains', store' := chains[b := c], store[e.id.key := e];
    forall i | 0 <= i < |chain|
      ensures chain[i].id.key != e.id.key
    {
      assert Filed(chains, hash, store, b, i);
    }
    InsertKeepsSorted(chain, e, at);
    forall b', i | 0 <= b' < |chains'| && 0 <= i < |chains'[b']|
      ensures Filed(chains', hash, store', b', i)
    {
      if b' != b {
        assert Filed(chains, hash, store, b', i);
      } else if i < at {
        assert Filed(chains, hash, store, b, i);
      } else if i > at {
        assert Filed(chains, hash, store, b, i - 1);
      }
    }
    forall k | k in store'
      ensures store'[k] in chains'[Bucket(hash, k, |chains'|)]
    {
      if k == e.id.key {
        assert c[at] == e;
      } else if Bucket(hash, k, |chains|) == b {
        var i :| 0 <= i < |chain| && chain[i] == store[k];
        assert c[if i < at then i else i + 1] == store[k];
      }
    }
  }

  lemma RemoveRepresents(chains: seq<seq<CacheEntry>>, hash: Key -> nat, store: map<Key, CacheEntry>,
                         k: Key, at: nat)
    requires Represents(chains, hash, store) && k in store
    requires var chain := chains[Bucket(hash, k, |chains|)]; at < |chain| && chain[at] == store[k]
    ensures var b := Bucket(hash, k, |chains|);
            Represents(chains[b := chains[b][..at] + chains[b][at + 1..]], hash, store - {k})
  {
    hide Bucket;
    var b := Bucket(hash, k, |chains|);
    var chain := chains[b];
    var c := chain[..at] + chain[at + 1..];
    var chains', store' := chains[b := c], store - {k};
    LessIsStrictTotal(k, k, k);
    hide Key.Less;
    forall b', i | 0 <= b' < |chains'| && 0 <= i < |chains'[b']|
      ensures Filed(chains', hash, store', b', i)
    {
      if b' != b {
        assert Filed(chains, hash, store, b', i);
      } else {
        var j := if i < at then i else i + 1;
        assert c[i] == chain[j] && Filed(chains, hash, store, b, j);
        assert chain[j].id.key != k;
      }
    }
    forall k' | k' in store'
      ensures store'[k'] in chains'[Bucket(hash, k', |chains'|)]
    {
      if Bucket(hash, k', |chains|) == b {
        var i :| 0 <= i < |chain| && chain[i] == store[k'];
        assert c[if i < at then i else i - 1] == store[k'];
      }
    }
  }

  class CacheEntryHash {
    const theIndex: array<CacheEntry?>
    const hash: Key -> nat  // equal ids hash alike
    var theCount: nat

    ghost var chains: seq<seq<CacheEntry>>    // the entries of every bucket, in link order
    ghost var store: map<Key, CacheEntry>     // the finite map this hash stands for
    ghost var nodes: set<CacheEntry>

    ghost predicate Valid()
      reads this, theIndex, nodes
    {
      && theCount == |store|
      && theIndex.Length == |chains| > 0
      && Represents(chains, hash, store)
      && (forall e :: e in nodes ==> e.id.key in store && store[e.id.key] == e)
      && Wired()
    }

    ghost predicate Wired()
      reads `chains, `nodes, theIndex, nodes
    {
      && theIndex.Length == |chains|
      && SpelledOut(theIndex[..], Links(), chains)
    }

    ghost function Links(): map<CacheEntry, CacheEntry?>
      reads `nodes, nodes
    {
      map e | e in nodes :: e.nextInIdx
    }

    ghost function ChainOf(k: Key): seq<CacheEntry>
      requires |chains| > 0
      reads this
    {
      chains[Bucket(hash, k, |chains|)]
    }

    /** The link at which `find` stops for a key. */
    ghost predicate Spot(k: Key, loc: Loc, at: nat)
      requires |chains| > 0
      reads this
    {
      && Before(ChainOf(k), k, at)
      && loc == (if at == 0 then Slot(Bucket(hash, k, |chains|)) else NextOf(ChainOf(k)[at - 1]))
    }

    lemma HeadOf(b: nat)
      requires Wired() && b < |chains|
      ensures theIndex[b] == if chains[b] == [] then null else chains[b][0]
    {
      assert theIndex[..][b] == theIndex[b];
    }

    lemma LinkOf(b: nat, i: nat)
      requires Wired() && b < |chains| && i < |chains[b]|
      ensures chains[b][i] in nodes && chains[b][i].nextInIdx == Following(chains[b], i)
    {
      assert Links()[chains[b][i]] == Following(chains[b], i);
    }

    /** The nodes are the values of the map. */
    lemma NodesAreStored(e: CacheEntry)
      requires Valid()
      ensures e in nodes <==> e.id.key in store && store[e.id.key] == e
    {
      if e.id.key in store && store[e.id.key] == e {
        var chain := chains[Bucket(hash, e.id.key, |chains|)];
        var i :| 0 <= i < |chain| && chain[i] == e;
      }
    }

    constructor (hash: Key -> nat, capacity: nat)
      ensures Valid() && fresh(theIndex) && this.hash == hash
      ensures store == map[] && nodes == {}
      ensures theIndex.Length % 2 == 1
    {
      var n := capacity + capacity / 3 + 7;
      n := if n % 2 == 0 then n + 1 else n;
      this.hash := hash;
      theIndex := new CacheEntry?[n](_ => null);
      theCount := 0;
      chains := seq(n, _ => []);
      store := map[];
      nodes := {};
    }

    /** What a link points to. */
    function Deref(loc: Loc): CacheEntry?
      requires loc.Slot? ==> loc.bucket < theIndex.Length
      reads theIndex, if loc.NextOf? then {loc.entry} else {}
    {
      if loc.Slot? then theIndex[loc.bucket] else loc.entry.nextInIdx
    }

    /** Succeeds exactly for stored ids; the link it yields is where the entry hangs or
        where it would have to be hung. */
    method Find(id: ObjId) returns (found: bool, loc: Loc, ghost at: nat)
      requires Valid()
      ensures found <==> id.key in store
      ensures Spot(id.key, loc, at)
      ensures found ==> at < |ChainOf(id.key)| && ChainOf(id.key)[at] == store[id.key] == Deref(loc)
    {
      hide Key.Less, Bucket, Represents, Wired;
      ghost var b := Bucket(hash, id.key, |chains|);
      ghost var chain := chains[b];
      HeadOf(b);
      loc := Slot(Bucket(hash, id.key, theIndex.Length));
      at := 0;
      var e := Deref(loc);
      while e != null && e.id.key.Less(id.key)
        invariant at <= |chain|
        invariant loc == if at == 0 then Slot(b) else NextOf(chain[at - 1])
        invariant loc.Slot? ==> loc.bucket < theIndex.Length
        invariant e == Deref(loc)
        invariant e == if at < |chain| then chain[at] else null
        invariant forall i :: 0 <= i < at ==> chain[i].id.key.Less(id.key)
        decreases |chain| - at
      {
        loc := NextOf(e);
        at := at + 1;
        LinkOf(b, at - 1);
        e := Deref(loc);
      }
      found := e != null && e.id.key == id.key;
      assert Sorted(chain) by {
        BucketsSorted(chains, hash, store);
      }
      FirstNotSmaller(chain, id.key, at);
      StoredInChain(chains, hash, store, id.key, at, found);
    }

    /** Hangs a new entry on the link that `Find` yielded for its id. */
    method AddAt(loc: Loc, e: CacheEntry, ghost at: nat)
      requires Valid() && e.id.key !in store && Spot(e.id.key, loc, at)
      modifies `theCount, `chains, `store, `nodes, theIndex, nodes`nextInIdx, e`nextInIdx
      ensures Valid() && store == old(store)[e.id.key := e] && nodes == old(nodes) + {e}
    {
      hide Key.Less, Bucket, Represents, Wired;
      ghost var b := Bucket(hash, e.id.key, |chains|);
      InsertRepresents(chains, hash, store, e, at);
      ChainsDisjoint(chains, hash, store);
      HangOn(loc, e, b, at);
      theCount := theCount + 1;
      store := store[e.id.key := e];
    }

    method HangOn(loc: Loc, e: CacheEntry, ghost b: nat, ghost at: nat)
      requires Wired() && Distinct(chains) && e !in nodes
      requires b < |chains| && at <= |chains[b]|
      requires loc == if at == 0 then Slot(b) else NextOf(chains[b][at - 1])
      modifies `chains, `nodes, theIndex, nodes`nextInIdx, e`nextInIdx
      ensures Wired() && nodes == old(nodes) + {e}
      ensures chains == old(chains)[b := old(chains)[b][..at] + [e] + old(chains)[b][at..]]
    {
      hide SpelledOut, Distinct;
      ghost var chain := chains[b];
      InsertSpelledOut(theIndex[..], Links(), chains, b, at, e);
      var next := Deref(loc);
      e.nextInIdx := next;
      if loc.Slot? {
        theIndex[loc.bucket] := e;
      } else {
        loc.entry.nextInIdx := e;
      }
      chains := chains[b := chain[..at] + [e] + chain[at..]];
      nodes := nodes + {e};
      assert Links() == if at == 0 then old(Links())[e := next] else old(Links())[chain[at - 1] := e][e := next];
      assert theIndex[..] == if at == 0 then old(theIndex[..])[b := e] else old(theIndex[..]);
    }

    method Add(e: CacheEntry)
      requires Valid() && e.id.key !in store
      modifies `theCount, `chains, `store, `nodes, theIndex, nodes`nextInIdx, e`nextInIdx
      ensures Valid() && store == old(store)[e.id.key := e] && nodes == old(nodes) + {e}
    {
      var found, loc, at := Find(e.id);
      AddAt(loc, e, at);
    }

    /** Unhangs the entry on the link that `Find` yielded for a stored key. */
    method DelAt(loc: Loc, ghost k: Key, ghost at: nat) returns (e: CacheEntry)
      requires Valid() && k in store && Spot(k, loc, at)
      requires at < |ChainOf(k)| && ChainOf(k)[at] == store[k]
      modifies `theCount, `chains, `store, `nodes, theIndex, nodes`nextInIdx
      ensures Valid() && store == old(store) - {k} && nodes == old(nodes) - {e}
      ensures e == old(store)[k] && e.nextInIdx == null
    {
      hide Key.Less, Bucket, Represents, Wired;
      ghost var b := Bucket(hash, k, |chains|);
      RemoveRepresents(chains, hash, store, k, at);
      ChainsDisjoint(chains, hash, store);
      e := HangOff(loc, b, at);
      SmallerMap(store, k);
      theCount := theCount - 1;
      store := store - {k};
    }

    method HangOff(loc: Loc, ghost b: nat, ghost at: nat) returns (e: CacheEntry)
      requires Wired() && Distinct(chains)
      requires b < |chains| && at < |chains[b]|
      requires loc == if at == 0 then Slot(b) else NextOf(chains[b][at - 1])
      modifies `chains, `nodes, theIndex, nodes`nextInIdx
      ensures Wired() && nodes == old(nodes) - {e}
      ensures e == old(chains)[b][at] && e.nextInIdx == null
      ensures chains == old(chains)[b := old(chains)[b][..at] + old(chains)[b][at + 1..]]
    {
      hide SpelledOut, Distinct;
      ghost var chain := chains[b];
      RemoveSpelledOut(theIndex[..], Links(), chains, b, at);
      e := Deref(loc);
      var next := e.nextInIdx;
      if loc.Slot? {
        theIndex[loc.bucket] := next;
      } else {
        loc.entry.nextInIdx := next;
      }
      e.nextInIdx := null;
      chains := chains[b := chain[..at] + chain[at + 1..]];
      nodes := nodes - {e};
      assert Links() == (if at == 0 then old(Links()) else old(Links())[chain[at - 1] := next]) - {e};
      assert theIndex[..] == if at == 0 then old(theIndex[..])[b := next] else old(theIndex[..]);
    }
  }

  /** Redirecting one link to `e`, and `e` to where it pointed, inserts `e`. */
  lemma InsertSpelledOut(slots: seq<CacheEntry?>, links: map<CacheEntry, CacheEntry?>,
                         chains: seq<seq<CacheEntry>>, b: nat, at: nat, e: CacheEntry)
    requires SpelledOut(slots, links, chains) && Distinct(chains)
    requires b < |chains| && at <= |chains[b]| && e !in links
    ensures var chain := chains[b];
            var next := if at < |chain| then chain[at] else null;
            && (at == 0 ==> slots[b] == next)
            && (at > 0 ==> chain[at - 1] in links && links[chain[at - 1]] == next)
            && SpelledOut(if at == 0 then slots[b := e] else slots,
                          if at == 0 then links[e := next] else links[chain[at - 1] := e][e := next],
                          chains[b := chain[..at] + [e] + chain[at..]])
  {
    var chain := chains[b];
    var next := if at < |chain| then chain[at] else null;
    if at > 0 {
      assert links[chain[at - 1]] == Following(chain, at - 1);
    }
    var chains' := chains[b := chain[..at] + [e] + chain[at..]];
    var links' := if at == 0 then links[e := next] else links[chain[at - 1] := e][e := next];
    forall b', i | 0 <= b' < |chains'| && 0 <= i < |chains'[b']|
      ensures chains'[b'][i] in links' && links'[chains'[b'][i]] == Following(chains'[b'], i)
    {
      InsertedLink(slots, links, chains, b, at, e, b', i);
    }
  }

  lemma InsertedLink(slots: seq<CacheEntry?>, links: map<CacheEntry, CacheEntry?>,
                     chains: seq<seq<CacheEntry>>, b: nat, at: nat, e: CacheEntry, b': nat, i: nat)
    requires SpelledOut(slots, links, chains) && Distinct(chains)
    requires b < |chains| && at <= |chains[b]| && e !in links
    requires b' < |chains| && i < |chains[b := chains[b][..at] + [e] + chains[b][at..]][b']|
    ensures var chain := chains[b];
            var next := if at < |chain| then chain[at] else null;
            var chains' := chains[b := chain[..at] + [e] + chain[at..]];
            var x := chains'[b'][i];
            && (at > 0 ==> chain[at - 1] in links)
            && var links' := if at == 0 then links[e := next] else links[chain[at - 1] := e][e := next];
            x in links' && links'[x] == Following(chains'[b'], i)
  {
    var chain := chains[b];
    if at > 0 {
      assert links[chain[at - 1]] == Following(chain, at - 1);
    }
    if b' != b || i != at {
      var j := if b' == b && i > at then i - 1 else i;
      assert links[chains[b'][j]] == Following(chains[b'], j);
    }
  }

  /** Redirecting the link to an entry to where the entry points removes it. */
  lemma RemoveSpelledOut(slots: seq<CacheEntry?>, links: map<CacheEntry, CacheEntry?>,
                         chains: seq<seq<CacheEntry>>, b: nat, at: nat)
    requires SpelledOut(slots, links, chains) && Distinct(chains)
    requires b < |chains| && at < |chains[b]|
    ensures var chain := chains[b];
            var e, next := chain[at], Following(chain, at);
            && e in links && links[e] == next
            && (at == 0 ==> slots[b] == e)
            && (at > 0 ==> chain[at - 1] in links && links[chain[at - 1]] == e)
            && SpelledOut(if at == 0 then slots[b := next] else slots,
                          (if at == 0 then links else links[chain[at - 1] := next]) - {e},
                          chains[b := chain[..at] + chain[at + 1..]])
  {
    var chain := chains[b];
    var e, next := chain[at], Following(chain, at);
    if at > 0 {
      assert links[chain[at - 1]] == Following(chain, at - 1);
    }
    var chains' := chains[b := chain[..at] + chain[at + 1..]];
    var links' := (if at == 0 then links else links[chain[at - 1] := next]) - {e};
    forall b', i | 0 <= b' < |chains'| && 0 <= i < |chains'[b']|
      ensures chains'[b'][i] in links' && links'[chains'[b'][i]] == Following(chains'[b'], i)
    {
      RemainingLink(slots, links, chains, b, at, b', i);
    }
  }

  lemma RemainingLink(slots: seq<CacheEntry?>, links: map<CacheEntry, CacheEntry?>,
                      chains: seq<seq<CacheEntry>>, b: nat, at: nat, b': nat, i: nat)
    requires SpelledOut(slots, links, chains) && Distinct(chains)
    requires b < |chains| && at < |chains[b]|
    requires b' < |chains| && i < |chains[b := chains[b][..at] + chains[b][at + 1..]][b']|
    ensures var chain := chains[b];
            var e, next := chain[at], Following(chain, at);
            var chains' := chains[b := chain[..at] + chain[at + 1..]];
            var x := chains'[b'][i];
            && (at > 0 ==> chain[at - 1] in links)
            && var links' := (if at == 0 then links else links[chain[at - 1] := next]) - {e};
            x in links' && links'[x] == Following(chains'[b'], i)
  {
    var chain := chains[b];
    if at > 0 {
      assert links[chain[at - 1]] == Following(chain, at - 1);
    }
    var j := if b' == b && i >= at then i + 1 else i;
    assert links[chains[b'][j]] == Following(chains[b'], j);
  }

  ghost predicate Distinct(chains: seq<seq<CacheEntry>>) {
    forall b, i, b', j | 0 <= b < |chains| && 0 <= i < |chains[b]|
                         && 0 <= b' < |chains| && 0 <= j < |chains[b']| ::
      chains[b][i] == chains[b'][j] ==> b == b' && i == j
  }

  lemma ChainsDisjoint(chains: seq<seq<CacheEntry>>, hash: Key -> nat, store: map<Key, CacheEntry>)
    requires Represents(chains, hash, store)
    ensures Distinct(chains)
  {
    forall b, i, b', j | 0 <= b < |chains| && 0 <= i < |chains[b]|
                         && 0 <= b' < |chains| && 0 <= j < |chains[b']| && chains[b][i] == chains[b'][j]
      ensures b == b' && i == j
    {
      assert Filed(chains, hash, store, b, i) && Filed(chains, hash, store, b', j);
      LessIsStrictTotal(chains[b][i].id.key, chains[b][i].id.key, chains[b][i].id.key);
    }
  }

  lemma SmallerMap<V>(m: map<Key, V>, k: Key)
    requires k in m
    ensures |m - {k}| == |m| - 1
  {
    assert m == (m - {k})[k := m[k]];
  }

  lemma BucketsSorted(chains: seq<seq<CacheEntry>>, hash: Key -> nat, store: map<Key, CacheEntry>)
    requires Represents(chains, hash, store)
    ensures forall b :: 0 <= b < |chains| ==> Sorted(chains[b])
  {}

  lemma StoredInChain(chains: seq<seq<CacheEntry>>, hash: Key -> nat, store: map<Key, CacheEntry>,
                      k: Key, at: nat, found: bool)
    requires Represents(chains, hash, store)
    requires var chain := chains[Bucket(hash, k, |chains|)];
             && at <= |chain| && found == (at < |chain| && chain[at].id.key == k)
             && forall i :: 0 <= i < |chain| && chain[i].id.key == k ==> i == at
    ensures found <==> k in store
    ensures found ==> chains[Bucket(hash, k, |chains|)][at] == store[k]
  {
    var b := Bucket(hash, k, |chains|);
    if found {
      assert Filed(chains, hash, store, b, at);
    }
    if k in store {
      var i :| 0 <= i < |chains[b]| && chains[b][i] == store[k];
    }
  }
}
