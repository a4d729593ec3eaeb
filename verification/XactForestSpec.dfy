/** The client's cause tree as a value: transactions that caused others are kept until all
    of those are gone, and a failed transaction is retried a bounded number of times. */
module XactForestSpec {
  const MAX_RETRIES: nat := 10

  /** A transaction, known by the number it was generated under.  `cause` is -1 when nothing
      caused it; `attempt` counts the retries it stems from, itself included. */
  datatype Node = Node(cause: int, kids: int, done: bool, retry: bool, conn: bool, attempt: nat)

  type Forest = map<nat, Node>

  /** `stuck` holds the transactions nobody will ever recycle, `gone` the recycled ones. */
  datatype Client = Client(forest: Forest, stuck: set<nat>, gone: set<nat>, born: nat, idle: bool)

  function NewClient(): Client { Client(map[], {}, {}, 0, false) }

  predicate Over(n: Node) { n.done && n.kids == 0 }

  function Children(f: Forest, r: int): set<nat> {
    set s | s in f && f[s].cause == r
  }

  // ----- what holds between events -----

  /** Causes are older, and in use as long as their children are. */
  predicate Linked(f: Forest, born: nat) {
    forall r :: r in f ==> r < born && (f[r].cause == -1 || (0 <= f[r].cause < r && f[r].cause in f))
  }

  predicate Counted(f: Forest) {
    forall r :: r in f ==> f[r].kids == |Children(f, r)|
  }

  predicate Attempted(f: Forest, r: nat)
    requires r in f
  {
    && 1 <= f[r].attempt <= MAX_RETRIES + 1
    && (f[r].attempt > 1 ==>
      f[r].cause in f && f[r].cause >= 0 && f[f[r].cause].retry && f[f[r].cause].done
      && f[f[r].cause].attempt == f[r].attempt - 1)
  }

  predicate Bounded(f: Forest) {
    forall r :: r in f ==> Attempted(f, r)
  }

  /** Nothing in use is over, but for `x` and the stuck ones. */
  predicate TidyBut(f: Forest, stuck: set<nat>, x: int) {
    forall r :: r in f && r != x && Over(f[r]) ==> r in stuck
  }

  predicate StuckAreOver(f: Forest, stuck: set<nat>) {
    forall r :: r in stuck ==> r in f && Over(f[r]) && !f[r].conn
  }

  /** Every transaction ever generated is either in use or recycled, never both. */
  ghost predicate Accounted(f: Forest, gone: set<nat>, born: nat) {
    && (forall r: nat :: r < born <==> r in f || r in gone)
    && (forall r :: r in f ==> r !in gone)
  }

  ghost predicate Base(c: Client) {
    && Linked(c.forest, c.born) && Counted(c.forest) && Bounded(c.forest)
    && StuckAreOver(c.forest, c.stuck) && Accounted(c.forest, c.gone, c.born)
  }

  ghost predicate Inv(c: Client) {
    Base(c) && TidyBut(c.forest, c.stuck, -1)
  }

  // ----- the operations -----

  function AddKid(f: Forest, r: int, n: int): Forest {
    if r >= 0 && r in f then f[r := f[r].(kids := f[r].kids + n)] else f
  }

  function Generate(c: Client, cause: int, attempt: nat): Client {
    c.(forest := AddKid(c.forest, cause, 1)[c.born := Node(cause, 0, false, false, false, attempt)], born := c.born + 1)
  }

  function Put(c: Client, x: nat): Client
    requires x in c.forest
  {
    c.(forest := AddKid(c.forest, c.forest[x].cause, -1) - {x}, gone := c.gone + {x})
  }

  /** Recycles `x` and those that caused it, stopping at one unfinished or with children. */
  function Recycle(c: Client, x: int): Client
    decreases |c.forest|
  {
    if x >= 0 && x in c.forest && Over(c.forest[x]) then
      PutShrinks(c, x);
      Recycle(Put(c, x), c.forest[x].cause)
    else c
  }

  lemma PutShrinks(c: Client, x: nat)
    requires x in c.forest
    ensures |Put(c, x).forest| < |c.forest|
  {
    var f := AddKid(c.forest, c.forest[x].cause, -1);
    assert f.Keys == c.forest.Keys;
    assert (f - {x}).Keys == c.forest.Keys - {x};
  }

  // ----- what they keep -----

  lemma AddKidKeys(f: Forest, r: int, n: int)
    ensures AddKid(f, r, n).Keys == f.Keys
    ensures forall s :: s in f ==> AddKid(f, r, n)[s] == if s == r then f[s].(kids := f[s].kids + n) else f[s]
  {}

  lemma {:induction false} GenerateCounts(c: Client, cause: int, attempt: nat)
    requires Linked(c.forest, c.born) && Counted(c.forest) && (cause == -1 || (cause >= 0 && cause in c.forest))
    ensures Counted(Generate(c, cause, attempt).forest)
  {
    var f, g := c.forest, Generate(c, cause, attempt).forest;
    AddKidKeys(f, cause, 1);
    forall r | r in g ensures g[r].kids == |Children(g, r)| {
      if r == c.born {
        assert Children(g, r) == {};
      } else {
        ChildrenAfterBirth(c, cause, attempt, r);
      }
    }
  }

  lemma ChildrenAfterBirth(c: Client, cause: int, attempt: nat, r: nat)
    requires Linked(c.forest, c.born) && r in c.forest
    ensures Children(Generate(c, cause, attempt).forest, r) == Children(c.forest, r) + if r == cause then {c.born} else {}
    ensures c.born !in Children(c.forest, r)
  {
    AddKidKeys(c.forest, cause, 1);
  }

  lemma {:induction false} PutCounts(c: Client, x: nat)
    requires Linked(c.forest, c.born) && Counted(c.forest) && x in c.forest
    ensures Counted(Put(c, x).forest)
  {
    var f, g := c.forest, Put(c, x).forest;
    AddKidKeys(f, f[x].cause, -1);
    forall r | r in g ensures g[r].kids == |Children(g, r)| {
      ChildrenAfterPut(c, x, r);
    }
  }

  lemma ChildrenAfterPut(c: Client, x: nat, r: nat)
    requires x in c.forest && r in c.forest && r != x
    ensures Children(Put(c, x).forest, r) == Children(c.forest, r) - {x}
    ensures x in Children(c.forest, r) <==> c.forest[x].cause == r
  {
    AddKidKeys(c.forest, c.forest[x].cause, -1);
  }

  lemma CauseHasKids(f: Forest, born: nat, x: nat)
    requires Linked(f, born) && Counted(f) && x in f && f[x].cause >= 0
    ensures f[x].cause in f && f[f[x].cause].kids >= 1
  {
    assert x in Children(f, f[x].cause);
  }

  lemma GenerateKeepsBase(c: Client, cause: int, attempt: nat)
    requires Base(c) && 1 <= attempt <= MAX_RETRIES + 1
    requires cause == -1 || (cause >= 0 && cause in c.forest && cause !in c.stuck)
    requires attempt > 1 ==> cause >= 0 && c.forest[cause].done && c.forest[cause].retry && c.forest[cause].attempt == attempt - 1
    ensures Base(Generate(c, cause, attempt))
  {
    hide Counted;
    GenerateCounts(c, cause, attempt);
    AddKidKeys(c.forest, cause, 1);
    assert c.born !in c.forest;
    NoNegativeKids(c, cause);
  }

  lemma NoNegativeKids(c: Client, cause: int)
    requires Counted(c.forest)
    ensures cause >= 0 && cause in c.forest ==> c.forest[cause].kids >= 0
  {}

  /** The new transaction is not over, nor is its cause any more. */
  lemma GenerateKeepsTidy(c: Client, cause: int, attempt: nat, x: int)
    requires Base(c) && TidyBut(c.forest, c.stuck, x)
    ensures TidyBut(Generate(c, cause, attempt).forest, c.stuck, if x == cause then -1 else x)
  {
    hide Base;
    assert Counted(c.forest) by { BaseCounts(c); }
    NoNegativeKids(c, cause);
    AddKidKeys(c.forest, cause, 1);
  }

  lemma BaseCounts(c: Client)
    requires Base(c)
    ensures Counted(c.forest)
  {}

  lemma PutKeepsBase(c: Client, x: nat)
    requires Base(c) && x in c.forest && x !in c.stuck && Over(c.forest[x])
    ensures Base(Put(c, x))
    ensures TidyBut(c.forest, c.stuck, x) ==> TidyBut(Put(c, x).forest, c.stuck, c.forest[x].cause)
    ensures c.forest[x].cause >= 0 ==> c.forest[x].cause in Put(c, x).forest && c.forest[x].cause !in c.stuck
  {
    hide Counted, Children;
    PutCounts(c, x);
    AddKidKeys(c.forest, c.forest[x].cause, -1);
    NobodysCause(c, x);
    if c.forest[x].cause >= 0 {
      CauseHasKids(c.forest, c.born, x);
    }
  }

  lemma NobodysCause(c: Client, x: nat)
    requires Base(c) && x in c.forest && Over(c.forest[x])
    ensures forall r :: r in c.forest ==> c.forest[r].cause != x
  {
    forall r | r in c.forest ensures c.forest[r].cause != x {
      if c.forest[r].cause == x {
        CauseHasKids(c.forest, c.born, r);
      }
    }
  }

  // ----- recycling -----

  /** Afterwards nothing in use is over, and only transactions that were over are gone. */
  lemma {:induction false} RecycleTheorem(c: Client, x: int)
    requires Base(c) && TidyBut(c.forest, c.stuck, x) && (x >= 0 ==> x in c.forest && x !in c.stuck)
    requires x >= -1
    ensures var d := Recycle(c, x);
      && Inv(d) && d.stuck == c.stuck && d.born == c.born && d.idle == c.idle
      && d.forest.Keys <= c.forest.Keys && c.gone <= d.gone
    ensures x >= 0 ==> (x in Recycle(c, x).forest <==> !Over(c.forest[x]))
    ensures OnlyTakesDone(c, Recycle(c, x))
    ensures KeepsFlags(c, Recycle(c, x))
    decreases |c.forest|
  {
    hide Base, TidyBut, Put, Counted, Linked, Bounded, Accounted;
    if x >= 0 && Over(c.forest[x]) {
      PutKeepsBase(c, x);
      PutShrinks(c, x);
      PutTakes(c, x);
      PutTakesDone(c, x);
      CauseIsSmaller(c, x);
      RecycleTheorem(Put(c, x), c.forest[x].cause);
    } else {
      TidyAnyway(c, x);
    }
  }

  /** Whoever leaves the forest was finished and goes among the recycled. */
  predicate OnlyTakesDone(c: Client, d: Client) {
    forall r :: r in c.forest && r !in d.forest ==> c.forest[r].done && r in d.gone
  }

  /** Whoever stays keeps what it was. */
  predicate KeepsFlags(c: Client, d: Client) {
    forall r :: r in c.forest && r in d.forest ==> d.forest[r] == c.forest[r].(kids := d.forest[r].kids)
  }

  lemma PutTakesDone(c: Client, x: nat)
    requires x in c.forest && c.forest[x].done
    ensures OnlyTakesDone(c, Put(c, x)) && KeepsFlags(c, Put(c, x))
  {
    AddKidKeys(c.forest, c.forest[x].cause, -1);
  }

  lemma CauseIsSmaller(c: Client, x: nat)
    requires Base(c) && x in c.forest
    ensures -1 <= c.forest[x].cause < x
  {}

  lemma PutTakes(c: Client, x: nat)
    requires x in c.forest
    ensures var d := Put(c, x);
      d.forest.Keys == c.forest.Keys - {x} && d.gone == c.gone + {x} && d.stuck == c.stuck && d.born == c.born && d.idle == c.idle
  {
    AddKidKeys(c.forest, c.forest[x].cause, -1);
  }

  lemma TidyAnyway(c: Client, x: int)
    ensures TidyBut(c.forest, c.stuck, x) && (x < 0 || !(x in c.forest && Over(c.forest[x]))) ==>
      TidyBut(c.forest, c.stuck, -1)
    ensures TidyBut(c.forest, c.stuck, -1) ==> TidyBut(c.forest, c.stuck, x)
  {}

  // ----- retries -----

  /** Consecutive transactions that want a retry, from `x` up its causes. */
  function RetryRun(f: Forest, x: int): nat
    decreases x
  {
    if x >= 0 && x in f && f[x].retry then 1 + (if f[x].cause < x then RetryRun(f, f[x].cause) else 0) else 0
  }

  predicate ShouldRetry(c: Client, x: nat) {
    !c.idle && 0 < RetryRun(c.forest, x) <= MAX_RETRIES
  }

  /** The run counts at least the retries a transaction stems from. */
  lemma {:induction false} RunCountsAttempts(f: Forest, born: nat, x: nat)
    requires Linked(f, born) && Bounded(f) && x in f && f[x].retry
    ensures RetryRun(f, x) >= f[x].attempt
    decreases x
  {
    assert Attempted(f, x);
    if f[x].attempt > 1 {
      RunCountsAttempts(f, born, f[x].cause);
    }
  }

  // ----- events -----

  datatype Event =
    | Generated(cause: int)
    | Launched(x: nat)
    | RetryWanted(x: nat)
    | Finished(x: nat, relaunched: bool)
    | Canceled(x: nat)
    | BecameIdle

  /** Events happen to unfinished transactions in use. */
  predicate Possible(c: Client, e: Event) {
    match e
    case Generated(cause) => cause == -1 || (cause >= 0 && cause in c.forest && !c.forest[cause].done)
    case Launched(x) => x in c.forest && !c.forest[x].done
    case RetryWanted(x) => x in c.forest && !c.forest[x].done
    case Finished(x, _) => x in c.forest && !c.forest[x].done
    case Canceled(x) => x in c.forest && !c.forest[x].done
    case BecameIdle => true
  }

  function Done(c: Client, x: nat): Client {
    if x in c.forest then c.(forest := c.forest[x := c.forest[x].(done := true)]) else c
  }

  function Cancel(c: Client, x: nat): Client {
    Recycle(Done(c, x), x)
  }

  /** A transaction that finishes without a connection is forgotten on the spot. */
  function Finish(c: Client, x: nat, relaunched: bool): Client
    requires x in c.forest
  {
    var d := Done(c, x);
    if !d.forest[x].conn then
      if d.forest[x].kids == 0 then d.(stuck := d.stuck + {x}) else d
    else if ShouldRetry(d, x) then
      var r := Recycle(Generate(d, x, d.forest[x].attempt + 1), x);
      if relaunched then r else Cancel(r, d.born)
    else Recycle(d, x)
  }

  function Step(c: Client, e: Event): Client
    requires Possible(c, e)
  {
    match e
    case Generated(cause) => Generate(c, cause, 1)
    case Launched(x) => c.(forest := c.forest[x := c.forest[x].(conn := true)])
    case RetryWanted(x) => c.(forest := c.forest[x := c.forest[x].(retry := true)])
    case Finished(x, relaunched) => Finish(c, x, relaunched)
    case Canceled(x) => Cancel(c, x)
    case BecameIdle => c.(idle := true)
  }

  /** Flags of an unfinished transaction may be raised. */
  lemma RaiseKeepsBase(c: Client, x: nat, n: Node)
    requires Base(c) && x in c.forest && !c.forest[x].done
    requires n == c.forest[x].(done := n.done, retry := n.retry, conn := n.conn) && (c.forest[x].retry ==> n.retry)
    ensures Base(c.(forest := c.forest[x := n]))
  {
    var f, g := c.forest, c.forest[x := n];
    forall r | r in g ensures g[r].kids == |Children(g, r)| {
      assert Children(g, r) == Children(f, r);
    }
    forall r | r in g ensures Attempted(g, r) {
      assert Attempted(f, r);
    }
    assert x !in c.stuck;
  }

  lemma RaiseKeepsTidy(c: Client, x: nat, n: Node)
    requires Inv(c) && x in c.forest
    ensures TidyBut(c.forest[x := n], c.stuck, x)
    ensures !n.done ==> TidyBut(c.forest[x := n], c.stuck, -1)
  {
    hide Base;
  }

  lemma DoneKeeps(c: Client, x: nat)
    requires Inv(c) && x in c.forest && !c.forest[x].done
    ensures Base(Done(c, x)) && TidyBut(Done(c, x).forest, c.stuck, x) && x !in c.stuck
  {
    hide TidyBut;
    var n := c.forest[x].(done := true);
    RaiseKeepsBase(c, x, n);
    RaiseKeepsTidy(c, x, n);
  }

  lemma CancelKeepsInv(c: Client, x: nat)
    requires Inv(c) && x in c.forest && !c.forest[x].done
    ensures Inv(Cancel(c, x)) && Cancel(c, x).stuck == c.stuck && c.gone <= Cancel(c, x).gone
  {
    hide Base, TidyBut, Recycle;
    DoneKeeps(c, x);
    RecycleTheorem(Done(c, x), x);
  }

  /** Retrying: the new transaction keeps `x` from being recycled. */
  lemma RetryKeepsInv(d: Client, x: nat)
    requires Base(d) && TidyBut(d.forest, d.stuck, x) && x in d.forest && x !in d.stuck && d.forest[x].done
    requires ShouldRetry(d, x)
    ensures d.forest[x].attempt <= MAX_RETRIES
    ensures var g := Generate(d, x, d.forest[x].attempt + 1);
      && Inv(g) && Recycle(g, x) == g
      && d.born in g.forest && !g.forest[d.born].done && g.forest[d.born].attempt == d.forest[x].attempt + 1
      && g.stuck == d.stuck && g.gone == d.gone
  {
    hide Base, TidyBut, Recycle, Generate, ShouldRetry;
    RetryIsShort(d, x);
    GenerateKeepsBase(d, x, d.forest[x].attempt + 1);
    GenerateKeepsTidy(d, x, d.forest[x].attempt + 1, x);
    GenerateHolds(d, x);
  }

  lemma RetryIsShort(d: Client, x: nat)
    requires Base(d) && x in d.forest && ShouldRetry(d, x)
    ensures d.forest[x].retry && 1 <= d.forest[x].attempt <= MAX_RETRIES
  {
    hide Counted, StuckAreOver, Accounted;
    assert Attempted(d.forest, x);
    RunCountsAttempts(d.forest, d.born, x);
  }

  lemma GenerateHolds(d: Client, x: nat)
    requires Base(d) && x in d.forest
    ensures var g := Generate(d, x, d.forest[x].attempt + 1);
      && x in g.forest && !Over(g.forest[x]) && Recycle(g, x) == g
      && d.born in g.forest && !g.forest[d.born].done && g.forest[d.born].attempt == d.forest[x].attempt + 1
      && g.stuck == d.stuck && g.gone == d.gone
  {
    AddKidKeys(d.forest, x, 1);
    NoNegativeKids(d, x);
    assert d.born !in d.forest;
  }

  // ----- who is finished, and who is recycled -----

  /** The transaction has finished: it is recycled, or in use and done. */
  predicate Settled(c: Client, r: nat) {
    r in c.gone || (r in c.forest && c.forest[r].done)
  }

  /** The event ends the transaction: it finishes or cancels it, or it is the retry that
      the event generates and cancels at once. */
  predicate EndsBy(c: Client, e: Event, r: nat)
    requires Possible(c, e)
  {
    || ((e.Finished? || e.Canceled?) && r == e.x)
    || (e.Finished? && !e.relaunched && r == c.born && c.forest[e.x].conn && ShouldRetry(Done(c, e.x), e.x))
  }

  lemma DoneSettles(c: Client, x: nat, r: nat)
    requires x in c.forest
    ensures Settled(Done(c, x), r) <==> Settled(c, r) || r == x
  {}

  lemma GenerateSettlesNobody(c: Client, cause: int, attempt: nat, r: nat)
    requires Base(c)
    ensures Settled(Generate(c, cause, attempt), r) <==> Settled(c, r)
    ensures !Settled(c, c.born)
  {
    hide Linked, Counted, Bounded, StuckAreOver;
    AddKidKeys(c.forest, cause, 1);
    assert c.born !in c.forest;
  }

  /** Recycling finishes nobody: only the finished are recycled, and all of them stay so. */
  lemma RecycleSettlesNobody(c: Client, x: int, r: nat)
    requires Base(c) && TidyBut(c.forest, c.stuck, x) && (x >= 0 ==> x in c.forest && x !in c.stuck)
    requires x >= -1
    ensures Settled(Recycle(c, x), r) <==> Settled(c, r)
  {
    hide TidyBut, Linked, Counted, Bounded, StuckAreOver, Recycle;
    RecycleTheorem(c, x);
  }

  lemma CancelSettles(c: Client, x: nat, r: nat)
    requires Inv(c) && x in c.forest && !c.forest[x].done
    ensures Settled(Cancel(c, x), r) <==> Settled(c, r) || r == x
  {
    hide Base, TidyBut, Recycle, Done, Settled;
    DoneKeeps(c, x);
    DoneSettles(c, x, r);
    DoneIs(c, x);
    RecycleSettlesNobody(Done(c, x), x, r);
  }

  lemma DoneIs(c: Client, x: nat)
    requires x in c.forest
    ensures var d := Done(c, x);
      x in d.forest && d.forest[x] == c.forest[x].(done := true) && d.stuck == c.stuck && d.born == c.born && d.gone == c.gone
  {}

  lemma FinishSettles(c: Client, x: nat, relaunched: bool, r: nat)
    requires Inv(c) && x in c.forest && !c.forest[x].done
    ensures Settled(Finish(c, x, relaunched), r) <==> Settled(c, r) || EndsBy(c, Finished(x, relaunched), r)
  {
    hide Base, TidyBut, Recycle, ShouldRetry, Generate, Cancel, Done, Settled;
    DoneKeeps(c, x);
    DoneSettles(c, x, r);
    DoneIs(c, x);
    var d := Done(c, x);
    if !d.forest[x].conn {
      StuckSettlesNobody(d, x, r);
    } else if ShouldRetry(d, x) {
      var g := Generate(d, x, d.forest[x].attempt + 1);
      RetryKeepsInv(d, x);
      GenerateSettlesNobody(d, x, d.forest[x].attempt + 1, r);
      if !relaunched {
        CancelSettles(g, d.born, r);
      }
    } else {
      RecycleSettlesNobody(d, x, r);
    }
  }

  lemma StuckSettlesNobody(d: Client, x: nat, r: nat)
    ensures Settled(d.(stuck := d.stuck + {x}), r) <==> Settled(d, r)
  {}

  /** What one event does to the stuck: it adds the transaction that finishes without a
      connection and without children, and nothing else. */
  predicate Strands(c: Client, e: Event)
    requires Possible(c, e)
  {
    e.Finished? && !c.forest[e.x].conn && c.forest[e.x].kids == 0
  }

  lemma FinishKeepsInv(c: Client, x: nat, relaunched: bool)
    requires Inv(c) && x in c.forest && !c.forest[x].done
    ensures var d := Finish(c, x, relaunched);
      Inv(d) && c.gone <= d.gone
      && d.stuck == c.stuck + if !c.forest[x].conn && c.forest[x].kids == 0 then {x} else {}
  {
    hide Base, TidyBut, Recycle, ShouldRetry, Generate, Cancel;
    DoneKeeps(c, x);
    var d := Done(c, x);
    if !d.forest[x].conn {
      Forgotten(d, x);
    } else if ShouldRetry(d, x) {
      RetryKeepsInv(d, x);
      if !relaunched {
        CancelKeepsInv(Generate(d, x, d.forest[x].attempt + 1), d.born);
      }
    } else {
      RecycleTheorem(d, x);
    }
  }

  lemma Forgotten(d: Client, x: nat)
    requires Base(d) && TidyBut(d.forest, d.stuck, x) && x in d.forest && d.forest[x].done && !d.forest[x].conn
    ensures Inv(if d.forest[x].kids == 0 then d.(stuck := d.stuck + {x}) else d)
  {}

  lemma StepTheorem(c: Client, e: Event)
    requires Inv(c) && Possible(c, e)
    ensures var d := Step(c, e);
      Inv(d) && c.gone <= d.gone && d.stuck == c.stuck + if Strands(c, e) then {e.x} else {}
    ensures forall r: nat :: Settled(Step(c, e), r) <==> Settled(c, r) || EndsBy(c, e, r)
    ensures forall r :: r in c.forest && r !in Step(c, e).forest ==>
      c.forest[r].done || ((e.Finished? || e.Canceled?) && r == e.x)
  {
    StepKeepsInv(c, e);
    hide Inv, Step, Settled, EndsBy;
    forall r: nat ensures Settled(Step(c, e), r) <==> Settled(c, r) || EndsBy(c, e, r) {
      StepSettles(c, e, r);
    }
    forall r | r in c.forest && r !in Step(c, e).forest
      ensures c.forest[r].done || ((e.Finished? || e.Canceled?) && r == e.x)
    {
      LeavesWhenSettled(c, e, r);
    }
  }

  lemma LeavesWhenSettled(c: Client, e: Event, r: nat)
    requires Inv(c) && Possible(c, e) && Inv(Step(c, e)) && r in c.forest && r !in Step(c, e).forest
    requires Settled(Step(c, e), r) <==> Settled(c, r) || EndsBy(c, e, r)
    ensures c.forest[r].done || ((e.Finished? || e.Canceled?) && r == e.x)
  {
    hide Linked, Counted, Bounded, StuckAreOver, TidyBut, Recycle, Finish, Cancel, Generate, ShouldRetry;
    assert r < c.born;
    BornGrows(c, e);
  }

  lemma BornGrows(c: Client, e: Event)
    requires Inv(c) && Possible(c, e)
    ensures c.born <= Step(c, e).born
  {
    hide Base, TidyBut, Recycle, ShouldRetry, Cancel;
    match e
    case Finished(x, relaunched) => FinishIsLater(c, x, relaunched);
    case Canceled(x) => CancelIsLater(c, x);
    case _ =>
  }

  lemma CancelIsLater(c: Client, x: nat)
    requires Inv(c) && x in c.forest && !c.forest[x].done
    ensures Cancel(c, x).born == c.born
  {
    hide Base, TidyBut, Recycle, Done;
    DoneKeeps(c, x);
    DoneIs(c, x);
    RecycleTheorem(Done(c, x), x);
  }

  lemma FinishIsLater(c: Client, x: nat, relaunched: bool)
    requires Inv(c) && x in c.forest && !c.forest[x].done
    ensures c.born <= Finish(c, x, relaunched).born
  {
    hide Base, TidyBut, Recycle, ShouldRetry, Cancel, Done;
    DoneKeeps(c, x);
    DoneIs(c, x);
    var d := Done(c, x);
    if d.forest[x].conn {
      if ShouldRetry(d, x) {
        RetryKeepsInv(d, x);
        if !relaunched {
          CancelIsLater(Generate(d, x, d.forest[x].attempt + 1), d.born);
        }
      } else {
        RecycleTheorem(d, x);
      }
    }
  }

  /** A transaction has finished after the event if it had before, or if the event ended it. */
  lemma StepSettles(c: Client, e: Event, r: nat)
    requires Inv(c) && Possible(c, e)
    ensures Settled(Step(c, e), r) <==> Settled(c, r) || EndsBy(c, e, r)
  {
    hide Base, TidyBut, Recycle, Finish, Cancel, Generate, ShouldRetry;
    match e
    case Generated(cause) => GenerateSettlesNobody(c, cause, 1, r);
    case Finished(x, relaunched) => FinishSettles(c, x, relaunched, r);
    case Canceled(x) => CancelSettles(c, x, r);
    case _ =>
  }

  lemma StepKeepsInv(c: Client, e: Event)
    requires Inv(c) && Possible(c, e)
    ensures var d := Step(c, e);
      Inv(d) && c.gone <= d.gone && d.stuck == c.stuck + if Strands(c, e) then {e.x} else {}
  {
    hide Base, TidyBut, Recycle, Finish, Cancel, Generate;
    match e
    case Generated(cause) =>
      UnfinishedIsNotStuck(c, cause);
      GenerateKeepsBase(c, cause, 1);
      GenerateKeepsTidy(c, cause, 1, -1);
      GenerateLeaves(c, cause);
    case Launched(x) => RaiseKeepsInv(c, x, c.forest[x].(conn := true));
    case RetryWanted(x) => RaiseKeepsInv(c, x, c.forest[x].(retry := true));
    case Finished(x, relaunched) => FinishKeepsInv(c, x, relaunched);
    case Canceled(x) => CancelKeepsInv(c, x);
    case BecameIdle => IdleKeepsInv(c);
  }

  lemma RaiseKeepsInv(c: Client, x: nat, n: Node)
    requires Inv(c) && x in c.forest && !c.forest[x].done && !n.done
    requires n == c.forest[x].(retry := n.retry, conn := n.conn) && (c.forest[x].retry ==> n.retry)
    ensures Inv(c.(forest := c.forest[x := n]))
  {
    hide Base, TidyBut;
    RaiseKeepsBase(c, x, n);
    RaiseKeepsTidy(c, x, n);
  }

  lemma UnfinishedIsNotStuck(c: Client, x: int)
    requires Base(c) && (x == -1 || (x >= 0 && x in c.forest && !c.forest[x].done))
    ensures x >= 0 ==> x !in c.stuck
  {}

  lemma GenerateLeaves(c: Client, cause: int)
    ensures var d := Generate(c, cause, 1);
      d.stuck == c.stuck && d.gone == c.gone
  {}

  lemma IdleKeepsInv(c: Client)
    requires Inv(c)
    ensures Inv(c.(idle := true))
  {}

  // ----- runs -----

  function Run(c: Client, es: seq<Event>): Client
    decreases |es|
  {
    if es == [] || !Possible(c, es[0]) then c else Run(Step(c, es[0]), es[1..])
  }

  /** The run forgets a transaction without a connection somewhere. */
  predicate StrandsSomewhere(c: Client, es: seq<Event>)
    decreases |es|
  {
    es != [] && Possible(c, es[0]) && (Strands(c, es[0]) || StrandsSomewhere(Step(c, es[0]), es[1..]))
  }

  /** Some event of the run ends the transaction. */
  predicate EndsDuring(c: Client, es: seq<Event>, r: nat)
    decreases |es|
  {
    es != [] && Possible(c, es[0]) && (EndsBy(c, es[0], r) || EndsDuring(Step(c, es[0]), es[1..], r))
  }

  lemma {:induction false} RunTheorem(c: Client, es: seq<Event>)
    requires Inv(c)
    ensures Inv(Run(c, es)) && c.gone <= Run(c, es).gone && c.stuck <= Run(c, es).stuck
    ensures Run(c, es).stuck == c.stuck ==> !StrandsSomewhere(c, es)
    ensures !StrandsSomewhere(c, es) ==> Run(c, es).stuck == c.stuck
    ensures forall r: nat :: Settled(Run(c, es), r) <==> Settled(c, r) || EndsDuring(c, es, r)
    decreases |es|
  {
    hide Inv, Step, Possible, Settled, EndsBy;
    if es != [] && Possible(c, es[0]) {
      StepTheorem(c, es[0]);
      RunTheorem(Step(c, es[0]), es[1..]);
      if Strands(c, es[0]) {
        StrandedIsNew(c, es[0]);
      }
    }
  }

  lemma StrandedIsNew(c: Client, e: Event)
    requires Inv(c) && Possible(c, e) && Strands(c, e)
    ensures e.x !in c.stuck
  {}

  // ----- when all is finished -----

  predicate AllDone(f: Forest) { forall r :: r in f ==> f[r].done }

  /** Above a transaction in use there is one without children. */
  lemma {:induction false} SomeLeaf(f: Forest, born: nat, r: nat)
    requires Linked(f, born) && Counted(f) && r in f
    ensures exists s :: s in f && f[s].kids == 0
    decreases born - r
  {
    if Children(f, r) == {} {
      assert f[r].kids == 0;
    } else {
      var s :| s in Children(f, r);
      SomeLeaf(f, born, s);
    }
  }

  /** When all transactions in use are finished, none is left in use, exactly if none is stuck. */
  lemma AllDoneTheorem(c: Client)
    requires Inv(c) && AllDone(c.forest)
    ensures c.forest == map[] <==> c.stuck == {}
  {
    if c.forest != map[] {
      var r :| r in c.forest;
      SomeLeaf(c.forest, c.born, r);
      var s :| s in c.forest && c.forest[s].kids == 0;
      assert s in c.stuck;
    }
  }

  lemma NewClientIsInv()
    ensures Inv(NewClient())
  {}

  /** From the start, for every run: whoever is recycled was ended by an event of the run,
      and nobody still in use was caused by somebody recycled. */
  lemma RecycledTheorem(es: seq<Event>)
    ensures var c := Run(NewClient(), es);
      && (forall r :: r in c.gone ==> EndsDuring(NewClient(), es, r))
      && (forall s :: s in c.forest ==> c.forest[s].cause < 0 || (c.forest[s].cause in c.forest && c.forest[s].cause !in c.gone))
  {
    hide Run, EndsDuring, Counted, Bounded, StuckAreOver, TidyBut;
    NewClientIsInv();
    RunTheorem(NewClient(), es);
    var c := Run(NewClient(), es);
    forall r | r in c.gone ensures EndsDuring(NewClient(), es, r) {
      assert Settled(c, r) && !Settled(NewClient(), r);
    }
  }

  /** From the start, for every run: if all are finished, all are recycled exactly when no
      transaction finished without a connection while it had no children in use. */
  lemma AllRecycledTheorem(es: seq<Event>)
    requires AllDone(Run(NewClient(), es).forest)
    ensures Run(NewClient(), es).forest == map[] <==> !StrandsSomewhere(NewClient(), es)
  {
    hide Inv, Run, StrandsSomewhere;
    NewClientIsInv();
    RunTheorem(NewClient(), es);
    AllDoneTheorem(Run(NewClient(), es));
  }

  /** It does happen: a transaction that times out before it got a connection stays for ever. */
  lemma TimedOutStays()
    ensures var es := [Generated(-1), Finished(0, false)];
      var c := Run(NewClient(), es);
      StrandsSomewhere(NewClient(), es) && AllDone(c.forest) && 0 in c.forest && c.stuck == {0}
  {
    var es := [Generated(-1), Finished(0, false)];
    var c := Step(NewClient(), es[0]);
    assert c.forest == map[0 := Node(-1, 0, false, false, false, 1)];
    assert es[1..][0] == es[1] && es[1..][1..] == [];
    assert Possible(c, es[1]) && Strands(c, es[1]);
    var d := Step(c, es[1]);
    assert d.forest == map[0 := Node(-1, 0, true, false, false, 1)] && d.stuck == {0};
    assert Run(d, []) == d;
  }

  /** The transactions a retry stems from, itself first. */
  ghost predicate RetryChain(f: Forest, chain: seq<nat>) {
    && (forall i :: 0 <= i < |chain| ==> chain[i] in f)
    && (forall i, j :: 0 <= i && j == i + 1 && j < |chain| ==>
      f[chain[i]].cause == chain[j] && f[chain[i]].attempt == f[chain[j]].attempt + 1)
  }

  /** No chain of retries in any reachable client is longer than eleven transactions. */
  lemma {:induction false} RetryChainTheorem(c: Client, chain: seq<nat>)
    requires Inv(c) && RetryChain(c.forest, chain)
    ensures |chain| <= MAX_RETRIES + 1
  {
    if chain != [] {
      ChainAttempts(c.forest, chain);
      assert Attempted(c.forest, chain[0]) && Attempted(c.forest, chain[|chain| - 1]);
    }
  }

  lemma {:induction false} ChainAttempts(f: Forest, chain: seq<nat>)
    requires RetryChain(f, chain) && chain != []
    ensures f[chain[0]].attempt == f[chain[|chain| - 1]].attempt + |chain| - 1
  {
    if |chain| > 1 {
      var rest := chain[1..];
      assert rest[|rest| - 1] == chain[|chain| - 1];
      forall i, j | 0 <= i && j == i + 1 && j < |rest|
        ensures f[rest[i]].cause == rest[j] && f[rest[i]].attempt == f[rest[j]].attempt + 1
      {
        assert rest[i] == chain[i + 1] && rest[j] == chain[j + 1];
      }
      ChainAttempts(f, rest);
      assert f[chain[0]].attempt == f[chain[1]].attempt + 1;
    }
  }
}
