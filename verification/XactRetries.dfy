/** When a failed transaction is retried, and that the bound on retries is reached. */
module XactRetries {
  import opened XactForestSpec

  /** Transactions that each failed so that a retry was wanted, each the cause of the one
      before it. */
  ghost predicate Failures(f: Forest, chain: seq<nat>) {
    && (forall i :: 0 <= i < |chain| ==> chain[i] in f && f[chain[i]].retry)
    && (forall i, j :: 0 <= i && j == i + 1 && j < |chain| ==> f[chain[i]].cause == chain[j])
  }

  ghost predicate FailedInARow(f: Forest, x: nat, n: nat) {
    exists chain: seq<nat> :: Failures(f, chain) && |chain| == n && n > 0 && chain[0] == x
  }

  lemma {:induction false} ChainIsCounted(f: Forest, born: nat, chain: seq<nat>)
    requires Linked(f, born) && Failures(f, chain) && chain != []
    ensures |chain| <= RetryRun(f, chain[0])
    decreases |chain|
  {
    if |chain| > 1 {
      var rest := chain[1..];
      assert f[chain[0]].cause == chain[1];
      forall i, j | 0 <= i && j == i + 1 && j < |rest| ensures f[rest[i]].cause == rest[j] {
        assert rest[i] == chain[i + 1] && rest[j] == chain[j + 1];
      }
      ChainIsCounted(f, born, rest);
    }
  }

  lemma {:induction false} CountIsChained(f: Forest, born: nat, x: nat, n: nat) returns (chain: seq<nat>)
    requires Linked(f, born) && x in f && 0 < n <= RetryRun(f, x)
    ensures Failures(f, chain) && |chain| == n && chain[0] == x
    decreases n
  {
    if n == 1 {
      chain := [x];
    } else {
      var rest := CountIsChained(f, born, f[x].cause, n - 1);
      chain := [x] + rest;
      forall i, j | 0 <= i && j == i + 1 && j < |chain| ensures f[chain[i]].cause == chain[j] {
        if i > 0 {
          assert chain[i] == rest[i - 1] && chain[j] == rest[j - 1];
        }
      }
    }
  }

  lemma {:induction false} DoneKeepsRun(c: Client, x: nat, y: int)
    requires x in c.forest
    ensures RetryRun(Done(c, x).forest, y) == RetryRun(c.forest, y)
    decreases y
  {
    if y >= 0 && y in c.forest && c.forest[y].retry && c.forest[y].cause < y {
      DoneKeepsRun(c, x, c.forest[y].cause);
    }
  }

  lemma {:induction false} RecycleBearsNobody(c: Client, x: int)
    ensures Recycle(c, x).born == c.born && Recycle(c, x).idle == c.idle
    decreases |c.forest|
  {
    if x >= 0 && x in c.forest && Over(c.forest[x]) {
      PutShrinks(c, x);
      RecycleBearsNobody(Put(c, x), c.forest[x].cause);
    }
  }

  /** A finished transaction brings forth a retry exactly if it had a connection, the client
      is not idle, a retry is wanted, and fewer than eleven have failed in a row. */
  lemma RetryTheorem(c: Client, x: nat, relaunched: bool)
    requires Inv(c) && Possible(c, Finished(x, relaunched))
    ensures Step(c, Finished(x, relaunched)).born == c.born +
      if c.forest[x].conn && !c.idle && FailedInARow(c.forest, x, 1) && !FailedInARow(c.forest, x, 11) then 1 else 0
  {
    hide Failures, Recycle, RetryRun;
    var d := Done(c, x);
    DoneKeepsRun(c, x, x);
    CountIsLength(c.forest, c.born, x, 1);
    CountIsLength(c.forest, c.born, x, 11);
    RecycleBearsNobody(d, x);
    var g := Generate(d, x, d.forest[x].attempt + 1);
    var r := Recycle(g, x);
    RecycleBearsNobody(g, x);
    RecycleBearsNobody(Done(r, d.born), d.born);
  }

  /** Once idle, always idle, so that nothing is retried any more. */
  lemma IdleStays(c: Client, e: Event)
    requires Inv(c) && Possible(c, e)
    ensures Step(c, e).idle <==> c.idle || e.BecameIdle?
    ensures c.idle && e.Finished? ==> Step(c, e).born == c.born
  {
    hide Inv, Recycle, ShouldRetry;
    match e
    case Generated(_) =>
    case Launched(_) =>
    case RetryWanted(_) =>
    case Finished(x, relaunched) =>
      var d := Done(c, x);
      RecycleBearsNobody(d, x);
      var g := Generate(d, x, d.forest[x].attempt + 1);
      var r := Recycle(g, x);
      RecycleBearsNobody(g, x);
      RecycleBearsNobody(Done(r, d.born), d.born);
      RetryTheorem(c, x, relaunched);
    case Canceled(x) => RecycleBearsNobody(Done(c, x), x);
    case BecameIdle =>
  }

  lemma CountIsLength(f: Forest, born: nat, x: nat, n: nat)
    requires Linked(f, born) && x in f && n > 0
    ensures FailedInARow(f, x, n) <==> RetryRun(f, x) >= n
  {
    hide Failures, RetryRun;
    if RetryRun(f, x) >= n {
      var chain := CountIsChained(f, born, x, n);
    }
    if chain: seq<nat> :| Failures(f, chain) && |chain| == n && chain[0] == x {
      ChainIsCounted(f, born, chain);
    }
  }

  // ----- the bound is reached -----

  /** In line: the first `k` have failed and been retried, and `k` is the latest retry. */
  function Failed(i: nat): Node { Node(i - 1, 1, true, true, true, i + 1) }

  function Latest(i: nat): Node { Node(i - 1, 0, false, false, false, i + 1) }

  function Line(k: nat): Forest {
    if k == 0 then map[0 := Latest(0)] else Line(k - 1)[k - 1 := Failed(k - 1)][k := Latest(k)]
  }

  lemma {:induction false} LineIs(k: nat)
    ensures forall i: nat :: i in Line(k) <==> i <= k
    ensures forall i: nat :: i < k ==> Line(k)[i] == Failed(i)
    ensures Line(k)[k] == Latest(k)
  {
    hide Failed, Latest;
    if k > 0 {
      LineIs(k - 1);
    }
  }

  function Tried(k: nat): Client { Client(Line(k), {}, {}, k + 1, false) }

  /** The latest retry gets a connection, fails, and is retried. */
  function Try(k: nat): seq<Event> { [Launched(k)] + ([RetryWanted(k)] + ([Finished(k, true)] + [])) }

  function Tries(k: nat): seq<Event> {
    if k == 0 then [] else Tries(k - 1) + Try(k - 1)
  }

  lemma {:induction false} RunOfLine(f: Forest, k: nat)
    requires forall i: nat :: i <= k ==> i in f && f[i].retry && f[i].cause == i - 1
    ensures RetryRun(f, k) == k + 1
  {
    if k > 0 {
      RunOfLine(f, k - 1);
    }
  }

  lemma Launches(k: nat)
    ensures var c := Tried(k);
      Possible(c, Launched(k))
      && Step(c, Launched(k)) == c.(forest := c.forest[k := Latest(k).(conn := true)])
  {
    hide Line;
    LineIs(k);
  }

  lemma Wants(k: nat)
    ensures var c := Tried(k);
      var d := c.(forest := c.forest[k := Latest(k).(conn := true)]);
      Possible(d, RetryWanted(k))
      && Step(d, RetryWanted(k)) == c.(forest := c.forest[k := Latest(k).(conn := true, retry := true)])
  {
    hide Line;
    LineIs(k);
    var f: Forest := Tried(k).forest;
    assert f[k := Latest(k).(conn := true)][k := Latest(k).(conn := true, retry := true)]
        == f[k := Latest(k).(conn := true, retry := true)];
  }

  lemma Fails(k: nat)
    requires k < MAX_RETRIES
    ensures var c := Tried(k);
      var e := c.(forest := c.forest[k := Latest(k).(conn := true, retry := true)]);
      Possible(e, Finished(k, true)) && Step(e, Finished(k, true)) == Tried(k + 1)
  {
    hide Line, RetryRun;
    LineIs(k);
    LineIs(k + 1);
    var c := Tried(k);
    var e := c.(forest := c.forest[k := Latest(k).(conn := true, retry := true)]);
    var d := Done(e, k);
    RunOfLine(d.forest, k);
    var g := Generate(d, k, k + 2);
    assert g.forest == Line(k + 1);
    assert !Over(g.forest[k]);
  }

  lemma TriesOnce(k: nat)
    requires k < MAX_RETRIES
    ensures Run(Tried(k), Try(k)) == Tried(k + 1)
  {
    hide Line, Latest, Step, Possible, Run;
    var c := Tried(k);
    var d := c.(forest := c.forest[k := Latest(k).(conn := true)]);
    var e := c.(forest := c.forest[k := Latest(k).(conn := true, retry := true)]);
    Launches(k);
    Wants(k);
    Fails(k);
    RunStep(c, Launched(k), [RetryWanted(k)] + ([Finished(k, true)] + []));
    RunStep(d, RetryWanted(k), [Finished(k, true)] + []);
    RunStep(e, Finished(k, true), []);
    RunNothing(Tried(k + 1));
  }

  lemma RunNothing(c: Client)
    ensures Run(c, []) == c
  {}

  lemma RunStep(c: Client, e: Event, es: seq<Event>)
    requires Possible(c, e)
    ensures Run(c, [e] + es) == Run(Step(c, e), es)
  {
    hide Step, Possible;
    assert ([e] + es)[1..] == es;
  }

  lemma {:induction false} RunJoins(c: Client, a: seq<Event>, b: seq<Event>)
    requires Goes(c, a)
    ensures Run(c, a + b) == Run(Run(c, a), b)
    decreases |a|
  {
    hide Step, Possible;
    if a == [] {
      assert [] + b == b;
    } else {
      assert (a + b)[0] == a[0] && (a + b)[1..] == a[1..] + b;
      RunJoins(Step(c, a[0]), a[1..], b);
    }
  }

  /** No event of the run is impossible. */
  predicate Goes(c: Client, es: seq<Event>)
    decreases |es|
  {
    es == [] || (Possible(c, es[0]) && Goes(Step(c, es[0]), es[1..]))
  }

  /** The bound is reached: one transaction and ten retries of it, each the cause of the
      next, are in use together. */
  lemma ElevenInLine()
    ensures var c := Run(NewClient(), [Generated(-1)] + Tries(10));
      c == Tried(10) && RetryChain(c.forest, [10, 9, 8, 7, 6, 5, 4, 3, 2, 1, 0])
  {
    hide Run, Tries, Line;
    FirstInLine();
    TriesAll(10);
    RunStep(NewClient(), Generated(-1), Tries(10));
    LineIs(10);
  }

  lemma FirstInLine()
    ensures Possible(NewClient(), Generated(-1)) && Step(NewClient(), Generated(-1)) == Tried(0)
  {
    var f: Forest := map[];
    assert Line(0) == f[0 := Latest(0)];
  }

  lemma {:induction false} TriesAll(k: nat)
    requires k <= MAX_RETRIES
    ensures Goes(Tried(0), Tries(k)) && Run(Tried(0), Tries(k)) == Tried(k)
  {
    hide Run, Goes, Tried, Try;
    if k == 0 {
      RunNothing(Tried(0));
      NothingGoes(Tried(0));
    } else {
      TriesAll(k - 1);
      TriesOnce(k - 1);
      RunJoins(Tried(0), Tries(k - 1), Try(k - 1));
      TryGoes(k - 1);
      GoesJoins(Tried(0), Tries(k - 1), Try(k - 1));
    }
  }

  lemma NothingGoes(c: Client)
    ensures Goes(c, [])
  {}

  lemma TryGoes(k: nat)
    requires k < MAX_RETRIES
    ensures Goes(Tried(k), Try(k))
  {
    hide Line, Latest, Step, Possible, Goes;
    var c := Tried(k);
    var d := c.(forest := c.forest[k := Latest(k).(conn := true)]);
    var e := c.(forest := c.forest[k := Latest(k).(conn := true, retry := true)]);
    Launches(k);
    Wants(k);
    Fails(k);
    NothingGoes(Tried(k + 1));
    GoesStep(e, Finished(k, true), []);
    GoesStep(d, RetryWanted(k), [Finished(k, true)] + []);
    GoesStep(c, Launched(k), [RetryWanted(k)] + ([Finished(k, true)] + []));
  }

  lemma GoesStep(c: Client, e: Event, es: seq<Event>)
    requires Possible(c, e) && Goes(Step(c, e), es)
    ensures Goes(c, [e] + es)
  {
    hide Step, Possible;
    assert ([e] + es)[1..] == es;
  }

  lemma {:induction false} GoesJoins(c: Client, a: seq<Event>, b: seq<Event>)
    requires Goes(c, a) && Goes(Run(c, a), b)
    ensures Goes(c, a + b)
    decreases |a|
  {
    hide Step, Possible;
    if a == [] {
      assert [] + b == b;
    } else {
      assert (a + b)[0] == a[0] && (a + b)[1..] == a[1..] + b;
      GoesJoins(Step(c, a[0]), a[1..], b);
    }
  }
}
