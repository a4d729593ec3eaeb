/** The client and its transactions, updated in place; the cause tree they form is the one
    of the specification. */
module XactForests {
  import S = XactForestSpec

  class CltXact {
    ghost const rank: nat
    ghost const attempt: nat
    var theCause: CltXact?
    var theChildCount: int
    var isDone: bool
    var doRetry: bool
    var theConn: bool

    constructor (ghost rank: nat, ghost attempt: nat, cause: CltXact?)
      ensures theCause == cause && theChildCount == 0 && !isDone && !doRetry && !theConn
      ensures this.rank == rank && this.attempt == attempt
    {
      this.rank, this.attempt := rank, attempt;
      theCause, theChildCount := cause, 0;
      isDone, doRetry, theConn := false, false, false;
    }

    ghost function Value(): S.Node
      reads this
    {
      S.Node(RankOf(theCause), theChildCount, isDone, doRetry, theConn, attempt)
    }
  }

  ghost function RankOf(x: CltXact?): int {
    if x == null then -1 else x.rank
  }

  class Client {
    var isIdle: bool
    /** All transactions ever made, and the numbers of those in use. */
    ghost var xacts: seq<CltXact>
    ghost var live: set<nat>
    ghost var stuck: set<nat>
    ghost var gone: set<nat>

    ghost predicate Registered(x: CltXact?)
      reads this
    {
      x == null || (x.rank in live && x.rank < |xacts| && xacts[x.rank] == x)
    }

    ghost predicate Valid()
      reads this, xacts
    {
      && (forall r :: 0 <= r < |xacts| ==> xacts[r].rank == r)
      && (forall r :: r in live ==> r < |xacts| && Registered(xacts[r].theCause))
    }

    ghost function Forest(): (f: S.Forest)
      requires Valid()
      reads this, xacts
      ensures f.Keys == live
      ensures forall r :: r in live ==> f[r] == xacts[r].Value()
    {
      map r | r in live :: xacts[r].Value()
    }

    ghost function State(): S.Client
      requires Valid()
      reads this, xacts
    {
      S.Client(Forest(), stuck, gone, |xacts|, isIdle)
    }

    constructor ()
      ensures Valid() && fresh(this) && State() == S.NewClient() && xacts == []
    {
      isIdle := false;
      xacts, live, stuck, gone := [], {}, {}, {};
    }

    /** `cause` hears of a child that comes or goes. */
    method NoteChild(cause: CltXact?, n: int)
      requires Valid() && Registered(cause)
      modifies if cause == null then {} else {cause}
      ensures Valid() && (cause != null ==> unchanged(cause`theCause, cause`isDone, cause`doRetry, cause`theConn))
      ensures State() == old(State()).(forest := S.AddKid(old(State()).forest, RankOf(cause), n))
    {
      ghost var f := Forest();
      if cause != null {
        cause.theChildCount := cause.theChildCount + n;
        S.AddKidKeys(f, cause.rank, n);
        assert Forest() == S.AddKid(f, cause.rank, n);
      }
    }

    ghost method Register(x: CltXact)
      requires Valid() && x.rank == |xacts| && Registered(x.theCause) && |xacts| !in live
      modifies this`xacts, this`live
      ensures Valid() && xacts == old(xacts) + [x] && live == old(live) + {x.rank}
      ensures State() == old(State()).(forest := old(State()).forest[x.rank := x.Value()], born := old(State()).born + 1)
    {
      hide CltXact.Value;
      ghost var f := Forest();
      live := live + {x.rank};
      xacts := xacts + [x];
      assert Forest() == f[x.rank := x.Value()];
    }

    ghost method Drop(x: CltXact)
      requires Valid() && Registered(x) && forall r :: r in live ==> xacts[r].theCause != x
      modifies this`live, this`gone
      ensures Valid() && live == old(live) - {x.rank}
      ensures State() == old(State()).(forest := old(State()).forest - {x.rank}, gone := old(State()).gone + {x.rank})
    {
      hide CltXact.Value;
      ghost var f := Forest();
      live := live - {x.rank};
      gone := gone + {x.rank};
      assert Forest() == f - {x.rank};
    }

    /** A new transaction, possibly caused by one in use. */
    method GenXact(cause: CltXact?, ghost attempt: nat) returns (x: CltXact)
      requires Valid() && Registered(cause)
      modifies this`xacts, this`live, if cause == null then {} else {cause}
      ensures Valid() && fresh(x) && x.rank == |old(xacts)| && xacts == old(xacts) + [x] && live == old(live) + {x.rank}
      ensures State() == S.Generate(old(State()), RankOf(cause), attempt)
    {
      hide Valid, State, Forest, Registered;
      NotYetLive();
      x := new CltXact(|xacts|, attempt, cause);
      NoteChild(cause, 1);
      Register(x);
    }

    lemma NotYetLive()
      requires Valid()
      ensures |xacts| !in live && State().born == |xacts|
    {}

    /** The transaction goes back to the pool. */
    method PutXact(x: CltXact)
      requires Valid() && Registered(x) && x.theCause != x
      requires forall r :: r in live && r < |xacts| ==> xacts[r].theCause != x
      modifies this`live, this`gone, if x.theCause == null then {} else {x.theCause}
      ensures Valid() && live == old(live) - {x.rank}
      ensures State() == S.Put(old(State()), x.rank)
    {
      var cause := x.theCause;
      NoteChild(cause, -1);
      Drop(x);
    }

    /** Recycles a transaction and those that caused it, as far as none is needed. */
    method RecycleXact(start: CltXact)
      requires Valid() && Registered(start) && S.Base(State())
      requires start.rank !in stuck && S.TidyBut(State().forest, stuck, start.rank)
      modifies this`live, this`gone, xacts
      ensures Valid() && xacts == old(xacts)
      ensures State() == S.Recycle(old(State()), start.rank)
    {
      hide State, Forest, S.Base, S.TidyBut, S.Put;
      AsNode(start);
      var x: CltXact? := start;
      while x != null && x.isDone && x.theChildCount == 0
        invariant Valid() && Registered(x) && S.Base(State()) && xacts == old(xacts)
        invariant S.Recycle(State(), RankOf(x)) == S.Recycle(old(State()), start.rank)
        invariant RankOf(x) >= 0 ==> x.rank !in State().stuck
        invariant S.TidyBut(State().forest, State().stuck, RankOf(x))
        decreases |live|
      {
        ghost var c := State();
        AsNode(x);
        S.PutKeepsBase(c, x.rank);
        S.PutTakes(c, x.rank);
        NobodysCause(x);
        var cause := x.theCause;
        PutXact(x);
        x := cause;
      }
      NotOver(x);
    }

    /** How a transaction in use shows in the forest. */
    lemma AsNode(x: CltXact)
      requires Valid() && Registered(x)
      ensures x.rank in State().forest && State().forest[x.rank] == x.Value()
      ensures Registered(x.theCause) && State().stuck == stuck && State().idle == isIdle && State().born == |xacts|
    {}

    lemma NobodysCause(x: CltXact)
      requires Valid() && Registered(x) && S.Base(State()) && x.isDone && x.theChildCount == 0
      ensures x.theCause != x && forall r :: r in live && r < |xacts| ==> xacts[r].theCause != x
    {
      hide S.Base;
      S.NobodysCause(State(), x.rank);
      forall r | r in live && r < |xacts| ensures xacts[r].theCause != x {
        assert State().forest[r].cause != x.rank;
      }
    }

    lemma NotOver(x: CltXact?)
      requires Valid() && Registered(x) && (x == null || !x.isDone || x.theChildCount != 0)
      ensures S.Recycle(State(), RankOf(x)) == State()
    {}

    lemma InUse(x: CltXact)
      requires Valid() && x.rank < |xacts| && xacts[x.rank] == x && x.rank in State().forest
      ensures Registered(x) && State().forest[x.rank] == x.Value()
    {}

    method LaunchCanceled(x: CltXact)
      requires Valid() && Registered(x) && S.Inv(State()) && !x.isDone
      modifies this`live, this`gone, xacts
      ensures Valid() && xacts == old(xacts)
      ensures State() == S.Cancel(old(State()), x.rank)
    {
      hide State, Forest, S.Base, S.TidyBut, S.Recycle;
      AsNode(x);
      S.DoneKeeps(State(), x.rank);
      NoteAbort(x);
      AsNode(x);
      RecycleXact(x);
    }

    method NoteAbort(x: CltXact)
      requires Valid() && Registered(x)
      modifies x`isDone
      ensures Valid() && State() == S.Done(old(State()), x.rank) && x.isDone
      ensures x.doRetry == old(x.doRetry)
    {
      ghost var f := Forest();
      x.isDone := true;
      assert Forest() == f[x.rank := f[x.rank].(done := true)];
    }

    /** Counts the failures in a row before deciding. */
    method ShouldRetry(start: CltXact) returns (retry: bool)
      requires Valid() && Registered(start) && S.Base(State())
      ensures retry <==> S.ShouldRetry(State(), start.rank)
    {
      hide State, Forest, S.Base, S.RetryRun;
      AsNode(start);
      if isIdle {
        return false;
      }
      ghost var f := State().forest;
      var rcount := 0;
      var x: CltXact? := start;
      while x != null && x.doRetry
        invariant Registered(x) && rcount >= 0
        invariant rcount + S.RetryRun(f, RankOf(x)) == S.RetryRun(f, start.rank)
        decreases RankOf(x)
      {
        AsNode(x);
        S.CauseIsSmaller(State(), x.rank);
        RunStep(f, x.rank);
        rcount := rcount + 1;
        x := x.theCause;
      }
      if x != null {
        AsNode(x);
        RunEnds(f, x.rank);
      } else {
        RunEnds(f, -1);
      }
      retry := if rcount > 10 then false else rcount > 0;
    }

    /** What follows a transaction that is done.  Without a connection, nothing does. */
    method NoteXactDone(x: CltXact, relaunched: bool)
      requires Valid() && Registered(x) && S.Inv(State()) && !x.isDone
      modifies this`xacts, this`live, this`gone, this`stuck, xacts
      ensures Valid()
      ensures State() == S.Finish(old(State()), x.rank, relaunched)
    {
      hide State, Forest, S.Base, S.TidyBut, S.Recycle, S.ShouldRetry, S.Generate, S.Cancel, S.Done;
      AsNode(x);
      S.DoneKeeps(State(), x.rank);
      NoteAbort(x);
      AsNode(x);
      ghost var d := State();
      if !x.theConn {
        Forget(x);
        return;
      }
      var retry := ShouldRetry(x);
      if retry {
        S.RetryKeepsInv(d, x.rank);
        var r := GenXact(x, x.attempt + 1);
        AsNode(x);
        S.TidyAnyway(State(), x.rank);
        RecycleXact(x);
        InUse(r);
        if !relaunched {
          LaunchCanceled(r);
        }
      } else {
        RecycleXact(x);
      }
    }

    /** The early return leaves a childless transaction where nobody will look again. */
    ghost method Forget(x: CltXact)
      requires Valid() && Registered(x)
      modifies this`stuck
      ensures Valid()
      ensures State() == var d := old(State()); if x.theChildCount == 0 then d.(stuck := d.stuck + {x.rank}) else d
    {
      if x.theChildCount == 0 {
        stuck := stuck + {x.rank};
      }
    }
  }

  lemma RunStep(f: S.Forest, x: nat)
    requires x in f && f[x].retry && f[x].cause < x
    ensures S.RetryRun(f, x) == 1 + S.RetryRun(f, f[x].cause)
  {}

  lemma RunEnds(f: S.Forest, x: int)
    requires x < 0 || (x in f && !f[x].retry)
    ensures S.RetryRun(f, x) == 0
  {}
}
