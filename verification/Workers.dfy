/** Waiting for worker processes: once one has stopped, the others are given time, then
    asked to terminate, then killed. */
module Workers {
  datatype WaitingState = Any | Remaining | Termed | Killed

  datatype Signal = Term | Kill

  /** One return of the wait call: a process has stopped, or only a signal has arrived. */
  datatype Wake = Wake(pid: int, normal: bool, alarm: bool)

  /** `pids` holds 0 for a worker that has stopped; `sent` logs the signals, oldest first. */
  datatype Runner = Runner(pids: seq<int>, state: WaitingState, sawError: bool, sent: seq<(int, Signal)>, gaveUp: bool)

  function Rank(s: WaitingState): nat {
    match s case Any => 0 case Remaining => 1 case Termed => 2 case Killed => 3
  }

  function Running(pids: seq<int>): nat {
    if pids == [] then 0 else Running(pids[..|pids| - 1]) + if pids[|pids| - 1] != 0 then 1 else 0
  }

  predicate Distinct(pids: seq<int>) {
    forall i, j :: 0 <= i < j < |pids| && pids[i] != 0 ==> pids[i] != pids[j]
  }

  predicate NonNegative(pids: seq<int>) {
    forall i :: 0 <= i < |pids| ==> pids[i] >= 0
  }

  /** The signal goes to everybody still running, in worker order. */
  function Signals(pids: seq<int>, s: Signal): seq<(int, Signal)> {
    if pids == [] then []
    else Signals(pids[..|pids| - 1], s) + if pids[|pids| - 1] != 0 then [(pids[|pids| - 1], s)] else []
  }

  function Stopped(r: Runner, pid: int, normal: bool): Runner {
    if pid !in r.pids then r
    else
      var i := IndexOf(r.pids, pid);
      var q := r.(pids := r.pids[i := 0], sawError := r.sawError || !normal);
      if Running(q.pids) > 0 && q.state == Any then q.(state := Remaining) else q
  }

  function IndexOf(pids: seq<int>, pid: int): (i: nat)
    requires pid in pids
    ensures i < |pids| && pids[i] == pid && pid !in pids[..i]
  {
    if pids[0] == pid then 0 else 1 + IndexOf(pids[1..], pid)
  }

  function Alarmed(r: Runner): Runner {
    match r.state
    case Any => r
    case Remaining => r.(state := Termed, sent := r.sent + Signals(r.pids, Term))
    case Termed => r.(state := Killed, sent := r.sent + Signals(r.pids, Kill))
    case Killed => r.(gaveUp := true)
  }

  function Step(r: Runner, w: Wake): Runner {
    var q := if w.pid > 0 then Stopped(r, w.pid, w.normal) else r;
    if w.alarm then Alarmed(q) else q
  }

  predicate Over(r: Runner) { r.gaveUp || Running(r.pids) == 0 }

  /** The monitor's loop: wake-ups are handled until no worker runs or patience ends. */
  function Monitored(r: Runner, ws: seq<Wake>): Runner
    decreases |ws|
  {
    if ws == [] || Over(r) then r else Monitored(Step(r, ws[0]), ws[1..])
  }

  // ----- counting -----

  lemma {:induction false} RunningUpdate(pids: seq<int>, i: nat)
    requires i < |pids| && pids[i] != 0
    ensures Running(pids[i := 0]) == Running(pids) - 1
  {
    var n := |pids| - 1;
    if i == n {
      assert pids[i := 0][..n] == pids[..n];
    } else {
      assert pids[i := 0][..n] == pids[..n][i := 0];
      RunningUpdate(pids[..n], i);
    }
  }

  lemma {:induction false} RunningAtMost(pids: seq<int>)
    ensures Running(pids) <= |pids|
  {
    if pids != [] {
      RunningAtMost(pids[..|pids| - 1]);
    }
  }

  // ----- progress -----

  /** A wake-up that counts: a worker of ours has stopped, or an alarm went off while one
      was set. */
  predicate Useful(r: Runner, w: Wake) {
    (w.pid > 0 && w.pid in r.pids) || (w.alarm && r.state != Any)
  }

  function Patience(r: Runner): int {
    Running(r.pids) + (3 - Rank(r.state)) + if r.gaveUp then 0 else 1
  }

  /** Every useful wake-up uses up patience and no wake-up gives any back; the state never
      goes back. */
  lemma StepProgress(r: Runner, w: Wake)
    requires !r.gaveUp
    ensures var q := Step(r, w);
      && Rank(r.state) <= Rank(q.state) && Patience(q) <= Patience(r)
      && (Useful(r, w) ==> Patience(q) < Patience(r))
  {
    if w.pid > 0 && w.pid in r.pids {
      RunningUpdate(r.pids, IndexOf(r.pids, w.pid));
    }
  }

  function UsefulWakes(r: Runner, ws: seq<Wake>): nat
    decreases |ws|
  {
    if ws == [] || Over(r) then 0
    else (if Useful(r, ws[0]) then 1 else 0) + UsefulWakes(Step(r, ws[0]), ws[1..])
  }

  lemma {:induction false} PatienceRunsOut(r: Runner, ws: seq<Wake>)
    ensures UsefulWakes(r, ws) <= Patience(r)
    ensures UsefulWakes(r, ws) == Patience(r) ==> Over(Monitored(r, ws))
    decreases |ws|
  {
    hide Running, Step, Useful;
    if ws != [] && !Over(r) {
      StepProgress(r, ws[0]);
      PatienceRunsOut(Step(r, ws[0]), ws[1..]);
    } else if !Over(r) {
      assert Patience(r) > 0;
    }
  }

  /** With `n` workers, at most `n + 4` wake-ups count: every exit, three escalations, and
      the alarm that ends it. */
  lemma MonitorIsBounded(pids: seq<int>, ws: seq<Wake>)
    ensures var r := Runner(pids, Any, false, [], false);
      UsefulWakes(r, ws) <= |pids| + 4 && (UsefulWakes(r, ws) == |pids| + 4 ==> Over(Monitored(r, ws)))
  {
    RunningAtMost(pids);
    PatienceRunsOut(Runner(pids, Any, false, [], false), ws);
  }

  // ----- signals -----

  predicate Sent(sent: seq<(int, Signal)>, pid: int, s: Signal) { (pid, s) in sent }

  lemma {:induction false} SignalsReach(pids: seq<int>, s: Signal, pid: int, t: Signal)
    ensures (pid, t) in Signals(pids, s) <==> t == s && pid != 0 && pid in pids
  {
    if pids != [] {
      var n := |pids| - 1;
      SignalsReach(pids[..n], s, pid, t);
      assert pids == pids[..n] + [pids[n]];
    }
  }

  /** Between wake-ups: workers still running have been sent exactly the signals the state
      calls for, and nobody was killed without having been asked to terminate. */
  ghost predicate Fair(r: Runner) {
    && Distinct(r.pids) && NonNegative(r.pids)
    && (forall p :: p in r.pids && p != 0 ==>
      (Sent(r.sent, p, Term) <==> Rank(r.state) >= 2) && (Sent(r.sent, p, Kill) <==> Rank(r.state) >= 3))
    && (forall p :: Sent(r.sent, p, Kill) ==> Sent(r.sent, p, Term))
  }

  lemma StoppedIsFair(r: Runner, pid: int, normal: bool)
    requires Fair(r) && pid > 0
    ensures Fair(Stopped(r, pid, normal)) && Stopped(r, pid, normal).sent == r.sent
    ensures pid !in Stopped(r, pid, normal).pids
  {
    hide Running;
    if pid in r.pids {
      var i := IndexOf(r.pids, pid);
      var q := r.pids[i := 0];
      forall p | p in q && p != 0 ensures p in r.pids {
        var j :| 0 <= j < |q| && q[j] == p;
        assert r.pids[j] == p;
      }
      if pid in q {
        assert false;
      }
    }
  }

  /** New signals go to everybody running. */
  lemma AlarmedSends(r: Runner, p: int, s: Signal)
    ensures Sent(Alarmed(r).sent, p, s) <==>
      Sent(r.sent, p, s)
      || (p != 0 && p in r.pids && ((r.state == Remaining && s == Term) || (r.state == Termed && s == Kill)))
  {
    SignalsReach(r.pids, Term, p, s);
    SignalsReach(r.pids, Kill, p, s);
  }

  lemma AlarmedIsFair(r: Runner)
    requires Fair(r)
    ensures var q := Alarmed(r);
      Fair(q) && forall p, s :: Sent(q.sent, p, s) && !Sent(r.sent, p, s) ==> p in r.pids && p != 0
  {
    hide Sent, Signals, Running, Distinct, NonNegative;
    var q := Alarmed(r);
    forall p, s
      ensures Sent(q.sent, p, s) <==>
        Sent(r.sent, p, s)
        || (p != 0 && p in r.pids && ((r.state == Remaining && s == Term) || (r.state == Termed && s == Kill)))
    {
      AlarmedSends(r, p, s);
    }
  }

  /** One wake-up: new signals go only to workers that run, after the exit is noted. */
  lemma SignalTheorem(r: Runner, w: Wake)
    requires Fair(r)
    ensures var q := Step(r, w);
      && Fair(q)
      && (w.pid > 0 ==> w.pid !in q.pids)
      && forall p, s :: Sent(q.sent, p, s) && !Sent(r.sent, p, s) ==>
        p in r.pids && p != 0 && (w.pid > 0 ==> p != w.pid)
  {
    hide Fair, Running, Sent, Stopped, Alarmed;
    var q := if w.pid > 0 then Stopped(r, w.pid, w.normal) else r;
    if w.pid > 0 {
      StoppedIsFair(r, w.pid, w.normal);
      StoppedKeeps(r, w.pid, w.normal);
    }
    if w.alarm {
      AlarmedIsFair(q);
      AlarmedPids(q);
    }
  }

  lemma AlarmedPids(r: Runner)
    ensures Alarmed(r).pids == r.pids
  {}

  lemma StoppedKeeps(r: Runner, pid: int, normal: bool)
    ensures forall p :: p in Stopped(r, pid, normal).pids && p != 0 ==> p in r.pids
  {
    hide Running;
    var q := Stopped(r, pid, normal).pids;
    forall p | p in q && p != 0 ensures p in r.pids {
      var j :| 0 <= j < |q| && q[j] == p;
      assert r.pids[j] == p;
    }
  }

  /** The monitor reports that workers were killed once it has escalated. */
  predicate SaysKilled(r: Runner) { Rank(r.state) >= 2 }

  /** The last wake-up that a run handles, and the state in which it comes. */
  datatype Last = NoWake | LastWake(r: Runner, w: Wake)

  function LastHandled(r: Runner, ws: seq<Wake>): Last
    decreases |ws|
  {
    if ws == [] || Over(r) then NoWake
    else
      var rest := LastHandled(Step(r, ws[0]), ws[1..]);
      if rest == NoWake then LastWake(r, ws[0]) else rest
  }

  /** The wake-up brings both the exit of the only worker left and the first alarm that
      escalates. */
  predicate ExitAndFirstAlarm(l: Last) {
    l.LastWake? && l.r.state == Remaining && l.w.alarm && Running(l.r.pids) > 0 && Running(Step(l.r, l.w).pids) == 0
  }

  /** Before the escalation nothing has been sent; after it, something has if anybody runs. */
  predicate Quiet(r: Runner) {
    && (!SaysKilled(r) ==> r.sent == [])
    && (SaysKilled(r) && r.sent == [] ==> Running(r.pids) == 0)
  }

  lemma {:induction false} SignalsToSome(pids: seq<int>, s: Signal)
    ensures Signals(pids, s) == [] <==> Running(pids) == 0
  {
    if pids != [] {
      SignalsToSome(pids[..|pids| - 1], s);
    }
  }

  lemma StepStaysQuiet(r: Runner, w: Wake)
    requires Quiet(r) && !Over(r)
    ensures Quiet(Step(r, w))
    ensures var q := Step(r, w);
      SaysKilled(q) && q.sent == [] && !q.gaveUp <==> ExitAndFirstAlarm(LastWake(r, w))
  {
    hide Running, Signals;
    var q := if w.pid > 0 then Stopped(r, w.pid, w.normal) else r;
    SignalsToSome(q.pids, Term);
    SignalsToSome(q.pids, Kill);
    StoppedSends(r, w.pid, w.normal);
    NobodyAdded(q.sent, Signals(q.pids, Term));
    NobodyAdded(q.sent, Signals(q.pids, Kill));
  }

  lemma StoppedSends(r: Runner, pid: int, normal: bool)
    ensures var q := Stopped(r, pid, normal);
      q.sent == r.sent && q.gaveUp == r.gaveUp
      && (q.state == r.state || (r.state == Any && q.state == Remaining && Running(q.pids) > 0))
  {
    hide Running;
  }

  lemma NobodyAdded(a: seq<(int, Signal)>, b: seq<(int, Signal)>)
    ensures a + b == [] <==> a == [] && b == []
  {}

  /** The closing report that workers were killed, when none was sent a signal: exactly if
      the last wake-up brought the last exit and the first alarm together. */
  lemma {:induction false} ReportTheorem(r: Runner, ws: seq<Wake>)
    requires Quiet(r) && !(SaysKilled(r) && r.sent == [])
    ensures var q := Monitored(r, ws);
      Over(q) && !q.gaveUp && SaysKilled(q) && q.sent == [] <==> ExitAndFirstAlarm(LastHandled(r, ws))
    decreases |ws|
  {
    hide Running, Step, ExitAndFirstAlarm, Quiet;
    NoWakeIsNone();
    if ws != [] && !Over(r) {
      StepStaysQuiet(r, ws[0]);
      var q := Step(r, ws[0]);
      if SaysKilled(q) && q.sent == [] {
        QuietIsOver(q);
      } else {
        ReportTheorem(q, ws[1..]);
      }
    }
  }

  lemma NoWakeIsNone()
    ensures !ExitAndFirstAlarm(NoWake)
  {}

  lemma QuietIsOver(q: Runner)
    requires Quiet(q) && SaysKilled(q) && q.sent == []
    ensures Over(q)
  {}

  /** From the start of any set of workers. */
  lemma ClosingReport(pids: seq<int>, ws: seq<Wake>)
    ensures var r := Runner(pids, Any, false, [], false);
      var q := Monitored(r, ws);
      Over(q) && !q.gaveUp && SaysKilled(q) && q.sent == [] <==> ExitAndFirstAlarm(LastHandled(r, ws))
  {
    ReportTheorem(Runner(pids, Any, false, [], false), ws);
  }

  /** It happens: two workers stop by themselves, the second with the alarm. */
  lemma KilledNobodyHappens()
    ensures var ws := [Wake(7, true, false), Wake(8, true, true)];
      var q := Monitored(Runner([7, 8], Any, false, [], false), ws);
      Over(q) && !q.gaveUp && SaysKilled(q) && q.sent == []
  {
    var r, ws := Runner([7, 8], Any, false, [], false), [Wake(7, true, false), Wake(8, true, true)];
    TwoRun(7, 8);
    TwoRun(0, 8);
    TwoRun(0, 0);
    assert IndexOf([7, 8], 7) == 0 && [7, 8][0 := 0] == [0, 8];
    var q := Step(r, ws[0]);
    assert q == Runner([0, 8], Remaining, false, [], false);
    assert 8 in [0, 8] && IndexOf([0, 8], 8) == 1 && [0, 8][1 := 0] == [0, 0];
    assert Stopped(q, 8, true) == Runner([0, 0], Remaining, false, [], false);
    SignalsToSome([0, 0], Term);
    assert Step(q, ws[1]) == Runner([0, 0], Termed, false, [], false);
    assert ws[1..][0] == ws[1] && Monitored(q, ws[1..]) == Monitored(Step(q, ws[1]), ws[1..][1..]);
  }

  lemma TwoRun(a: int, b: int)
    ensures Running([a, b]) == (if a != 0 then 1 else 0) + if b != 0 then 1 else 0
  {
    assert [a, b][..1] == [a] && [a][..0] == [];
    assert Running([]) == 0 && Running([a]) == Running([]) + if a != 0 then 1 else 0;
  }

  // ----- the object -----

  class WorkersRunner {
    var pids: seq<int>
    var workerCount: int
    var waitingState: WaitingState
    var sawError: bool
    ghost var sent: seq<(int, Signal)>
    ghost var gaveUp: bool

    /** The counter agrees with the table. */
    ghost predicate Valid()
      reads this
    {
      workerCount == Running(pids)
    }

    ghost function State(): Runner
      reads this
    {
      Runner(pids, waitingState, sawError, sent, gaveUp)
    }

    /** Every fork gave a process of its own. */
    constructor (started: seq<int>)
      requires forall i :: 0 <= i < |started| ==> started[i] > 0
      requires Distinct(started)
      ensures Valid() && State() == Runner(started, Any, false, [], false) && Fair(State())
    {
      pids, workerCount, waitingState, sawError := started, |started|, Any, false;
      sent, gaveUp := [], false;
      new;
      AllRun(started);
    }

    method HandleStoppedWorker(pid: int, normal: bool)
      requires Valid() && pid > 0 && !gaveUp
      modifies this
      ensures Valid() && State() == Stopped(old(State()), pid, normal) && !gaveUp
    {
      var idx := 0;
      while idx < |pids| && pids[idx] != pid
        invariant 0 <= idx <= |pids| && pid !in pids[..idx]
      {
        idx := idx + 1;
      }
      if idx == |pids| {
        assert pids[..idx] == pids;
        return;
      }
      FirstIndex(pids, pid, idx);
      RunningUpdate(pids, idx);
      if !normal {
        sawError := true;
      }
      pids := pids[idx := 0];
      workerCount := workerCount - 1;
      if workerCount > 0 && waitingState == Any {
        waitingState := Remaining;
      }
    }

    /** Sends the signal to every worker that has not stopped. */
    method SignalAll(s: Signal)
      modifies this`sent
      ensures sent == old(sent) + Signals(pids, s)
    {
      var i := 0;
      while i < |pids|
        invariant 0 <= i <= |pids| && sent == old(sent) + Signals(pids[..i], s)
      {
        assert pids[..i + 1][..i] == pids[..i];
        if pids[i] != 0 {
          sent := sent + [(pids[i], s)];
        }
        i := i + 1;
      }
      assert pids[..i] == pids;
    }

    /** False where the source gives up. */
    method HandleAlarm() returns (ok: bool)
      requires Valid() && !gaveUp
      modifies this
      ensures Valid() && State() == Alarmed(old(State())) && ok == !gaveUp
    {
      ok := true;
      match waitingState
      case Any =>
      case Remaining =>
        SignalAll(Term);
        waitingState := Termed;
      case Termed =>
        SignalAll(Kill);
        waitingState := Killed;
      case Killed =>
        gaveUp := true;
        ok := false;
    }

    /** Handles wake-ups until no worker is left or the killed ones refuse to go. */
    method Monitor(ws: seq<Wake>)
      requires Valid() && !gaveUp && Fair(State())
      modifies this
      ensures Valid() && Fair(State()) && State() == Monitored(old(State()), ws)
    {
      hide Fair, Stopped, Alarmed, Running;
      var i := 0;
      assert ws[0..] == ws;
      while i < |ws| && workerCount > 0
        invariant 0 <= i <= |ws| && Valid() && Fair(State()) && !gaveUp
        invariant Monitored(State(), ws[i..]) == Monitored(old(State()), ws)
      {
        assert ws[i..][0] == ws[i] && ws[i..][1..] == ws[i + 1..];
        SignalTheorem(State(), ws[i]);
        if ws[i].pid > 0 {
          HandleStoppedWorker(ws[i].pid, ws[i].normal);
        }
        if ws[i].alarm {
          var ok := HandleAlarm();
          if !ok {
            return;
          }
        }
        i := i + 1;
      }
    }
  }

  lemma {:induction false} AllRun(pids: seq<int>)
    requires forall i :: 0 <= i < |pids| ==> pids[i] > 0
    ensures Running(pids) == |pids|
  {
    if pids != [] {
      AllRun(pids[..|pids| - 1]);
    }
  }

  lemma {:induction false} FirstIndex(pids: seq<int>, pid: int, i: nat)
    requires i < |pids| && pids[i] == pid && pid !in pids[..i]
    ensures pid in pids && IndexOf(pids, pid) == i
  {
    if i > 0 {
      assert pids[..i][0] == pids[0];
      assert pids[1..][..i - 1] == pids[..i][1..];
      FirstIndex(pids[1..], pid, i - 1);
    }
  }
}
