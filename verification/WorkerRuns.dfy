/** Where the wait for the workers stands after any wake-ups, told from the wake-ups alone. */
module WorkerRuns {
  import opened Workers

  /** The wake-up reports the exit of a worker that had not been reported before. */
  ghost predicate OwnExit(pids: seq<int>, ws: seq<Wake>, i: int) {
    && 0 <= i < |ws| && ws[i].pid > 0 && ws[i].pid in pids
    && forall j :: 0 <= j < i ==> ws[j].pid != ws[i].pid
  }

  ghost predicate SomeExit(pids: seq<int>, ws: seq<Wake>) {
    exists i :: OwnExit(pids, ws, i)
  }

  ghost predicate SomeFailure(pids: seq<int>, ws: seq<Wake>) {
    exists i :: OwnExit(pids, ws, i) && !ws[i].normal
  }

  /** The alarms that come with or after the first exit. */
  ghost function Alarms(pids: seq<int>, ws: seq<Wake>): nat {
    if ws == [] then 0
    else Alarms(pids, ws[..|ws| - 1]) + if ws[|ws| - 1].alarm && SomeExit(pids, ws) then 1 else 0
  }

  /** The exit of the worker that `pid` stands for was reported. */
  ghost predicate Reported(ws: seq<Wake>, pid: int) {
    exists i :: 0 <= i < |ws| && ws[i].pid == pid
  }

  /** What is left in the table: 0 in the place of every worker that was reported. */
  ghost predicate LeftOver(pids: seq<int>, ws: seq<Wake>, left: seq<int>) {
    && |left| == |pids|
    && forall k :: 0 <= k < |pids| ==>
      left[k] == if Reported(ws, pids[k]) then 0 else pids[k]
  }

  /** Every wake-up finds the monitor still waiting. */
  ghost predicate AllHandled(pids: seq<int>, ws: seq<Wake>) {
    forall k :: 0 <= k < |ws| ==> !Over(Monitored(Started(pids), ws[..k]))
  }

  function Started(pids: seq<int>): Runner { Runner(pids, Any, false, [], false) }

  predicate Workforce(pids: seq<int>) {
    Distinct(pids) && forall i :: 0 <= i < |pids| ==> pids[i] > 0
  }

  /** How far the escalation has come: nowhere before the first exit, then one step further
      with every alarm; a fourth step does not exist. */
  ghost predicate Escalated(pids: seq<int>, ws: seq<Wake>, q: Runner) {
    && (Running(q.pids) > 0 ==>
      Rank(q.state) == if !SomeExit(pids, ws) then 0 else if Alarms(pids, ws) >= 2 then 3 else 1 + Alarms(pids, ws))
    && (q.gaveUp <==> Alarms(pids, ws) >= 3)
  }

  lemma {:induction false} MonitoredSnoc(r: Runner, ws: seq<Wake>, w: Wake)
    ensures var q := Monitored(r, ws);
      Monitored(r, ws + [w]) == if Over(q) then q else Step(q, w)
    decreases |ws|
  {
    hide Step, Over;
    if ws == [] {
      assert ([] + [w])[1..] == [];
    } else if !Over(r) {
      assert (ws + [w])[0] == ws[0] && (ws + [w])[1..] == ws[1..] + [w];
      MonitoredSnoc(Step(r, ws[0]), ws[1..], w);
    }
  }

  lemma ExitSnoc(pids: seq<int>, ws: seq<Wake>, w: Wake, i: int)
    ensures i < |ws| ==> (OwnExit(pids, ws + [w], i) <==> OwnExit(pids, ws, i))
    ensures OwnExit(pids, ws + [w], |ws|) <==>
      w.pid > 0 && w.pid in pids && forall j :: 0 <= j < |ws| ==> ws[j].pid != w.pid
  {
    var vs := ws + [w];
    assert forall j :: 0 <= j < |ws| ==> vs[j] == ws[j];
    assert vs[|ws|] == w;
  }

  ghost predicate New(pids: seq<int>, ws: seq<Wake>, w: Wake) {
    w.pid > 0 && w.pid in pids && forall j :: 0 <= j < |ws| ==> ws[j].pid != w.pid
  }

  lemma ExitsSnoc(pids: seq<int>, ws: seq<Wake>, w: Wake)
    ensures SomeExit(pids, ws + [w]) <==> SomeExit(pids, ws) || New(pids, ws, w)
    ensures SomeFailure(pids, ws + [w]) <==> SomeFailure(pids, ws) || (New(pids, ws, w) && !w.normal)
  {
    hide OwnExit;
    var vs := ws + [w];
    forall i ensures i < |ws| ==> (OwnExit(pids, vs, i) <==> OwnExit(pids, ws, i)) {
      ExitSnoc(pids, ws, w, i);
    }
    ExitSnoc(pids, ws, w, |ws|);
    assert forall j :: 0 <= j < |ws| ==> vs[j] == ws[j];
    InBounds(pids, ws);
    InBounds(pids, vs);
    if New(pids, ws, w) {
      assert OwnExit(pids, vs, |ws|);
    }
    if i :| OwnExit(pids, ws, i) {
      assert OwnExit(pids, vs, i);
    }
  }

  lemma InBounds(pids: seq<int>, ws: seq<Wake>)
    ensures forall i :: OwnExit(pids, ws, i) ==> 0 <= i < |ws|
  {}

  lemma {:induction false} AlarmsNeedExit(pids: seq<int>, ws: seq<Wake>)
    ensures Alarms(pids, ws) > 0 ==> SomeExit(pids, ws)
  {
    hide SomeExit;
    if ws != [] {
      var n := |ws| - 1;
      AlarmsNeedExit(pids, ws[..n]);
      assert ws == ws[..n] + [ws[n]];
      ExitsSnoc(pids, ws[..n], ws[n]);
    }
  }

  /** The table tells who is new. */
  lemma TableTells(pids: seq<int>, ws: seq<Wake>, left: seq<int>, w: Wake)
    requires LeftOver(pids, ws, left) && w.pid > 0
    ensures w.pid in left <==> New(pids, ws, w)
  {
    if w.pid in left {
      var k :| 0 <= k < |left| && left[k] == w.pid;
      assert pids[k] == w.pid;
    }
    if New(pids, ws, w) {
      var k :| 0 <= k < |pids| && pids[k] == w.pid;
      assert left[k] == w.pid;
    }
  }

  lemma ReportedSnoc(ws: seq<Wake>, w: Wake, pid: int)
    ensures Reported(ws + [w], pid) <==> Reported(ws, pid) || w.pid == pid
  {
    var vs := ws + [w];
    assert vs[|ws|] == w && forall j :: 0 <= j < |ws| ==> vs[j] == ws[j];
    if i :| 0 <= i < |ws| && ws[i].pid == pid {
      assert vs[i].pid == pid;
    }
  }

  lemma TableShrinks(pids: seq<int>, ws: seq<Wake>, w: Wake, r: Runner)
    requires Workforce(pids) && LeftOver(pids, ws, r.pids)
    ensures LeftOver(pids, ws + [w], Step(r, w).pids)
  {
    hide Running, Reported;
    StepTable(r, w);
    LeftIsDistinct(pids, ws, r.pids);
    forall k | 0 <= k < |pids|
      ensures Step(r, w).pids[k] == if Reported(ws + [w], pids[k]) then 0 else pids[k]
    {
      ReportedSnoc(ws, w, pids[k]);
    }
  }

  lemma StepTable(r: Runner, w: Wake)
    ensures |Step(r, w).pids| == |r.pids|
    ensures w.pid > 0 && Distinct(r.pids) ==>
      forall k :: 0 <= k < |r.pids| ==> Step(r, w).pids[k] == if r.pids[k] == w.pid then 0 else r.pids[k]
    ensures w.pid <= 0 ==> Step(r, w).pids == r.pids
  {
    hide Running;
  }

  lemma LeftIsDistinct(pids: seq<int>, ws: seq<Wake>, left: seq<int>)
    requires Workforce(pids) && LeftOver(pids, ws, left)
    ensures Distinct(left)
  {
    hide Reported;
  }

  /** One more wake-up takes the description along. */
  lemma EscalatesOnce(pids: seq<int>, ws: seq<Wake>, w: Wake, r: Runner)
    requires Escalated(pids, ws, r) && !Over(r)
    requires w.pid > 0 ==> (w.pid in r.pids <==> New(pids, ws, w))
    ensures Escalated(pids, ws + [w], Step(r, w))
  {
    hide SomeExit, New, Running, Alarms;
    ExitsSnoc(pids, ws, w);
    AlarmsNeedExit(pids, ws);
    AlarmsSnoc(pids, ws, w);
    NewIsPositive(pids, ws, w);
  }

  lemma NewIsPositive(pids: seq<int>, ws: seq<Wake>, w: Wake)
    ensures New(pids, ws, w) ==> w.pid > 0
  {}

  lemma AlarmsSnoc(pids: seq<int>, ws: seq<Wake>, w: Wake)
    ensures Alarms(pids, ws + [w]) == Alarms(pids, ws) + if w.alarm && SomeExit(pids, ws + [w]) then 1 else 0
  {
    hide SomeExit;
    assert (ws + [w])[..|ws|] == ws;
  }

  lemma ErrorSeen(pids: seq<int>, ws: seq<Wake>, w: Wake, r: Runner)
    requires r.sawError <==> SomeFailure(pids, ws)
    requires w.pid > 0 ==> (w.pid in r.pids <==> New(pids, ws, w))
    ensures Step(r, w).sawError <==> SomeFailure(pids, ws + [w])
  {
    hide SomeFailure, New, Running;
    ExitsSnoc(pids, ws, w);
    NewIsPositive(pids, ws, w);
  }

  /** After any wake-ups, from the start of any workers: who is left in the table, whether
      an error is reported, how far the escalation has come and whether it was given up. */
  lemma {:induction false} EscalationTheorem(pids: seq<int>, ws: seq<Wake>)
    requires Workforce(pids) && AllHandled(pids, ws)
    ensures var q := Monitored(Started(pids), ws);
      && LeftOver(pids, ws, q.pids)
      && (q.sawError <==> SomeFailure(pids, ws))
      && Escalated(pids, ws, q)
    decreases |ws|
  {
    hide LeftOver, SomeFailure, Escalated, Step, Over, New, Workforce;
    if ws == [] {
      NothingYet(pids);
    } else {
      var init, w := ws[..|ws| - 1], ws[|ws| - 1];
      HandledInit(pids, ws);
      EscalationTheorem(pids, init);
      var r := Monitored(Started(pids), init);
      assert ws == init + [w];
      MonitoredSnoc(Started(pids), init, w);
      if w.pid > 0 {
        TableTells(pids, init, r.pids, w);
      }
      TableShrinks(pids, init, w, r);
      ErrorSeen(pids, init, w, r);
      EscalatesOnce(pids, init, w, r);
    }
  }

  lemma NothingYet(pids: seq<int>)
    ensures var q := Monitored(Started(pids), []);
      LeftOver(pids, [], q.pids) && (q.sawError <==> SomeFailure(pids, [])) && Escalated(pids, [], q)
  {}

  lemma HandledInit(pids: seq<int>, ws: seq<Wake>)
    requires AllHandled(pids, ws) && ws != []
    ensures AllHandled(pids, ws[..|ws| - 1])
    ensures !Over(Monitored(Started(pids), ws[..|ws| - 1]))
  {
    hide Over;
    var init := ws[..|ws| - 1];
    forall k | 0 <= k < |init| ensures !Over(Monitored(Started(pids), init[..k])) {
      assert init[..k] == ws[..k];
    }
  }
}
