/**
 The round-robin scheduler of kernel/process/sched.c: the checks that decide whether a thread
 may run, which change thread states as they go, and the scan of the ring.
 */
module Scheduler {
  datatype Option<T> = None | Some(value: T)

  datatype Status = Ready | Running | Terminated | Paused | OnWait | Stopped | Created

  /** `waiting`: linked on a wait queue; `overdue`: what the stall detector measures; `other`: any further signal. */
  datatype Thread = Thread(status: Status, process: nat, waiting: bool, overdue: bool, stalled: bool,
                           sigint: bool, sigstop: bool, sigcont: bool, other: bool)

  /** The ring of threads in scheduling order, the processes, and the running thread. */
  datatype System = System(threads: seq<Thread>, processes: seq<Status>, current: nat)

  predicate Valid(s: System) {
    && s.current < |s.threads|
    && forall i :: 0 <= i < |s.threads| ==> s.threads[i].process < |s.processes|
  }

  // ---------------------------------------------------------------- may a thread run?

  predicate Pending(t: Thread) { t.sigint || t.sigstop || t.sigcont || t.other }

  /** The verdict of `can_schedule` and the thread as the checks leave it. */
  function Check(t: Thread, process: Status): (r: (bool, Thread))
    ensures r.1.process == t.process
  {
    if t.status == Terminated then (false, t)
    else if t.status == OnWait then
      if !t.waiting then (true, t.(status := Ready))
      else if t.sigint then (true, t.(waiting := false))
      else (false, t)
    else if t.overdue && !t.stalled then (true, t.(stalled := true))
    else if t.status == Paused then (Pending(t), t)
    else if t.sigstop then (false, t.(status := Stopped))
    else if t.sigcont then (true, t.(status := Ready))
    else (t.status == Ready && (process == Running || process == Ready), t)
  }

  /** The stall detector would mark the thread, and has not yet. */
  predicate Stuck(t: Thread) { t.overdue && !t.stalled }

  /** Who may run, status by status. */
  predicate Runnable(t: Thread, process: Status) {
    match t.status
    case Terminated => false
    case OnWait => t.waiting ==> t.sigint
    case Paused => Stuck(t) || t.sigint || t.sigstop || t.sigcont || t.other
    case Ready => Stuck(t) || (!t.sigstop && (t.sigcont || process == Ready || process == Running))
    case Running => Stuck(t) || (!t.sigstop && t.sigcont)
    case Stopped => Stuck(t) || (!t.sigstop && t.sigcont)
    case Created => Stuck(t) || (!t.sigstop && t.sigcont)
  }

  /** How a thread that may not run is left behind: SIGSTOP stops it, unless it is gone, asleep or paused. */
  function PassedOver(t: Thread): Thread {
    if t.sigstop && t.status in {Ready, Running, Stopped, Created} then t.(status := Stopped) else t
  }

  /** How a thread that may run gets the processor: off its wait queue, and marked if it is stuck. */
  function PickedUp(t: Thread): Thread {
    if t.status == OnWait then t.(status := Running, waiting := false)
    else t.(status := Running, stalled := t.stalled || t.overdue)
  }

  /** The status in which the checks leave a thread that may run. */
  function Revived(t: Thread): Status {
    match t.status
    case OnWait => if t.waiting then OnWait else Ready
    case Paused => Paused
    case other => if Stuck(t) then other else Ready
  }

  /** The chain of checks agrees with the table. */
  lemma {:induction false} CheckTable(t: Thread, process: Status)
    ensures Check(t, process).0 <==> Runnable(t, process)
    ensures !Runnable(t, process) ==> Check(t, process).1 == PassedOver(t)
    ensures Runnable(t, process) ==>
              Check(t, process).1.status == Revived(t) && Check(t, process).1.(status := Running) == PickedUp(t)
  {
    if Check(t, process).0 {
      hide Check, Runnable, PickedUp, Revived;
      CheckPicks(t, process);
    } else {
      hide Check, Runnable, PassedOver;
      CheckRefuses(t, process);
    }
  }

  lemma {:induction false} CheckPicks(t: Thread, process: Status)
    requires Check(t, process).0
    ensures Runnable(t, process) && Check(t, process).1.(status := Running) == PickedUp(t)
    ensures Check(t, process).1.status == Revived(t)
  {
    if t.status == OnWait {
      WaiterPicked(t, process);
    } else if Stuck(t) {
      StuckPicked(t, process);
    } else {
      OtherPicked(t, process);
    }
  }

  lemma {:induction false} WaiterPicked(t: Thread, process: Status)
    requires t.status == OnWait && Check(t, process).0
    ensures t.waiting ==> t.sigint
    ensures Check(t, process).1 == t.(status := if t.waiting then OnWait else Ready, waiting := false)
  {
  }

  lemma {:induction false} StuckPicked(t: Thread, process: Status)
    requires t.status != OnWait && Stuck(t) && Check(t, process).0
    ensures t.status != Terminated && Check(t, process).1 == t.(stalled := true)
  {
  }

  lemma {:induction false} OtherPicked(t: Thread, process: Status)
    requires t.status != OnWait && !Stuck(t) && Check(t, process).0
    ensures Check(t, process).1 == if t.status == Paused then t else t.(status := Ready)
    ensures Runnable(t, process)
  {
  }

  lemma {:induction false} CheckRefuses(t: Thread, process: Status)
    requires !Check(t, process).0
    ensures !Runnable(t, process) && Check(t, process).1 == PassedOver(t)
  {
  }

  // ---------------------------------------------------------------- one decision

  function Next(s: System, i: nat): nat
    requires i < |s.threads|
  {
    if i + 1 == |s.threads| then 0 else i + 1
  }

  /** Hand the processor to thread `i`. */
  function Dispatch(s: System, i: nat): System
    requires Valid(s) && i < |s.threads|
  {
    System(s.threads[i := s.threads[i].(status := Running)], s.processes[s.threads[i].process := Running], i)
  }

  function Checked(s: System, i: nat): (r: System)
    requires Valid(s) && i < |s.threads|
    ensures Valid(r) && |r.threads| == |s.threads|
  {
    s.(threads := s.threads[i := Check(s.threads[i], s.processes[s.threads[i].process]).1])
  }

  predicate MayRun(s: System, i: nat)
    requires Valid(s) && i < |s.threads|
  {
    Check(s.threads[i], s.processes[s.threads[i].process]).0
  }

  /** Check up to `left` threads after `at`; no value when all of them are refused. */
  function Scan(s: System, at: nat, left: nat): Option<System>
    requires Valid(s) && at < |s.threads|
    decreases left
  {
    if left == 0 then None
    else
      var i := Next(s, at);
      if MayRun(s, i) then Some(Dispatch(Checked(s, i), i)) else Scan(Checked(s, i), i, left - 1)
  }

  /** The threads the scan checks, in order. */
  function CheckedThreads(s: System, at: nat, left: nat): seq<nat>
    requires Valid(s) && at < |s.threads|
    decreases left
  {
    if left == 0 then []
    else
      var i := Next(s, at);
      [i] + if MayRun(s, i) then [] else CheckedThreads(Checked(s, i), i, left - 1)
  }

  /** The running thread goes back to ready, then sleepers whose time has come wake up. */
  function Prelude(s: System, woken: set<nat>, alarmed: set<nat>): (r: System)
    requires Valid(s)
    ensures Valid(r) && |r.threads| == |s.threads| && r.current == s.current
  {
    var t := s.threads[s.current];
    var awake := t.status == Ready || t.status == Running;
    var threads := if awake then s.threads[s.current := t.(status := Ready)] else s.threads;
    var processes := if awake then s.processes[t.process := Ready] else s.processes;
    System(seq(|threads|, i requires 0 <= i < |threads| => Roused(threads[i], i in woken, i in alarmed)),
           processes, s.current)
  }

  function Roused(t: Thread, wake: bool, alarm: bool): Thread {
    if t.status == Terminated then t
    else t.(status := if wake then Ready else t.status, other := t.other || alarm)
  }

  /** No value is the panic for lack of threads. */
  function Schedule(s: System, woken: set<nat>, alarmed: set<nat>): Option<System>
    requires Valid(s)
  {
    Scan(Prelude(s, woken, alarmed), s.current, |s.threads|)
  }

  // ---------------------------------------------------------------- what a decision picks

  /** How many steps forward from `a` to `b` on a ring of `n`, at least one. */
  function Dist(n: nat, a: nat, b: nat): int { if b > a then b - a else b - a + n }

  /** The scan picks the nearest thread that may run, and refuses all only if none may. */
  lemma {:induction false} ScanExact(s: System, at: nat, left: nat)
    requires Valid(s) && at < |s.threads| && left <= |s.threads|
    ensures match Scan(s, at, left)
            case Some(r) =>
              && Valid(r) && |r.threads| == |s.threads| && r.current < |s.threads| && MayRun(s, r.current)
              && Dist(|s.threads|, at, r.current) <= left
              && (forall j :: 0 <= j < |s.threads| && Dist(|s.threads|, at, j) < Dist(|s.threads|, at, r.current) ==>
                                !MayRun(s, j))
              && r.threads[r.current].status == Running
            case None => forall j :: 0 <= j < |s.threads| && Dist(|s.threads|, at, j) <= left ==> !MayRun(s, j)
    decreases left
  {
    hide Check, Dispatch;
    if left > 0 {
      var i := Next(s, at);
      if MayRun(s, i) {
        DispatchShape(Checked(s, i), i);
      } else {
        ScanExact(Checked(s, i), i, left - 1);
        forall j | 0 <= j < |s.threads| && j != i ensures MayRun(Checked(s, i), j) == MayRun(s, j) {
        }
        forall j | 0 <= j < |s.threads| && j != i && Dist(|s.threads|, at, j) <= left
          ensures Dist(|s.threads|, at, j) == Dist(|s.threads|, i, j) + 1
        {
        }
      }
    }
  }

  lemma {:induction false} DispatchShape(s: System, i: nat)
    requires Valid(s) && i < |s.threads|
    ensures var r := Dispatch(s, i);
            Valid(r) && |r.threads| == |s.threads| && r.current == i && r.threads[i].status == Running
  {
  }

  lemma {:induction false} ScanUnfold(s: System, at: nat, left: nat)
    requires Valid(s) && at < |s.threads| && 0 < left
    ensures var i := Next(s, at);
            && Scan(s, at, left) == (if MayRun(s, i) then Some(Dispatch(Checked(s, i), i))
                                     else Scan(Checked(s, i), i, left - 1))
            && CheckedThreads(s, at, left) == [i] + if MayRun(s, i) then []
                                                    else CheckedThreads(Checked(s, i), i, left - 1)
  {
    hide Check, Dispatch;
  }

  lemma {:induction false} ScanEnd(s: System, at: nat)
    requires Valid(s) && at < |s.threads|
    ensures Scan(s, at, 0) == None && CheckedThreads(s, at, 0) == []
  {
  }

  /** One place further on the ring. */
  lemma {:induction false} DistNext(n: nat, at: nat, j: nat)
    requires at < n && j < n
    ensures var i := if at + 1 == n then 0 else at + 1;
            Dist(n, at, i) == 1 && (Dist(n, i, j) < n ==> Dist(n, at, j) == Dist(n, i, j) + 1)
  {
  }

  /** The scan checks the threads behind `at` one by one, up to the one it picks. */
  lemma {:induction false} ChecksInOrder(s: System, at: nat, left: nat)
    requires Valid(s) && at < |s.threads| && left <= |s.threads|
    ensures var l := CheckedThreads(s, at, left);
            && (forall k :: 0 <= k < |l| ==> l[k] < |s.threads| && Dist(|s.threads|, at, l[k]) == k + 1)
            && |l| == (if Scan(s, at, left).Some? then Dist(|s.threads|, at, Scan(s, at, left).value.current) else left)
    decreases left
  {
    hide Scan, CheckedThreads, MayRun, Dispatch, Checked, Dist;
    if left == 0 {
      ScanEnd(s, at);
    } else {
      var i, n := Next(s, at), |s.threads|;
      ScanUnfold(s, at, left);
      DistNext(n, at, i);
      if MayRun(s, i) {
        DispatchShape(Checked(s, i), i);
      } else {
        ChecksInOrder(Checked(s, i), i, left - 1);
        if Scan(s, at, left).Some? {
          ScanFound(Checked(s, i), i, left - 1);
          DistNext(n, at, Scan(s, at, left).value.current);
        }
        var rest := CheckedThreads(Checked(s, i), i, left - 1);
        forall k | 0 <= k < |rest| ensures Dist(n, at, rest[k]) == k + 2 {
          DistNext(n, at, rest[k]);
        }
      }
    }
  }

  lemma {:induction false} ScanFound(s: System, at: nat, left: nat)
    requires Valid(s) && at < |s.threads| && left <= |s.threads| && Scan(s, at, left).Some?
    ensures Scan(s, at, left).value.current < |s.threads|
    ensures Dist(|s.threads|, at, Scan(s, at, left).value.current) <= left
  {
    hide Scan, MayRun;
    ScanExact(s, at, left);
  }

  /** Threads passed over keep what the checks did to them; the rest of the ring is untouched. */
  lemma {:induction false} ScanStates(s: System, at: nat, left: nat, j: nat)
    requires Valid(s) && at < |s.threads| && left <= |s.threads| && j < |s.threads|
    requires Scan(s, at, left).Some? && Scan(s, at, left).value.current != j
    ensures var r := Scan(s, at, left).value;
            && |r.threads| == |s.threads| && |r.processes| == |s.processes|
            && r.threads[j] == (if Dist(|s.threads|, at, j) < Dist(|s.threads|, at, r.current)
                                then Checked(s, j).threads[j] else s.threads[j])
            && (forall p :: 0 <= p < |s.processes| ==> r.processes[p] == s.processes[p] || r.processes[p] == Running)
    decreases left
  {
    hide Check;
    ScanExact(s, at, left);
    var i := Next(s, at);
    if !MayRun(s, i) {
      ScanStates(Checked(s, i), i, left - 1, j);
    }
  }

  /**
   A decision checks each thread at most once, and N threads at most.  It picks the first thread
   after the running one that may run, never a terminated one, and panics exactly when no thread
   may run.
   */
  lemma {:induction false} ScheduleExact(s: System, woken: set<nat>, alarmed: set<nat>)
    requires Valid(s)
    ensures var p, n := Prelude(s, woken, alarmed), |s.threads|;
            match Schedule(s, woken, alarmed)
            case Some(r) =>
              && Valid(r) && |r.threads| == n && r.threads[r.current].status == Running
              && MayRun(p, r.current) && p.threads[r.current].status != Terminated
              && (forall j :: 0 <= j < n && Dist(n, s.current, j) < Dist(n, s.current, r.current) ==> !MayRun(p, j))
            case None => forall j :: 0 <= j < n ==> !MayRun(p, j)
    ensures var l := CheckedThreads(Prelude(s, woken, alarmed), s.current, |s.threads|);
            |l| <= |s.threads| && forall j, k :: 0 <= j < k < |l| ==> l[j] != l[k]
  {
    hide Prelude, Scan, CheckedThreads;
    ScanExact(Prelude(s, woken, alarmed), s.current, |s.threads|);
    ChecksInOrder(Prelude(s, woken, alarmed), s.current, |s.threads|);
  }

  /** What happens to a thread before the scan. */
  ghost predicate Before(t: Thread, t': Thread, current: bool, wake: bool, alarm: bool) {
    && t' == t.(status := t'.status, other := t'.other)
    && (t'.other <==> t.other || (alarm && t.status != Terminated))
    && t'.status == if t.status == Terminated then Terminated
                    else if wake || (current && t.status == Running) then Ready
                    else t.status
  }

  lemma {:induction false} RousedExact(t: Thread, current: bool, wake: bool, alarm: bool)
    ensures var u := if current && t.status in {Ready, Running} then t.(status := Ready) else t;
            Before(t, Roused(u, wake, alarm), current, wake, alarm)
  {
  }

  lemma {:induction false} PreludeExact(s: System, woken: set<nat>, alarmed: set<nat>)
    requires Valid(s)
    ensures var p := Prelude(s, woken, alarmed);
            forall j :: 0 <= j < |s.threads| ==>
                          Before(s.threads[j], p.threads[j], j == s.current, j in woken, j in alarmed)
    ensures var c := s.threads[s.current];
            Prelude(s, woken, alarmed).processes
            == if c.status in {Ready, Running} then s.processes[c.process := Ready] else s.processes
  {
    hide Roused, Before;
    forall j | 0 <= j < |s.threads|
      ensures Before(s.threads[j], Prelude(s, woken, alarmed).threads[j], j == s.current, j in woken, j in alarmed)
    {
      RousedExact(s.threads[j], j == s.current, j in woken, j in alarmed);
    }
  }

  /**
   The whole outcome of a decision, without the chain of checks: the picked thread is the nearest
   runnable one, the threads before it are passed over, those behind it and all other processes
   stay as they were.
   */
  lemma {:induction false} DecisionTable(s: System, woken: set<nat>, alarmed: set<nat>)
    requires Valid(s)
    ensures var p, n, c := Prelude(s, woken, alarmed), |s.threads|, s.current;
            match Schedule(s, woken, alarmed)
            case Some(r) =>
              && Valid(r) && |r.threads| == n
              && Runnable(p.threads[r.current], p.processes[p.threads[r.current].process])
              && r.threads[r.current] == PickedUp(p.threads[r.current])
              && r.processes == p.processes[p.threads[r.current].process := Running]
              && (forall j :: 0 <= j < n && Dist(n, c, j) < Dist(n, c, r.current) ==>
                                && !Runnable(p.threads[j], p.processes[p.threads[j].process])
                                && r.threads[j] == PassedOver(p.threads[j]))
              && (forall j :: 0 <= j < n && Dist(n, c, j) > Dist(n, c, r.current) ==> r.threads[j] == p.threads[j])
            case None => forall j :: 0 <= j < n ==> !Runnable(p.threads[j], p.processes[p.threads[j].process])
  {
    hide Prelude, Scan, CheckedThreads, Check, Runnable, PassedOver, PickedUp, Dispatch, Dist;
    var p, n := Prelude(s, woken, alarmed), |s.threads|;
    ScheduleExact(s, woken, alarmed);
    forall j | 0 <= j < n ensures MayRun(p, j) <==> Runnable(p.threads[j], p.processes[p.threads[j].process]) {
      CheckTable(p.threads[j], p.processes[p.threads[j].process]);
    }
    if Scan(p, s.current, n).Some? {
      var r := Scan(p, s.current, n).value;
      ScanPicked(p, s.current, n);
      CheckTable(p.threads[r.current], p.processes[p.threads[r.current].process]);
      forall j | 0 <= j < n && j != r.current
        ensures r.threads[j] == if Dist(n, s.current, j) < Dist(n, s.current, r.current)
                                then PassedOver(p.threads[j]) else p.threads[j]
      {
        ScanStates(p, s.current, n, j);
        CheckTable(p.threads[j], p.processes[p.threads[j].process]);
      }
    }
  }

  /** The thread a scan picks is the one its check left, now running, and so is its process. */
  lemma {:induction false} ScanPicked(s: System, at: nat, left: nat)
    requires Valid(s) && at < |s.threads| && left <= |s.threads| && Scan(s, at, left).Some?
    ensures var r := Scan(s, at, left).value;
            && r.current < |s.threads| == |r.threads|
            && r.threads[r.current]
            == Check(s.threads[r.current], s.processes[s.threads[r.current].process]).1.(status := Running)
            && r.processes == s.processes[s.threads[r.current].process := Running]
    decreases left
  {
    hide Check;
    var i := Next(s, at);
    if !MayRun(s, i) {
      ScanPicked(Checked(s, i), i, left - 1);
      ScanExact(s, at, left);
    }
  }

  // ---------------------------------------------------------------- bounded waiting

  /** Not asked to stop, in a process that may run. */
  predicate Free(s: System, v: nat)
    requires Valid(s) && v < |s.threads|
  {
    !s.threads[v].sigstop && s.processes[s.threads[v].process] in {Ready, Running}
  }

  /** Ready and free, or a waiter whose wait queue has let it go. */
  predicate Eligible(s: System, v: nat)
    requires Valid(s)
  {
    && v < |s.threads|
    && (|| (s.threads[v].status == Ready && Free(s, v))
        || (s.threads[v].status == OnWait && !s.threads[v].waiting))
  }

  /** A timer that makes a waiter ready makes it subject to SIGSTOP and the state of its process. */
  predicate TimerHarmless(s: System, woken: set<nat>, v: nat)
    requires Valid(s) && v < |s.threads|
  {
    s.threads[v].status == OnWait && v in woken ==> Free(s, v)
  }

  lemma {:induction false} PreludeKeeps(s: System, woken: set<nat>, alarmed: set<nat>, v: nat)
    requires Valid(s) && Eligible(s, v) && TimerHarmless(s, woken, v)
    ensures Eligible(Prelude(s, woken, alarmed), v) && MayRun(Prelude(s, woken, alarmed), v)
  {
  }

  /** A decision either picks an eligible thread, or brings its turn nearer and leaves it eligible. */
  lemma {:induction false} TurnNears(s: System, woken: set<nat>, alarmed: set<nat>, v: nat)
    requires Valid(s) && Eligible(s, v) && TimerHarmless(s, woken, v) && v != s.current
    ensures Schedule(s, woken, alarmed).Some?
    ensures var r := Schedule(s, woken, alarmed).value;
            && Valid(r) && |r.threads| == |s.threads|
            && (r.current != v ==> Eligible(r, v) && Dist(|s.threads|, r.current, v) < Dist(|s.threads|, s.current, v))
  {
    hide Prelude, Scan;
    PreludeKeeps(s, woken, alarmed, v);
    ScheduleExact(s, woken, alarmed);
    var r := Schedule(s, woken, alarmed).value;
    if r.current != v {
      ScanStates(Prelude(s, woken, alarmed), s.current, |s.threads|, v);
    }
  }

  /** One decision: the system it found, who woke up in it, and the system it left. */
  datatype Turn = Turn(found: System, woken: set<nat>, alarmed: set<nat>, left: System)

  predicate Decides(t: Turn) { Valid(t.found) && Schedule(t.found, t.woken, t.alarmed) == Some(t.left) }

  /** Between two decisions anything may happen, but the ring and the running thread stay and `v` stays eligible. */
  predicate Between(a: System, b: System, v: nat) {
    && Valid(a) && Valid(b) && |b.threads| == |a.threads| && b.current == a.current
    && (Eligible(a, v) ==> Eligible(b, v))
  }

  ghost predicate History(turns: seq<Turn>, v: nat) {
    && (forall k :: 0 <= k < |turns| ==>
                      && Decides(turns[k])
                      && (v < |turns[k].found.threads| ==> TimerHarmless(turns[k].found, turns[k].woken, v)))
    && (forall k :: 0 < k < |turns| ==> Between(turns[k - 1].left, turns[k].found, v))
  }

  /** A thread that stays eligible is picked within N - 1 decisions, whatever the others do. */
  lemma {:induction false} BoundedWaiting(turns: seq<Turn>, v: nat)
    requires turns != [] && History(turns, v)
    requires Eligible(turns[0].found, v) && v != turns[0].found.current
    requires |turns| >= |turns[0].found.threads| - 1
    ensures exists k :: 0 <= k < |turns[0].found.threads| - 1 && k < |turns| && turns[k].left.current == v
  {
    var n := |turns[0].found.threads|;
    var k := PickedWithin(turns, v, n);
  }

  lemma {:induction false} PickedWithin(turns: seq<Turn>, v: nat, n: nat) returns (k: nat)
    requires turns != [] && History(turns, v) && n == |turns[0].found.threads|
    requires Eligible(turns[0].found, v) && v != turns[0].found.current
    requires |turns| >= Dist(n, turns[0].found.current, v)
    ensures k < |turns| && k < Dist(n, turns[0].found.current, v) && turns[k].left.current == v
    decreases |turns|
  {
    hide Schedule;
    var t := turns[0];
    assert Decides(t);
    TurnNears(t.found, t.woken, t.alarmed, v);
    if t.left.current == v {
      k := 0;
    } else {
      assert Between(turns[0].left, turns[1].found, v);
      HistoryRest(turns, v);
      k := PickedWithin(turns[1..], v, n);
      k := k + 1;
    }
  }

  lemma {:induction false} HistoryRest(turns: seq<Turn>, v: nat)
    requires turns != [] && History(turns, v)
    ensures History(turns[1..], v)
  {
  }

  // ---------------------------------------------------------------- the scheduler object

  class Sched {
    var threads: seq<Thread>
    var processes: seq<Status>
    var current: nat

    ghost function Value(): System
      reads this
    {
      System(threads, processes, current)
    }

    method CanSchedule(i: nat) returns (ok: bool)
      requires Valid(Value()) && i < |threads|
      modifies this`threads
      ensures Value() == Checked(old(Value()), i) && ok == MayRun(old(Value()), i)
      ensures ok <==> Runnable(old(threads)[i], processes[old(threads)[i].process])
    {
      var t := threads[i];
      if t.status == Terminated { return false; }
      if t.status == OnWait {
        if !t.waiting {
          threads := threads[i := t.(status := Ready)];
          return true;
        }
        if t.sigint {
          threads := threads[i := t.(waiting := false)];
          return true;
        }
        return false;
      }
      if t.overdue && !t.stalled {
        threads := threads[i := t.(stalled := true)];
        return true;
      }
      if t.status == Paused { return Pending(t); }
      if t.sigstop {
        threads := threads[i := t.(status := Stopped)];
        return false;
      }
      if t.sigcont {
        threads := threads[i := t.(status := Ready)];
        return true;
      }
      return t.status == Ready && (processes[t.process] == Running || processes[t.process] == Ready);
    }

    method CheckSleepers(woken: set<nat>, alarmed: set<nat>)
      modifies this`threads
      ensures |threads| == |old(threads)|
      ensures forall i :: 0 <= i < |threads| ==> threads[i] == Roused(old(threads)[i], i in woken, i in alarmed)
    {
      var i := 0;
      while i < |threads|
        invariant 0 <= i <= |threads| == |old(threads)|
        invariant forall k :: 0 <= k < i ==> threads[k] == Roused(old(threads)[k], k in woken, k in alarmed)
        invariant forall k :: i <= k < |threads| ==> threads[k] == old(threads)[k]
      {
        var t := threads[i];
        if t.status != Terminated {
          if i in woken { t := t.(status := Ready); }
          if i in alarmed { t := t.(other := true); }
          threads := threads[i := t];
        }
        i := i + 1;
      }
    }

    /** What happens before the scan. */
    method Begin(woken: set<nat>, alarmed: set<nat>)
      requires Valid(Value())
      modifies this
      ensures Value() == Prelude(old(Value()), woken, alarmed)
    {
      ghost var p := Prelude(Value(), woken, alarmed);
      var t := threads[current];
      if t.status == Ready || t.status == Running {
        threads := threads[current := t.(status := Ready)];
        processes := processes[t.process := Ready];
      }
      CheckSleepers(woken, alarmed);
      assert threads == p.threads;
    }

    /** False is the panic for lack of threads; `seen` lists the threads checked on the way. */
    method PickNext(woken: set<nat>, alarmed: set<nat>) returns (ok: bool, ghost seen: seq<nat>)
      requires Valid(Value())
      modifies this
      ensures var r := Schedule(old(Value()), woken, alarmed);
              ok == r.Some? && (ok ==> Value() == r.value)
      ensures seen == CheckedThreads(Prelude(old(Value()), woken, alarmed), old(current), |old(threads)|)
    {
      hide Check, Prelude, Scan, CheckedThreads, Dispatch;
      Begin(woken, alarmed);
      ghost var p, left := Value(), |threads|;
      var at: nat := current;
      seen := [];
      ScanStart(p);
      while true
        invariant Valid(Value()) && at < |threads| && current == p.current && |threads| == |p.threads|
        invariant 0 < left == (if at == current then |threads| else Dist(|threads|, at, current))
        invariant Scanning(p, Value(), at, left, seen)
        decreases left
      {
        ScanTurn(p, Value(), at, left, seen);
        at := if at + 1 == |threads| then 0 else at + 1;
        ok := CanSchedule(at);
        left := left - 1;
        seen := seen + [at];
        if ok { break; }
        if at == current { return false, seen; }
      }
      DispatchIs(Value(), at);
      processes := processes[threads[at].process := Running];
      threads := threads[at := threads[at].(status := Running)];
      current := at;
    }
  }

  /** The scan of `p` has checked `seen` and goes on in `s` behind `at`. */
  ghost predicate Scanning(p: System, s: System, at: nat, left: nat, seen: seq<nat>) {
    && Valid(p) && Valid(s) && at < |s.threads|
    && Scan(s, at, left) == Scan(p, p.current, |p.threads|)
    && seen + CheckedThreads(s, at, left) == CheckedThreads(p, p.current, |p.threads|)
  }

  lemma {:induction false} ScanStart(p: System)
    requires Valid(p)
    ensures Scanning(p, p, p.current, |p.threads|, [])
  {
    hide CheckedThreads;
    var l := CheckedThreads(p, p.current, |p.threads|);
    assert [] + l == l;
  }

  /** One turn of the scan: the next thread is picked, or refused and passed over. */
  lemma {:induction false} ScanTurn(p: System, s: System, at: nat, left: nat, seen: seq<nat>)
    requires Scanning(p, s, at, left, seen) && 0 < left
    ensures var i := Next(s, at);
            var all := CheckedThreads(p, p.current, |p.threads|);
            if MayRun(s, i) then
              Scan(p, p.current, |p.threads|) == Some(Dispatch(Checked(s, i), i)) && all == seen + [i]
            else
              && Scanning(p, Checked(s, i), i, left - 1, seen + [i])
              && (left == 1 ==> Scan(p, p.current, |p.threads|) == None && all == seen + [i])
  {
    hide Scan, CheckedThreads, MayRun, Dispatch, Checked;
    var i := Next(s, at);
    ScanUnfold(s, at, left);
    if MayRun(s, i) {
      assert seen + ([i] + []) == seen + [i];
    } else {
      var rest := CheckedThreads(Checked(s, i), i, left - 1);
      assert seen + ([i] + rest) == seen + [i] + rest;
      ScanEnd(Checked(s, i), i);
      assert seen + [i] + [] == seen + [i];
    }
  }

  lemma {:induction false} DispatchIs(s: System, i: nat)
    requires Valid(s) && i < |s.threads|
    ensures Dispatch(s, i)
         == System(s.threads[i := s.threads[i].(status := Running)], s.processes[s.threads[i].process := Running], i)
  {
  }
}
