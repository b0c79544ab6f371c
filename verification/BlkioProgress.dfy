/**
 Progress of the block-I/O pipeline: every line, yield and interrupt brings the pipeline
 closer to rest, and as long as it is not at rest one of them can happen.
 */
module BlkioProgress {
  import opened Blkio

  /** Lines left in a commit. */
  function Rank(pc: Pc): nat {
    match pc
    case Idle => 0
    case Back => 1
    case Away => 2
    case SetOnWait => 3
    case TestWaitq => 4
    case Handle => 5
    case UnlockSched => 6
    case CountBusy => 7
    case MarkBusy => 8
    case Pop => 9
    case UnlockEmpty => 9
    case CheckEmpty => 10
    case LockSched => 11
    case CheckHold => 12
    case CheckStalled => 13
    case UnlockQueue => 14
    case Append => 15
    case LockQueue => 16
    case PrepareWait => 17
    case SetShouldWait => 18
    case SetPending => 20
    case CheckPending => 21
  }

  function RankSum(th: seq<Thread>): nat {
    if th == [] then 0 else Rank(th[0].pc) + RankSum(th[1..])
  }

  function PendingSum(reqs: seq<Req>): nat {
    if reqs == [] then 0 else (if reqs[0].pending then 1 else 0) + PendingSum(reqs[1..])
  }

  /** Lines left in all commits plus interrupts still to come. */
  function Measure(s: State): nat {
    RankSum(s.th) + PendingSum(s.reqs)
  }

  /** No commit is running and no request is pending. */
  predicate AtRest(s: State) {
    && (forall t :: 0 <= t < |s.th| ==> s.th[t].pc.Idle?)
    && (forall r :: 0 <= r < |s.reqs| ==> !s.reqs[r].pending)
  }

  lemma {:induction false} RankUpdate(th: seq<Thread>, t: nat, me: Thread)
    requires t < |th|
    ensures RankSum(th[t := me]) + Rank(th[t].pc) == RankSum(th) + Rank(me.pc)
  {
    if t == 0 {
      assert th[t := me][1..] == th[1..];
    } else {
      assert th[t := me][1..] == th[1..][t - 1 := me];
      RankUpdate(th[1..], t - 1, me);
    }
  }

  lemma {:induction false} RankSame(a: seq<Thread>, b: seq<Thread>)
    requires |a| == |b| && forall t :: 0 <= t < |a| ==> a[t].pc == b[t].pc
    ensures RankSum(a) == RankSum(b)
  {
    if a != [] { RankSame(a[1..], b[1..]); }
  }

  lemma {:induction false} PendingUpdate(reqs: seq<Req>, r: nat, q: Req)
    requires r < |reqs|
    ensures PendingSum(reqs[r := q]) + (if reqs[r].pending then 1 else 0)
         == PendingSum(reqs) + (if q.pending then 1 else 0)
  {
    if r == 0 {
      assert reqs[r := q][1..] == reqs[1..];
    } else {
      assert reqs[r := q][1..] == reqs[1..][r - 1 := q];
      PendingUpdate(reqs[1..], r - 1, q);
    }
  }

  lemma {:induction false} SumsZero(s: State)
    ensures Measure(s) == 0 <==> AtRest(s)
  {
    RanksZero(s.th);
    PendingZero(s.reqs);
  }

  lemma {:induction false} RanksZero(th: seq<Thread>)
    ensures RankSum(th) == 0 <==> forall t :: 0 <= t < |th| ==> th[t].pc.Idle?
  {
    if th != [] {
      RanksZero(th[1..]);
      assert forall t :: 1 <= t < |th| ==> th[t] == th[1..][t - 1];
    }
  }

  lemma {:induction false} PendingZero(reqs: seq<Req>)
    ensures PendingSum(reqs) == 0 <==> forall r :: 0 <= r < |reqs| ==> !reqs[r].pending
  {
    if reqs != [] {
      PendingZero(reqs[1..]);
      assert forall r :: 1 <= r < |reqs| ==> reqs[r] == reqs[1..][r - 1];
    }
  }

  // ---------------------------------------------------------------- descent

  predicate Effective(step: Step) {
    step.Exec? || step.Yield? || step.Irq?
  }

  /** A line moves its thread forward and changes at most one request's PENDING flag. */
  lemma ExecShape(s: State)
    requires CanExec(s)
    ensures var s' := ExecOne(s);
            && |s'.th| == |s.th| && s'.th == s.th[s.cur := s'.th[s.cur]]
            && Rank(s'.th[s.cur].pc) + (if s.th[s.cur].pc.SetPending? then 2 else 1) <= Rank(s.th[s.cur].pc)
  {
    ExecFrame(s);
    ExecRank(s);
  }

  lemma ExecRank(s: State)
    requires CanExec(s)
    ensures |ExecOne(s).th| == |s.th|
    ensures Rank(ExecOne(s).th[s.cur].pc) + (if s.th[s.cur].pc.SetPending? then 2 else 1) <= Rank(s.th[s.cur].pc)
  {
    if InCommit(s.th[s.cur].pc) {
      CommitRank(s);
    } else if InSchedule(s.th[s.cur].pc) {
      ScheduleRank(s);
    }
  }

  lemma CommitRank(s: State)
    requires CanExec(s) && InCommit(s.th[s.cur].pc)
    ensures |ExecCommit(s).th| == |s.th|
    ensures Rank(ExecCommit(s).th[s.cur].pc) + (if s.th[s.cur].pc.SetPending? then 2 else 1) <= Rank(s.th[s.cur].pc)
  {
  }

  lemma ScheduleRank(s: State)
    requires CanExec(s) && InSchedule(s.th[s.cur].pc)
    ensures |ExecSchedule(s).th| == |s.th| && Rank(ExecSchedule(s).th[s.cur].pc) < Rank(s.th[s.cur].pc)
  {
  }

  lemma ExecPending(s: State)
    requires CanExec(s)
    ensures PendingSum(ExecOne(s).reqs) <= PendingSum(s.reqs) + if s.th[s.cur].pc.SetPending? then 1 else 0
  {
    var me := s.th[s.cur];
    match me.pc {
      case SetPending =>
        PendingUpdate(s.reqs, me.req, ExecOne(s).reqs[me.req]);
      case SetShouldWait =>
        PendingUpdate(s.reqs, me.req, ExecOne(s).reqs[me.req]);
      case PrepareWait =>
        PendingUpdate(s.reqs, me.req, ExecOne(s).reqs[me.req]);
      case Append =>
        PendingUpdate(s.reqs, me.req, ExecOne(s).reqs[me.req]);
      case Pop =>
        PendingUpdate(s.reqs, s.queue[0], ExecOne(s).reqs[s.queue[0]]);
      case MarkBusy =>
        PendingUpdate(s.reqs, me.head, ExecOne(s).reqs[me.head]);
      case Handle =>
        PendingUpdate(s.reqs, me.head, ExecOne(s).reqs[me.head]);
      case _ =>
    }
  }

  lemma SwitchMeasure(s: State, next: Tid)
    requires s.cur < |s.th| && next < |s.th|
    ensures Measure(SwitchTo(s, next)) == Measure(s)
  {
    RankSame(SwitchTo(s, next).th, s.th);
  }

  lemma IrqMeasure(s: State, r: Rid)
    requires Inv(s) && Enabled(s, Irq(r))
    ensures Measure(Apply(s, Irq(r))) < Measure(s)
  {
    var s1 := IrqSchedule(s);
    var s2 := IrqComplete(s1, r);
    assert ReqOk(s, r);
    if s1 != s {
      PendingUpdate(s.reqs, s.queue[0], s1.reqs[s.queue[0]]);
    }
    PendingUpdate(s1.reqs, r, s2.reqs[r]);
    RankSame(s2.th, s.th);
  }

  lemma YieldRank()
    ensures Rank(Back) < Rank(Away)
  {
  }

  /** Every line, yield and interrupt strictly lowers the measure; a preemption keeps it. */
  lemma StepMeasure(s: State, step: Step)
    requires Inv(s) && Enabled(s, step) && !step.Start?
    ensures if Effective(step) then Measure(Apply(s, step)) < Measure(s)
            else Measure(Apply(s, step)) == Measure(s)
  {
    hide Inv, ExecOne, SwitchTo, IrqSchedule, IrqComplete, Rank;
    match step
    case Exec =>
      ExecShape(s);
      ExecPending(s);
      RankUpdate(s.th, s.cur, ExecOne(s).th[s.cur]);
    case Preempt(next) =>
      SwitchMeasure(s, next);
    case Yield(next) =>
      YieldRank();
      RankUpdate(s.th, s.cur, SetPc(s, Back).th[s.cur]);
      SwitchMeasure(SetPc(s, Back), next);
    case Irq(r) =>
      IrqMeasure(s, r);
  }

  function EffectiveCount(steps: seq<Step>): nat {
    if steps == [] then 0 else (if Effective(steps[0]) then 1 else 0) + EffectiveCount(steps[1..])
  }

  /** No run without new commits takes more effective steps than the measure allows. */
  lemma {:induction false} BoundedWork(s: State, steps: seq<Step>)
    requires Inv(s) && NoRace(s) && IsRun(s, steps) && RaceFree(s, steps)
    requires NoStart(steps)
    ensures EffectiveCount(steps) + Measure(After(s, steps)) <= Measure(s)
    decreases |steps|
  {
    if steps != [] {
      StepNoRace(s, steps[0]);
      StepInv(s, steps[0]);
      StepMeasure(s, steps[0]);
      BoundedWork(Apply(s, steps[0]), steps[1..]);
    }
  }

  // ---------------------------------------------------------------- no deadlock

  /** The guards only restate what is always true: these are the real conditions. */
  lemma GuardsAreReal(s: State)
    requires Inv(s)
    ensures CanExec(s) <==>
            var me := s.th[s.cur];
            && me.st == Running && !me.pc.Idle? && !me.pc.Away?
            && (me.pc.LockQueue? || me.pc.LockSched? ==> s.lock == None)
    ensures forall r: Rid :: Enabled(s, Irq(r)) <==> r < |s.reqs| && s.reqs[r].issued
  {
    assert ThreadOk(s, s.cur);
    forall r: Rid | r < |s.reqs| && s.reqs[r].issued ensures Enabled(s, Irq(r)) {
      assert ReqOk(s, r);
    }
  }

  predicate NoStart(steps: seq<Step>) {
    forall i :: 0 <= i < |steps| ==> !steps[i].Start?
  }

  /** Every thread but `t` is at the same line of the same commit. */
  predicate OthersStay(s: State, s': State, t: Tid) {
    && |s'.th| == |s.th| && |s'.reqs| == |s.reqs|
    && forall v :: 0 <= v < |s.th| && v != t ==> s'.th[v].pc == s.th[v].pc && s'.th[v].req == s.th[v].req
  }

  lemma {:induction false} OneStep(s: State, step: Step)
    requires Enabled(s, step)
    ensures IsRun(s, [step]) && After(s, [step]) == Apply(s, step)
    ensures RaceFree(s, [step]) <==> !RaceStep(s, step)
  {
    hide Apply, Enabled, RaceStep;
    assert [step][1..] == [];
  }

  /** A commit that is neither asleep nor waiting for the lock can move. */
  lemma MoveThread(s: State, t: Tid) returns (steps: seq<Step>)
    requires Inv(s) && t < |s.th| && !s.th[t].pc.Idle? && Schedulable(s.th[t])
    requires s.lock == None || s.lock == Some(t)
    requires s.th[t].pc.CheckPending? ==> forall u: Tid :: !Passed(s, u, s.th[t].req)
    ensures IsRun(s, steps) && RaceFree(s, steps) && Measure(After(s, steps)) < Measure(s)
    ensures NoStart(steps) && OthersStay(s, After(s, steps), t)
    ensures !s.th[t].pc.SetPending? ==> Inv(After(s, steps))
  {
    hide Measure, IsRun, After, RaceFree, CanExec, ExecOne;
    var s1 := SwitchTo(s, t);
    hide Inv;
    SwitchInv(s, t);
    SwitchMeasure(s, t);
    assert forall u: Tid :: Passed(s1, u, s1.th[t].req) ==> Passed(s, u, s.th[t].req);
    var second := RunThread(s1);
    OneStep(s, Preempt(t));
    OneStep(s1, second);
    RunConcat(s, [Preempt(t)], [second]);
    steps := [Preempt(t)] + [second];
  }

  /** A thread that runs inside the pipeline runs its next line, or leaves to the scheduler. */
  lemma RunThread(s: State) returns (step: Step)
    requires Inv(s) && !s.th[s.cur].pc.Idle? && s.th[s.cur].st == Running
    requires s.lock == None || s.lock == Some(s.cur)
    requires s.th[s.cur].pc.CheckPending? ==> forall u: Tid :: !Passed(s, u, s.th[s.cur].req)
    ensures Enabled(s, step) && !step.Start? && !RaceStep(s, step)
    ensures Measure(Apply(s, step)) < Measure(s) && OthersStay(s, Apply(s, step), s.cur)
    ensures !s.th[s.cur].pc.SetPending? ==> Inv(Apply(s, step))
  {
    hide Measure, ExecOne;
    assert ThreadOk(s, s.cur);
    hide Inv;
    GuardsAreReal(s);
    if s.th[s.cur].pc.Away? {
      step := Yield(s.cur);
    } else {
      step := Exec;
      ExecFrame(s);
    }
    StepMeasure(s, step);
    if !s.th[s.cur].pc.SetPending? {
      StepInv(s, step);
    }
  }

  /** As long as the pipeline is not at rest, some run brings it strictly closer. */
  lemma Progress(s: State) returns (steps: seq<Step>)
    requires Inv(s) && !AtRest(s)
    ensures IsRun(s, steps) && RaceFree(s, steps) && Measure(After(s, steps)) < Measure(s)
    ensures NoStart(steps)
  {
    if s.lock.Some? {
      assert ThreadOk(s, s.lock.value);
      steps := MoveThread(s, s.lock.value);
      return;
    }
    if t: Tid :| t < |s.th| && s.th[t].pc.SetPending? {
      // first whoever has passed the test, so that nobody can pass it beside them
      assert ThreadOk(s, t);
      steps := MoveThread(s, t);
      return;
    }
    if t: Tid :| t < |s.th| && !s.th[t].pc.Idle? && Schedulable(s.th[t]) {
      steps := MoveThread(s, t);
      return;
    }
    var r := PendingExists(s);
    steps := NextIrq(s, r);
  }

  /** If every commit sleeps on a request, some request is pending. */
  lemma PendingExists(s: State) returns (r: Rid)
    requires Inv(s) && !AtRest(s)
    requires forall t: Tid :: t < |s.th| && !s.th[t].pc.Idle? ==> !Schedulable(s.th[t])
    ensures r < |s.reqs| && s.reqs[r].pending
  {
    if t: Tid :| t < |s.th| && !s.th[t].pc.Idle? {
      assert ThreadOk(s, t);
      r := s.th[t].req;
    } else {
      r :| r < |s.reqs| && s.reqs[r].pending;
    }
  }

  /** Nobody can move on by themselves, except by testing PENDING. */
  predicate AllWaiting(s: State) {
    && s.lock == None
    && forall t :: 0 <= t < |s.th| && !s.th[t].pc.Idle? && !s.th[t].pc.CheckPending? ==> !Schedulable(s.th[t])
  }

  /** Then, while a request is pending, the device owes an interrupt. */
  lemma IssuedExists(s: State, r: Rid) returns (x: Rid)
    requires Inv(s) && AllWaiting(s) && r < |s.reqs| && s.reqs[r].pending
    ensures x < |s.reqs| && s.reqs[x].issued
  {
    forall t: Tid | t < |s.th|
      ensures s.th[t].pc.Idle? || s.th[t].pc.CheckPending? || s.th[t].pc.Away? || s.th[t].pc.Back?
    {
      assert ThreadOk(s, t);
    }
    assert ReqOk(s, r);
    if s.reqs[r].issued {
      return r;
    }
    assert s.queue != [];
    assert InFlightSet(s) != {};
    x :| x in InFlightSet(s);
    assert ReqOk(s, x);
  }

  lemma NextIrq(s: State, r: Rid) returns (steps: seq<Step>)
    requires Inv(s) && AllWaiting(s) && r < |s.reqs| && s.reqs[r].pending
    ensures IsRun(s, steps) && RaceFree(s, steps) && Measure(After(s, steps)) < Measure(s)
    ensures NoStart(steps) && OthersStay(s, After(s, steps), |s.th|)
  {
    hide Inv, Measure, IsRun, After, RaceFree, AllWaiting;
    var x := IssuedExists(s, r);
    GuardsAreReal(s);
    StepMeasure(s, Irq(x));
    OneStep(s, Irq(x));
    steps := [Irq(x)];
  }

  lemma {:induction false} RunConcat(s: State, a: seq<Step>, b: seq<Step>)
    requires IsRun(s, a) && IsRun(After(s, a), b)
    ensures IsRun(s, a + b) && After(s, a + b) == After(After(s, a), b)
    ensures RaceFree(s, a + b) <==> RaceFree(s, a) && RaceFree(After(s, a), b)
    decreases |a|
  {
    hide Apply, Enabled, RaceStep;
    if a == [] {
      assert a + b == b;
    } else {
      assert (a + b)[1..] == a[1..] + b;
      RunConcat(Apply(s, a[0]), a[1..], b);
    }
  }

  /**
   From every state reached without a race the pipeline can be driven to rest without a new
   commit: every request completes and every committer returns.
   */
  lemma {:induction false} Drain(s: State) returns (steps: seq<Step>)
    requires Inv(s) && NoRace(s)
    ensures IsRun(s, steps) && RaceFree(s, steps) && AtRest(After(s, steps))
    ensures NoStart(steps)
    decreases Measure(s)
  {
    if AtRest(s) {
      steps := [];
    } else {
      var first := Progress(s);
      RunInv(s, first);
      var rest := Drain(After(s, first));
      RunConcat(s, first, rest);
      steps := first + rest;
    }
  }

  lemma ReachableDrains(s0: State, steps: seq<Step>) returns (rest: seq<Step>)
    requires Init(s0) && IsRun(s0, steps) && RaceFree(s0, steps)
    ensures IsRun(s0, steps + rest) && AtRest(After(s0, steps + rest))
    ensures NoStart(rest)
  {
    InitInv(s0);
    RunInv(s0, steps);
    rest := Drain(After(s0, steps));
    RunConcat(s0, steps, rest);
  }
}
