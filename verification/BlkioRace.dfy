/**
 The one race of the block-I/O pipeline.  `blkio_commit` tests PENDING and sets it a few lines
 later; two threads that both pass the test before either sets the flag put one request into
 the queue twice.  Without that, everything in module Blkio holds.  The last part gives the
 exact rule for callers that avoids it.
 */
module BlkioRace {
  import opened Blkio
  import opened BlkioProgress

  /** The line is between setting PENDING and giving the queue lock back. */
  predicate Queueing(pc: Pc) {
    pc.SetPending? || pc.SetShouldWait? || pc.PrepareWait? || pc.LockQueue? || pc.Append? || pc.UnlockQueue?
  }

  /** Every thread but `t` stays where it is, and awake if it was. */
  predicate OthersSame(s: State, s': State, t: Tid) {
    && OthersStay(s, s', t)
    && forall v :: 0 <= v < |s.th| && v != t && s.th[v].st != OnWait ==> s'.th[v].st != OnWait
  }

  /** The running thread, left alone, gets its request into the queue. */
  lemma {:induction false} FinishQueueing(s: State) returns (steps: seq<Step>)
    requires s.cur < |s.th| && s.th[s.cur].st == Running && s.th[s.cur].req < |s.reqs|
    requires Queueing(s.th[s.cur].pc)
    requires s.lock == if s.th[s.cur].pc.Append? || s.th[s.cur].pc.UnlockQueue? then Some(s.cur) else None
    ensures IsRun(s, steps) && NoStart(steps) && OthersSame(s, After(s, steps), s.cur)
    ensures After(s, steps).lock == None && After(s, steps).cur == s.cur
    ensures After(s, steps).queue == s.queue + if s.th[s.cur].pc.UnlockQueue? then [] else [s.th[s.cur].req]
    decreases Rank(s.th[s.cur].pc)
  {
    var s' := ExecOne(s);
    if s.th[s.cur].pc.UnlockQueue? {
      steps := [Exec];
      assert steps[1..] == [];
    } else {
      var rest := FinishQueueing(s');
      steps := [Exec] + rest;
      assert steps[1..] == rest;
    }
  }

  /** Any thread that has passed the test can put its request into the queue once the lock is free. */
  lemma {:induction false} PutIn(s: State, t: Tid, r: Rid) returns (steps: seq<Step>)
    requires s.cur < |s.th| && Passed(s, t, r) && r < |s.reqs| && s.th[t].st != OnWait && s.lock == None
    ensures IsRun(s, steps) && NoStart(steps) && OthersSame(s, After(s, steps), t)
    ensures After(s, steps).lock == None && After(s, steps).cur < |s.th|
    ensures After(s, steps).queue == s.queue + [r]
  {
    hide ExecOne, CanExec;
    var rest := FinishQueueing(SwitchTo(s, t));
    steps := [Preempt(t)] + rest;
    assert steps[1..] == rest;
  }

  /** The lock holder can run its next line; threads that have passed the test stay where they are. */
  lemma {:induction false} HolderMoves(s: State) returns (steps: seq<Step>)
    requires Inv(s) && s.lock.Some?
    ensures IsRun(s, steps) && NoStart(steps) && Inv(After(s, steps)) && Measure(After(s, steps)) < Measure(s)
    ensures forall t: Tid, r: Rid :: Passed(s, t, r) ==> Passed(After(s, steps), t, r)
  {
    hide Measure, IsRun, After, RaceFree;
    assert ThreadOk(s, s.lock.value);
    hide Inv;
    steps := MoveThread(s, s.lock.value);
  }

  /** Whoever holds the lock can give it back while two threads have passed the test. */
  lemma {:induction false} FreeLock(s: State, t: Tid, u: Tid, r: Rid) returns (steps: seq<Step>)
    requires Inv(s) && Passed(s, t, r) && Passed(s, u, r)
    ensures IsRun(s, steps) && NoStart(steps)
    ensures var s' := After(s, steps); Inv(s') && Passed(s', t, r) && Passed(s', u, r) && s'.lock == None
    decreases Measure(s)
  {
    hide Inv, Measure, IsRun, After;
    if s.lock == None {
      steps := [];
      NoSteps(s);
    } else {
      var first := HolderMoves(s);
      var rest := FreeLock(After(s, first), t, u, r);
      RunConcat(s, first, rest);
      steps := first + rest;
    }
  }

  lemma {:induction false} NoSteps(s: State)
    ensures IsRun(s, []) && After(s, []) == s
  {
  }

  /** Request `r` stands in the queue twice. */
  predicate QueuedTwice(s: State, r: Rid) {
    exists i, j :: 0 <= i < j < |s.queue| && s.queue[i] == r && s.queue[j] == r
  }

  lemma {:induction false} BothPutIn(s: State, t: Tid, u: Tid, r: Rid) returns (steps: seq<Step>)
    requires Inv(s) && Passed(s, t, r) && Passed(s, u, r) && t != u
    ensures IsRun(s, steps) && NoStart(steps) && QueuedTwice(After(s, steps), r)
  {
    hide Inv, CanExec, Measure;
    var first := FreeLock(s, t, u, r);
    var s1 := After(s, first);
    AwakeAt(s1, t, r);
    AwakeAt(s1, u, r);
    var second := PutIn(s1, t, r);
    var s2 := After(s1, second);
    var third := PutIn(s2, u, r);
    RunConcat(s1, second, third);
    RunConcat(s, first, second + third);
    steps := first + (second + third);
    var q := After(s, steps).queue;
    assert q == s1.queue + [r] + [r];
    assert q[|s1.queue|] == r && q[|s1.queue| + 1] == r;
  }

  lemma {:induction false} AwakeAt(s: State, t: Tid, r: Rid)
    requires Inv(s) && Passed(s, t, r)
    ensures s.cur < |s.th| && r < |s.reqs| && s.th[t].st != OnWait
  {
    assert ThreadOk(s, t);
  }

  /** After a race step some continuation has the request in the queue twice. */
  lemma {:induction false} RaceBreaks(s: State) returns (rest: seq<Step>)
    requires Inv(s) && RaceStep(s, Exec)
    ensures IsRun(s, [Exec] + rest) && NoStart(rest) && QueuedTwice(After(s, [Exec] + rest), s.th[s.cur].req)
  {
    var r := s.th[s.cur].req;
    var u :| 0 <= u < |s.th| && Passed(s, u, r);
    StepInv(s, Exec);
    ExecFrame(s);
    rest := BothPutIn(ExecOne(s), s.cur, u, r);
    assert ([Exec] + rest)[1..] == rest;
  }

  /** A run that is not race free has a race step after a race-free beginning. */
  lemma {:induction false} FirstRace(s: State, steps: seq<Step>) returns (pre: seq<Step>)
    requires IsRun(s, steps) && !RaceFree(s, steps)
    ensures IsRun(s, pre) && RaceFree(s, pre) && RaceStep(After(s, pre), Exec)
    decreases |steps|
  {
    hide RaceStep, Enabled, Apply;
    if RaceStep(s, steps[0]) {
      IsExec(s, steps[0]);
      pre := [];
    } else {
      var rest := FirstRace(Apply(s, steps[0]), steps[1..]);
      pre := [steps[0]] + rest;
      assert pre[1..] == rest;
    }
  }

  lemma {:induction false} IsExec(s: State, step: Step)
    requires RaceStep(s, step)
    ensures step == Exec
  {
  }

  /**
   The exact condition: from a state of the invariant no continuation ever queues a request
   twice if and only if no continuation contains a race step.
   */
  lemma {:induction false} QueuedOnceIff(s: State)
    requires Inv(s) && NoRace(s)
    ensures (forall steps :: IsRun(s, steps) ==> NoDup(After(s, steps).queue))
       <==> (forall steps :: IsRun(s, steps) ==> RaceFree(s, steps))
  {
    hide Inv, NoRace, RaceStep, RaceFree, IsRun, After;
    if steps :| IsRun(s, steps) && !RaceFree(s, steps) {
      var pre := FirstRace(s, steps);
      RunInv(s, pre);
      var rest := RaceBreaks(After(s, pre));
      RunConcat(s, pre, [Exec] + rest);
      assert !NoDup(After(s, pre + ([Exec] + rest)).queue);
    } else {
      forall steps | IsRun(s, steps) ensures NoDup(After(s, steps).queue) {
        RunInv(s, steps);
        QueueDistinct(After(s, steps));
      }
    }
  }

  lemma {:induction false} QueueDistinct(s: State)
    requires Inv(s)
    ensures NoDup(s.queue)
  {
  }

  /** One thread calls commit and passes the test, then another calls commit for the same request. */
  lemma {:induction false} TwoCommits(s0: State, u: Tid, wait: bool) returns (pre: seq<Step>)
    requires Init(s0) && u < |s0.th| && u != s0.cur && |s0.reqs| >= 1
    ensures IsRun(s0, pre) && RaceFree(s0, pre) && RaceStep(After(s0, pre), Exec)
    ensures After(s0, pre).th[After(s0, pre).cur].req == 0
  {
    var s1 := Apply(s0, Start(0, wait));
    var s2 := ExecOne(s1);
    var s3 := SwitchTo(s2, u);
    var s4 := Apply(s3, Start(0, wait));
    assert Passed(s4, s0.cur, 0);
    assert RaceStep(s4, Exec);
    hide IsRun, After, RaceFree, ExecOne;
    OneStep(s0, Start(0, wait));
    OneStep(s1, Exec);
    OneStep(s2, Preempt(u));
    OneStep(s3, Start(0, wait));
    RunConcat(s2, [Preempt(u)], [Start(0, wait)]);
    RunConcat(s1, [Exec], [Preempt(u)] + [Start(0, wait)]);
    RunConcat(s0, [Start(0, wait)], [Exec] + ([Preempt(u)] + [Start(0, wait)]));
    pre := [Start(0, wait)] + ([Exec] + ([Preempt(u)] + [Start(0, wait)]));
  }

  /** The race is real: with two threads and one request some run queues the request twice. */
  lemma {:induction false} TwoThreadsRace(s0: State, wait: bool) returns (steps: seq<Step>)
    requires Init(s0) && |s0.th| >= 2 && |s0.reqs| >= 1
    ensures IsRun(s0, steps) && QueuedTwice(After(s0, steps), 0)
  {
    hide IsRun, After, RaceFree, Inv, RaceStep;
    var pre := TwoCommits(s0, if s0.cur == 0 then 1 else 0, wait);
    InitInv(s0);
    RunInv(s0, pre);
    var rest := RaceBreaks(After(s0, pre));
    RunConcat(s0, pre, [Exec] + rest);
    steps := pre + ([Exec] + rest);
  }

  // ---------------------------------------------------------------- what a caller can do

  /** Thread `t` is testing or about to set PENDING of `r`. */
  predicate InWindow(s: State, t: Tid, r: Rid) {
    t < |s.th| && (s.th[t].pc.CheckPending? || s.th[t].pc.SetPending?) && s.th[t].req == r
  }

  ghost predicate OneInWindow(s: State) {
    forall t: Tid, u: Tid, r: Rid :: InWindow(s, t, r) && InWindow(s, u, r) ==> t == u
  }

  /** Nobody calls `blkio_commit` for a request whose test another caller has not finished. */
  ghost predicate Serial(s: State, steps: seq<Step>)
    requires IsRun(s, steps)
    decreases |steps|
  {
    steps != [] ==>
      && (steps[0].Start? ==> forall t: Tid :: !InWindow(s, t, steps[0].r))
      && Serial(Apply(s, steps[0]), steps[1..])
  }

  /** Serialising only those few lines rules the race out; the rest of two commits may overlap freely. */
  lemma {:induction false} SerialIsRaceFree(s: State, steps: seq<Step>)
    requires OneInWindow(s) && IsRun(s, steps) && Serial(s, steps)
    ensures RaceFree(s, steps) && OneInWindow(After(s, steps))
    decreases |steps|
  {
    if steps != [] {
      var s' := Apply(s, steps[0]);
      forall t: Tid, u: Tid, r: Rid | InWindow(s', t, r) && InWindow(s', u, r) ensures t == u {
        WindowBefore(s, steps[0], t, r);
        WindowBefore(s, steps[0], u, r);
        assert InWindow(s, t, r) && InWindow(s, u, r) ==> t == u;
      }
      if RaceStep(s, steps[0]) {
        var u :| 0 <= u < |s.th| && Passed(s, u, s.th[s.cur].req);
        assert InWindow(s, s.cur, s.th[s.cur].req) && InWindow(s, u, s.th[s.cur].req);
      }
      SerialIsRaceFree(s', steps[1..]);
    }
  }

  lemma {:induction false} WindowBefore(s: State, step: Step, t: Tid, r: Rid)
    requires Enabled(s, step) && InWindow(Apply(s, step), t, r)
    ensures InWindow(s, t, r) || (step.Start? && t == s.cur && step.r == r)
  {
    hide ExecOne, CanExec;
    if step.Exec? {
      ExecFrame(s);
      ExecWindow(s);
    }
  }

  // ---------------------------------------------------------------- the rule cannot be weaker

  /** Whoever is at the test stays there. */
  predicate TestersStay(s: State, s': State) {
    && |s'.th| == |s.th| && |s'.reqs| == |s.reqs|
    && forall t :: 0 <= t < |s.th| && s.th[t].pc.CheckPending? ==>
                     s'.th[t].pc.CheckPending? && s'.th[t].req == s.th[t].req
  }

  /** While a request is pending the pipeline can come closer to rest although nobody leaves the test. */
  lemma {:induction false} Advance(s: State, r: Rid) returns (steps: seq<Step>)
    requires Inv(s) && r < |s.reqs| && s.reqs[r].pending
    ensures IsRun(s, steps) && NoStart(steps) && RaceFree(s, steps) && Measure(After(s, steps)) < Measure(s)
    ensures TestersStay(s, After(s, steps))
  {
    hide Measure, IsRun, After, RaceFree;
    if s.lock.Some? {
      assert ThreadOk(s, s.lock.value);
      steps := MoveThread(s, s.lock.value);
    } else if t: Tid :| t < |s.th| && !s.th[t].pc.Idle? && !s.th[t].pc.CheckPending? && Schedulable(s.th[t]) {
      steps := MoveThread(s, t);
    } else {
      steps := NextIrq(s, r);
    }
  }

  /** So the request can complete while everybody at the test stays there. */
  lemma {:induction false} Complete(s: State, r: Rid) returns (steps: seq<Step>)
    requires Inv(s) && NoRace(s) && r < |s.reqs|
    ensures IsRun(s, steps) && NoStart(steps) && TestersStay(s, After(s, steps))
    ensures Inv(After(s, steps)) && NoRace(After(s, steps)) && !After(s, steps).reqs[r].pending
    decreases Measure(s)
  {
    hide Inv, NoRace, Measure, IsRun, After, RaceFree;
    if !s.reqs[r].pending {
      steps := [];
      NoSteps(s);
    } else {
      var first := Advance(s, r);
      RunInv(s, first);
      var rest := Complete(After(s, first), r);
      RunConcat(s, first, rest);
      steps := first + rest;
    }
  }

  predicate Testing(s: State, t: Tid, r: Rid) {
    t < |s.th| && s.th[t].pc.CheckPending? && s.th[t].req == r
  }

  /** A thread at the test can pass it as soon as the request is not pending. */
  lemma {:induction false} Pass(s: State, t: Tid, r: Rid)
    requires Inv(s) && Testing(s, t, r) && r < |s.reqs| && !s.reqs[r].pending
    ensures Enabled(s, Preempt(t)) && Enabled(SwitchTo(s, t), Exec) && Inv(ExecOne(SwitchTo(s, t)))
    ensures Passed(ExecOne(SwitchTo(s, t)), t, r)
    ensures forall u: Tid :: u != t && Testing(s, u, r) ==> Testing(ExecOne(SwitchTo(s, t)), u, r)
    ensures ExecOne(SwitchTo(s, t)).reqs == s.reqs
    ensures (exists u :: 0 <= u < |s.th| && Passed(s, u, r)) ==> RaceStep(SwitchTo(s, t), Exec)
  {
    assert ThreadOk(s, t);
    var s1 := SwitchTo(s, t);
    SwitchInv(s, t);
    GuardsAreReal(s1);
    if u: Tid :| u < |s.th| && Passed(s, u, r) {
      assert Passed(s1, u, r);
    }
    hide Inv;
    StepInv(s1, Exec);
  }

  /** A thread that passes the test beside another that has passed it: both then queue the request. */
  lemma {:induction false} PassBeside(s: State, t: Tid, u: Tid, r: Rid) returns (steps: seq<Step>)
    requires Inv(s) && Testing(s, t, r) && Passed(s, u, r)
    ensures IsRun(s, steps) && NoStart(steps) && QueuedTwice(After(s, steps), r)
  {
    assert ThreadOk(s, u);
    hide Inv, IsRun, After, RaceStep;
    Pass(s, t, r);
    var s1 := SwitchTo(s, t);
    SwitchInv(s, t);
    var rest := RaceBreaks(s1);
    OneStep(s, Preempt(t));
    RunConcat(s, [Preempt(t)], [Exec] + rest);
    steps := [Preempt(t)] + ([Exec] + rest);
  }

  /** Two threads at the test of one request: they can both pass it, if need be after it has completed. */
  lemma {:induction false} TwoTesters(s: State, t: Tid, u: Tid, r: Rid) returns (steps: seq<Step>)
    requires Inv(s) && NoRace(s) && t != u && Testing(s, t, r) && Testing(s, u, r) && r < |s.reqs|
    ensures IsRun(s, steps) && NoStart(steps) && QueuedTwice(After(s, steps), r)
  {
    hide Inv, NoRace, IsRun, After, RaceStep, ExecOne;
    var first := Complete(s, r);
    var s1 := After(s, first);
    Pass(s1, u, r);
    var s2 := SwitchTo(s1, u);
    var s3 := ExecOne(s2);
    OneStep(s1, Preempt(u));
    OneStep(s2, Exec);
    RunConcat(s1, [Preempt(u)], [Exec]);
    var last := PassBeside(s3, t, u, r);
    RunConcat(s1, [Preempt(u)] + [Exec], last);
    RunConcat(s, first, [Preempt(u)] + [Exec] + last);
    steps := first + ([Preempt(u)] + [Exec] + last);
  }

  /** Without further calls, the call of `blkio_commit` for `r` can end with `r` in the queue twice. */
  ghost predicate CallRaces(s: State, r: Rid, wait: bool)
    requires Enabled(s, Start(r, wait))
  {
    exists rest :: IsRun(Apply(s, Start(r, wait)), rest) && NoStart(rest)
                   && QueuedTwice(After(Apply(s, Start(r, wait)), rest), r)
  }

  /**
   What a caller has to check, exactly: a call may end with its request queued twice if and
   only if another thread is testing or about to set the request's PENDING flag.
   */
  lemma {:induction false} CallRacesIff(s: State, r: Rid, wait: bool)
    requires Inv(s) && OneInWindow(s) && Enabled(s, Start(r, wait))
    ensures CallRaces(s, r, wait) <==> exists t :: 0 <= t < |s.th| && InWindow(s, t, r)
  {
    var s1 := Apply(s, Start(r, wait));
    StartInv(s, r, wait);
    StartWindow(s, r, wait);
    hide Inv, IsRun, After, OneInWindow, NoRace;
    if t: Tid :| t < |s.th| && InWindow(s, t, r) {
      var rest: seq<Step>;
      if s.th[t].pc.SetPending? {
        rest := PassBeside(s1, s.cur, t, r);
      } else {
        rest := TwoTesters(s1, t, s.cur, r);
      }
    } else {
      forall rest | IsRun(s1, rest) && NoStart(rest) ensures !QueuedTwice(After(s1, rest), r) {
        NoStartIsSerial(s1, rest);
        SerialIsRaceFree(s1, rest);
        RunInv(s1, rest);
        QueueDistinct(After(s1, rest));
      }
    }
  }

  /** A call adds its own thread to those at the test. */
  lemma {:induction false} StartWindow(s: State, r: Rid, wait: bool)
    requires OneInWindow(s) && Enabled(s, Start(r, wait))
    ensures var s1 := Apply(s, Start(r, wait));
            && NoRace(s1) && Testing(s1, s.cur, r)
            && ((forall t: Tid :: !InWindow(s, t, r)) ==> OneInWindow(s1))
            && forall t: Tid :: InWindow(s, t, r) ==> t != s.cur && s1.th[t] == s.th[t]
  {
    var s1 := Apply(s, Start(r, wait));
    forall t: Tid, v: Tid, x: Rid | Passed(s1, t, x) && Passed(s1, v, x) ensures t == v {
      assert InWindow(s, t, x) && InWindow(s, v, x);
    }
    if forall t: Tid :: !InWindow(s, t, r) {
      forall t: Tid, v: Tid, x: Rid | InWindow(s1, t, x) && InWindow(s1, v, x) ensures t == v {
        assert t != s.cur ==> InWindow(s, t, x);
        assert v != s.cur ==> InWindow(s, v, x);
      }
    }
  }

  lemma {:induction false} NoStartIsSerial(s: State, steps: seq<Step>)
    requires IsRun(s, steps) && NoStart(steps)
    ensures Serial(s, steps)
    decreases |steps|
  {
    if steps != [] {
      NoStartIsSerial(Apply(s, steps[0]), steps[1..]);
    }
  }

  /** From the start: as long as the callers keep the rule, the next call is safe exactly when it keeps it too. */
  lemma {:induction false} RuleIsWeakest(s0: State, steps: seq<Step>, r: Rid, wait: bool)
    requires Init(s0) && IsRun(s0, steps) && Serial(s0, steps) && Enabled(After(s0, steps), Start(r, wait))
    ensures RaceFree(s0, steps) && NoDup(After(s0, steps).queue)
    ensures CallRaces(After(s0, steps), r, wait) <==> exists t :: 0 <= t < |s0.th| && InWindow(After(s0, steps), t, r)
  {
    InitInv(s0);
    SerialIsRaceFree(s0, steps);
    RunInv(s0, steps);
    QueueDistinct(After(s0, steps));
    CallRacesIff(After(s0, steps), r, wait);
    SameThreads(s0, steps);
  }

  lemma {:induction false} SameThreads(s: State, steps: seq<Step>)
    requires IsRun(s, steps)
    ensures |After(s, steps).th| == |s.th|
    decreases |steps|
  {
    if steps != [] {
      SameThreads(Apply(s, steps[0]), steps[1..]);
    }
  }
}
