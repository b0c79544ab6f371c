/**
 What a single call of `blkio_commit` does when nobody gets in between, from the call to its
 return or to its sleep: turned away, queued behind others, or handed to the device at once;
 and what the completion interrupt then undoes.
 */
module BlkioCalls {
  import opened Blkio
  import opened BlkioProgress

  /** The steps can be taken from `s` and end in `s'`. */
  ghost predicate Leads(s: State, steps: seq<Step>, s': State) {
    IsRun(s, steps) && After(s, steps) == s'
  }

  lemma {:induction false} LeadsStep(s: State, step: Step)
    requires Enabled(s, step)
    ensures Leads(s, [step], Apply(s, step))
  {
    hide Apply, Enabled;
    OneStep(s, step);
  }

  lemma {:induction false} LeadsOn(s: State, a: seq<Step>, m: State, b: seq<Step>, e: State)
    requires Leads(s, a, m) && Leads(m, b, e)
    ensures Leads(s, a + b, e)
  {
    hide IsRun, After;
    RunConcat(s, a, b);
  }

  /** Lines of the running thread. */
  function Lines(n: nat): seq<Step> { seq(n, i => Exec) }

  lemma {:induction false} LinesOn(s: State, a: nat, m: State, b: nat, e: State)
    requires Leads(s, Lines(a), m) && Leads(m, Lines(b), e)
    ensures Leads(s, Lines(a + b), e)
  {
    hide Leads;
    LeadsOn(s, Lines(a), m, Lines(b), e);
    assert Lines(a) + Lines(b) == Lines(a + b);
  }

  /** One more line in front. */
  lemma {:induction false} LineFirst(s: State, n: nat, e: State)
    requires CanExec(s) && Leads(ExecOne(s), Lines(n), e)
    ensures Leads(s, Lines(n + 1), e)
  {
    hide Leads, CanExec, ExecOne;
    LeadsStep(s, Exec);
    assert [Exec] == Lines(1);
    LinesOn(s, 1, ExecOne(s), n, e);
  }

  lemma {:induction false} NoLines(s: State)
    ensures Leads(s, Lines(0), s)
  {
  }

  /** A thread may call: it runs, is outside the pipeline, and is on no wait queue. */
  predicate MayCall(s: State, r: Rid) {
    && s.cur < |s.th| && s.th[s.cur].pc.Idle? && s.th[s.cur].st == Running && s.th[s.cur].link == Orphan
    && r < |s.reqs|
  }

  /** The caller at line `pc` of its commit of `r`. */
  function Caller(s: State, r: Rid, wait: bool, pc: Pc): Thread
    requires s.cur < |s.th|
  {
    s.th[s.cur].(pc := pc, req := r, wait := wait)
  }

  // ---------------------------------------------------------------- turned away

  /** A request that is pending already: nothing happens. */
  lemma {:induction false} TurnedAway(s: State, r: Rid, wait: bool)
    requires MayCall(s, r) && s.reqs[r].pending
    ensures Leads(s, [Start(r, wait)] + Lines(1), s.(th := s.th[s.cur := Caller(s, r, wait, Idle)]))
  {
    var s1 := Apply(s, Start(r, wait));
    NoLines(ExecOne(s1));
    LineFirst(s1, 0, ExecOne(s1));
    LeadsStep(s, Start(r, wait));
    assert ExecOne(s1) == s.(th := s.th[s.cur := Caller(s, r, wait, Idle)]);
    hide Leads, ExecOne;
    LeadsOn(s, [Start(r, wait)], s1, Lines(1), ExecOne(s1));
  }

  // ---------------------------------------------------------------- putting the request into the queue

  /** `s` with the caller and its request as given. */
  function Now(s: State, r: Rid, me: Thread, q: Req): State
    requires s.cur < |s.th| && r < |s.reqs|
  {
    s.(th := s.th[s.cur := me], reqs := s.reqs[r := q])
  }

  /** The request as a commit leaves it in the queue. */
  function Submitted(q: Req, t: Tid, wait: bool): Req {
    q.(pending := true, shouldWait := wait, at := Queued, accepted := q.accepted + 1,
       waiters := if wait then q.waiters + [t] else q.waiters)
  }

  lemma {:induction false} ThreeLines(s: State)
    requires CanExec(s) && CanExec(ExecOne(s)) && CanExec(ExecOne(ExecOne(s)))
    ensures Leads(s, Lines(3), ExecOne(ExecOne(ExecOne(s))))
  {
    hide ExecOne, CanExec, Leads;
    var e := ExecOne(ExecOne(ExecOne(s)));
    NoLines(e);
    LineFirst(ExecOne(ExecOne(s)), 0, e);
    LineFirst(ExecOne(s), 1, e);
    LineFirst(s, 2, e);
  }

  /** From the test up to the queue lock. */
  lemma {:induction false} Accepts(s: State, me: Thread, q: Req)
    requires s.cur < |s.th| && me.req < |s.reqs|
    requires me.pc.CheckPending? && me.st == Running && !q.pending && me.link == Orphan
    ensures Leads(Now(s, me.req, me, q), Lines(if me.wait then 4 else 3),
                  Now(s, me.req, me.(pc := LockQueue, ticket := q.accepted + 1,
                                     link := if me.wait then On(me.req) else Orphan),
                      Submitted(q, s.cur, me.wait).(at := With(s.cur))))
  {
    var r, t := me.req, s.cur;
    var s1 := Now(s, r, me, q);
    ThreeLines(s1);
    var q' := q.(pending := true, at := With(t), accepted := q.accepted + 1, shouldWait := me.wait);
    var me' := me.(ticket := q.accepted + 1);
    var s4 := Now(s, r, me'.(pc := if me.wait then PrepareWait else LockQueue), q');
    assert ExecOne(ExecOne(ExecOne(s1))) == s4;
    if me.wait {
      var e := Now(s, r, me'.(pc := LockQueue, link := On(r)), q'.(waiters := q.waiters + [t]));
      assert ExecOne(s4) == e;
      hide ExecOne, Leads;
      NoLines(e);
      LineFirst(s4, 0, e);
      LinesOn(s1, 3, s4, 1, e);
    }
  }

  /** From the queue lock to the stall test. */
  lemma {:induction false} Queues(s: State, me: Thread, q: Req)
    requires s.cur < |s.th| && me.req < |s.reqs| && s.lock == None && me.pc.LockQueue? && me.st == Running
    ensures Leads(Now(s, me.req, me, q), Lines(3),
                  Now(s, me.req, me.(pc := CheckStalled), q.(at := Queued)).(queue := s.queue + [me.req]))
  {
    var s1 := Now(s, me.req, me, q);
    ThreeLines(s1);
    assert ExecOne(ExecOne(ExecOne(s1)))
        == Now(s, me.req, me.(pc := CheckStalled), q.(at := Queued)).(queue := s.queue + [me.req]);
  }

  /** The caller once its request is in the queue, at line `pc`. */
  function Waiting(s: State, r: Rid, wait: bool, pc: Pc): Thread
    requires MayCall(s, r)
  {
    s.th[s.cur].(pc := pc, req := r, wait := wait, ticket := s.reqs[r].accepted + 1,
                 link := if wait then On(r) else Orphan)
  }

  /** The call has put its request at the end of the queue and is at line `pc`. */
  function InQueue(s: State, r: Rid, wait: bool, pc: Pc): State
    requires MayCall(s, r)
  {
    Now(s, r, Waiting(s, r, wait, pc), Submitted(s.reqs[r], s.cur, wait)).(queue := s.queue + [r])
  }

  lemma {:induction false} CallQueues(s: State, r: Rid, wait: bool)
    requires MayCall(s, r) && !s.reqs[r].pending && s.lock == None
    ensures Leads(s, [Start(r, wait)] + Lines(if wait then 7 else 6), InQueue(s, r, wait, CheckStalled))
  {
    var me, q := Caller(s, r, wait, CheckPending), s.reqs[r];
    var s1 := Now(s, r, me, q);
    assert Apply(s, Start(r, wait)) == s1;
    LeadsStep(s, Start(r, wait));
    hide Leads;
    var me2, q2 := Waiting(s, r, wait, LockQueue), Submitted(q, s.cur, wait).(at := With(s.cur));
    Accepts(s, me, q);
    Queues(s, me2, q2);
    LinesOn(s1, if wait then 4 else 3, Now(s, r, me2, q2), 3, InQueue(s, r, wait, CheckStalled));
    LeadsOn(s, [Start(r, wait)], s1, Lines(if wait then 7 else 6), InQueue(s, r, wait, CheckStalled));
  }

  // ---------------------------------------------------------------- behind others

  /** A call that waits for its request goes to sleep, one that does not returns. */
  function Done(me: Thread): Thread {
    me.(pc := if me.wait then Away else Idle, st := if me.wait then OnWait else Running)
  }

  /** The end of a call, after the stall test or the scheduling. */
  lemma {:induction false} Ends(s: State, me: Thread)
    requires s.cur < |s.th| && me.req < |s.reqs| && me.st == Running
    requires me.pc == AfterSchedule(me) && (me.wait ==> me.link != Orphan)
    ensures Leads(s.(th := s.th[s.cur := me]), Lines(if me.wait then 2 else 0), s.(th := s.th[s.cur := Done(me)]))
  {
    var s1 := s.(th := s.th[s.cur := me]);
    NoLines(s1);
    if me.wait {
      var s2 := ExecOne(s1);
      var s3 := ExecOne(s2);
      assert s3 == s.(th := s.th[s.cur := Done(me)]);
      hide ExecOne, Leads;
      NoLines(s3);
      LineFirst(s2, 0, s3);
      LineFirst(s1, 1, s3);
    }
  }

  /** The state a call leaves when the device is busy. */
  function Behind(s: State, r: Rid, wait: bool): State
    requires MayCall(s, r)
  {
    Now(s, r, Done(Waiting(s, r, wait, Idle)), Submitted(s.reqs[r], s.cur, wait)).(queue := s.queue + [r])
  }

  /**
   A call that finds a request on the device returns, or sleeps, with its own request last in the
   queue; it hands nothing to the device and changes no other request.
   */
  lemma {:induction false} CallBehind(s: State, r: Rid, wait: bool) returns (n: nat)
    requires MayCall(s, r) && !s.reqs[r].pending && s.lock == None && s.busy != 0
    ensures Leads(s, [Start(r, wait)] + Lines(n), Behind(s, r, wait))
  {
    var k := if wait then 7 else 6;
    var m := InQueue(s, r, wait, CheckStalled);
    var me := Waiting(s, r, wait, if wait then TestWaitq else Idle);
    var m' := m.(th := m.th[s.cur := me]);
    assert CanExec(m) && ExecOne(m) == m';
    Ends(m, me);
    assert m.(th := m.th[s.cur := Done(me)]) == Behind(s, r, wait);
    hide Leads, ExecOne, CanExec;
    CallQueues(s, r, wait);
    LineFirst(m, if wait then 2 else 0, Behind(s, r, wait));
    n := k + if wait then 3 else 1;
    LeadsOn(s, [Start(r, wait)] + Lines(k), m, Lines(n - k), Behind(s, r, wait));
    assert [Start(r, wait)] + Lines(k) + Lines(n - k) == [Start(r, wait)] + Lines(n);
  }

  // ---------------------------------------------------------------- straight to the device

  /** The head of the queue goes to the device. */
  function HandedOver(s: State): State
    requires s.queue != [] && s.queue[0] < |s.reqs|
  {
    s.(queue := s.queue[1..], busy := s.busy + 1,
    reqs := s.reqs[s.queue[0] := s.reqs[s.queue[0]].(busy := true, issued := true, at := Device)])
  }

  /** Three lines and one more. */
  lemma {:induction false} FourLines(s: State, m: State)
    requires Leads(s, Lines(3), m) && CanExec(m)
    ensures Leads(s, Lines(4), ExecOne(m))
  {
    hide Leads, ExecOne, CanExec;
    NoLines(ExecOne(m));
    LineFirst(m, 0, ExecOne(m));
    LinesOn(s, 3, m, 1, ExecOne(m));
  }

  /** `blkio_schedule`, undisturbed, finds a queue that is not empty. */
  lemma {:induction false} FindsHead(s: State, me: Thread)
    requires s.cur < |s.th| && me.req < |s.reqs| && me.st == Running && me.pc.CheckHold?
    requires s.lock == None && s.queue != [] && s.queue[0] < |s.reqs|
    ensures Leads(s.(th := s.th[s.cur := me]), Lines(3), s.(th := s.th[s.cur := me.(pc := Pop)], lock := Some(s.cur)))
  {
    hide Leads;
    var s1 := s.(th := s.th[s.cur := me]);
    ThreeLines(s1);
    assert ExecOne(ExecOne(ExecOne(s1))) == s.(th := s.th[s.cur := me.(pc := Pop)], lock := Some(s.cur));
  }

  /** It takes the head off. */
  lemma {:induction false} Pops(s: State, me: Thread)
    requires s.cur < |s.th| && me.req < |s.reqs| && me.st == Running && me.pc.CheckHold?
    requires s.lock == None && s.queue != [] && s.queue[0] < |s.reqs|
    ensures var h := s.queue[0];
            Leads(s.(th := s.th[s.cur := me]), Lines(4),
                  Now(s, h, me.(pc := MarkBusy, head := h), s.reqs[h].(at := Carried(s.cur)))
                  .(lock := Some(s.cur), queue := s.queue[1..]))
  {
    hide Leads;
    var h := s.queue[0];
    var m := s.(th := s.th[s.cur := me.(pc := Pop)], lock := Some(s.cur));
    FindsHead(s, me);
    FourLines(s.(th := s.th[s.cur := me]), m);
    assert ExecOne(m) == Now(s, h, me.(pc := MarkBusy, head := h), s.reqs[h].(at := Carried(s.cur)))
                         .(lock := Some(s.cur), queue := s.queue[1..]);
  }

  lemma {:induction false} Marks(s: State, me: Thread, q: Req)
    requires s.cur < |s.th| && me.req < |s.reqs| && me.st == Running && me.pc.MarkBusy? && me.head < |s.reqs|
    ensures Leads(Now(s, me.head, me, q).(lock := Some(s.cur)), Lines(3),
                  Now(s, me.head, me.(pc := Handle), q.(busy := true)).(busy := s.busy + 1, lock := None))
  {
    hide Leads;
    var s1 := Now(s, me.head, me, q).(lock := Some(s.cur));
    ThreeLines(s1);
    assert ExecOne(ExecOne(ExecOne(s1)))
        == Now(s, me.head, me.(pc := Handle), q.(busy := true)).(busy := s.busy + 1, lock := None);
  }

  /** And gives it to the device. */
  lemma {:induction false} Hands(s: State, me: Thread, q: Req)
    requires s.cur < |s.th| && me.req < |s.reqs| && me.st == Running && me.pc.MarkBusy? && me.head < |s.reqs|
    ensures Leads(Now(s, me.head, me, q).(lock := Some(s.cur)), Lines(4),
                  Now(s, me.head, me.(pc := AfterSchedule(me)), q.(busy := true, issued := true, at := Device))
                  .(busy := s.busy + 1, lock := None))
  {
    hide Leads;
    var m := Now(s, me.head, me.(pc := Handle), q.(busy := true)).(busy := s.busy + 1, lock := None);
    Marks(s, me, q);
    FourLines(Now(s, me.head, me, q).(lock := Some(s.cur)), m);
    assert ExecOne(m) == Now(s, me.head, me.(pc := AfterSchedule(me)), q.(busy := true, issued := true, at := Device))
                         .(busy := s.busy + 1, lock := None);
  }

  /** The whole of `blkio_schedule` on a queue that is not empty and not locked. */
  lemma {:induction false} Schedules(s: State, me: Thread)
    requires s.cur < |s.th| && me.req < |s.reqs| && me.st == Running && me.pc.CheckHold?
    requires s.lock == None && s.queue != [] && s.queue[0] < |s.reqs|
    ensures Leads(s.(th := s.th[s.cur := me]), Lines(8),
                  HandedOver(s).(th := s.th[s.cur := me.(pc := AfterSchedule(me), head := s.queue[0])]))
  {
    hide Leads;
    var h := s.queue[0];
    var me', q, s' := me.(pc := MarkBusy, head := h), s.reqs[h].(at := Carried(s.cur)), s.(queue := s.queue[1..]);
    Pops(s, me);
    Hands(s', me', q);
    var e := HandedOver(s).(th := s.th[s.cur := me.(pc := AfterSchedule(me), head := h)]);
    assert Now(s', h, me'.(pc := AfterSchedule(me')), q.(busy := true, issued := true, at := Device))
           .(busy := s.busy + 1, lock := None) == e;
    LinesOn(s.(th := s.th[s.cur := me]), 4, Now(s', h, me', q).(lock := Some(s.cur)), 4, e);
  }

  /** The state a call leaves that finds the device idle. */
  function Ahead(s: State, r: Rid, wait: bool): State
    requires MayCall(s, r) && Below(s.queue, |s.reqs|)
  {
    var b := Behind(s, r, wait);
    HandedOver(b).(th := b.th[s.cur := b.th[s.cur].(head := (s.queue + [r])[0])])
  }

  /**
   A call that finds the device idle hands the head of the queue to it: its own request, if the
   queue was empty.
   */
  lemma {:induction false} CallAhead(s: State, r: Rid, wait: bool) returns (n: nat)
    requires MayCall(s, r) && !s.reqs[r].pending && s.lock == None && s.busy == 0 && Below(s.queue, |s.reqs|)
    ensures Leads(s, [Start(r, wait)] + Lines(n), Ahead(s, r, wait))
  {
    hide Leads;
    var k := if wait then 7 else 6;
    var m := InQueue(s, r, wait, CheckStalled);
    var me, h := Waiting(s, r, wait, CheckHold), (s.queue + [r])[0];
    StallTest(s, r, wait);
    Schedules(m, me);
    var me2 := me.(pc := AfterSchedule(me), head := h);
    var m2 := HandedOver(m).(th := m.th[s.cur := me2]);
    Ends(m2, me2);
    assert m2.th[s.cur := me2] == m2.th;
    AheadIs(s, r, wait);
    hide HandedOver, Ahead, CanExec, ExecOne, InQueue, Done, Waiting;
    CallQueues(s, r, wait);
    var j := if wait then 2 else 0;
    LinesOn(m.(th := m.th[s.cur := me]), 8, m2, j, Ahead(s, r, wait));
    LineFirst(m, 8 + j, Ahead(s, r, wait));
    n := k + 9 + j;
    LeadsOn(s, [Start(r, wait)] + Lines(k), m, Lines(9 + j), Ahead(s, r, wait));
    assert [Start(r, wait)] + Lines(k) + Lines(9 + j) == [Start(r, wait)] + Lines(n);
  }

  lemma {:induction false} StallTest(s: State, r: Rid, wait: bool)
    requires MayCall(s, r) && s.lock == None && s.busy == 0
    ensures var m := InQueue(s, r, wait, CheckStalled);
            CanExec(m) && ExecOne(m) == m.(th := m.th[s.cur := Waiting(s, r, wait, CheckHold)])
  {
  }

  lemma {:induction false} AheadIs(s: State, r: Rid, wait: bool)
    requires MayCall(s, r) && Below(s.queue, |s.reqs|)
    ensures var m, me := InQueue(s, r, wait, CheckStalled), Waiting(s, r, wait, CheckHold);
            var m2 := HandedOver(m).(th := m.th[s.cur := me.(pc := AfterSchedule(me), head := m.queue[0])]);
            m2.(th := m2.th[s.cur := Done(m2.th[s.cur])]) == Ahead(s, r, wait)
  {
    assert s.queue != [] ==> s.queue[0] < |s.reqs|;
  }

  // ---------------------------------------------------------------- and back again

  /** A request that is at rest: nobody waits for it and no flag is set. */
  predicate Untouched(q: Req) { !q.pending && !q.busy && !q.issued && q.waiters == [] && q.at == Nowhere }

  /** The state after the interrupt of the only request. */
  lemma {:induction false} IrqUndoes(s: State, r: Rid, wait: bool)
    requires MayCall(s, r) && Untouched(s.reqs[r]) && s.lock == None && s.busy == 0 && s.queue == []
    ensures var a, me, q := Ahead(s, r, wait), Done(Waiting(s, r, wait, Idle)).(head := r, link := Orphan), s.reqs[r];
            && Enabled(a, Irq(r))
            && Apply(a, Irq(r))
            == Now(s, r, me, q.(shouldWait := wait, accepted := q.accepted + 1, completed := q.completed + 1))
  {
    var a := Ahead(s, r, wait);
    assert a.queue == [] && IrqSchedule(a) == a;
    assert Unlink(a.th, a.reqs[r].waiters)
        == if wait then a.th[s.cur := a.th[s.cur].(link := Orphan)] else a.th;
  }

  /**
   A whole request on an idle pipeline: the call, the interrupt and, for a call that waits, its
   return.  All that is left of it is one more acceptance and one more completion.
   */
  lemma {:induction false} CallCompletes(s: State, r: Rid, wait: bool) returns (n: nat)
    requires MayCall(s, r) && Untouched(s.reqs[r]) && s.lock == None && s.busy == 0 && s.queue == []
    ensures var me, q := Waiting(s, r, wait, Idle).(head := r, link := Orphan), s.reqs[r];
            Leads(s, [Start(r, wait)] + Lines(n) + [Irq(r)] + if wait then [Yield(s.cur), Exec] else [],
                  Now(s, r, me, q.(shouldWait := wait, accepted := q.accepted + 1, completed := q.completed + 1)))
  {
    hide Leads;
    var me, q := Waiting(s, r, wait, Idle).(head := r, link := Orphan), s.reqs[r];
    var q' := q.(shouldWait := wait, accepted := q.accepted + 1, completed := q.completed + 1);
    n := CallAhead(s, r, wait);
    var a := Ahead(s, r, wait);
    IrqUndoes(s, r, wait);
    LeadsStep(a, Irq(r));
    var b := Now(s, r, Done(me), q');
    var first := [Start(r, wait)] + Lines(n);
    LeadsOn(s, first, a, [Irq(r)], b);
    if wait {
      WakesUp(s, r, me, q');
      LeadsOn(s, first + [Irq(r)], b, [Yield(s.cur), Exec], Now(s, r, me, q'));
    } else {
      assert first + [Irq(r)] + [] == first + [Irq(r)];
    }
  }

  /** A sleeper that has been let go comes back and returns. */
  lemma {:induction false} WakesUp(s: State, r: Rid, me: Thread, q: Req)
    requires s.cur < |s.th| && r < |s.reqs| && me.req == r && me.wait && me.st == Running && me.link == Orphan
    requires me.pc.Idle?
    ensures Leads(Now(s, r, Done(me), q), [Yield(s.cur), Exec], Now(s, r, me, q))
  {
    var b := Now(s, r, Done(me), q);
    var c := Apply(b, Yield(s.cur));
    assert c == Now(s, r, me.(pc := Back), q);
    assert ExecOne(c) == Now(s, r, me, q);
    hide Leads, ExecOne;
    LeadsStep(b, Yield(s.cur));
    LeadsStep(c, Exec);
    LeadsOn(b, [Yield(s.cur)], c, [Exec], Now(s, r, me, q));
    assert [Yield(s.cur)] + [Exec] == [Yield(s.cur), Exec];
  }

  // ---------------------------------------------------------------- who schedules

  /** In every state, a thread goes into `blkio_schedule` exactly by a stall test that finds the device idle. */
  lemma {:induction false} EntersSchedule(s: State, step: Step, t: Tid)
    requires Enabled(s, step) && t < |s.th|
    ensures |Apply(s, step).th| == |s.th|
    ensures !InSchedule(s.th[t].pc) && InSchedule(Apply(s, step).th[t].pc)
       <==> step == Exec && t == s.cur && s.th[t].pc.CheckStalled? && s.busy == 0
  {
    if step.Exec? {
      if t != s.cur {
        ExecFrame(s);
      }
    }
  }

  /** It backs off, changing nothing, exactly if the queue is locked. */
  lemma {:induction false} BacksOff(s: State)
    requires CanExec(s) && s.th[s.cur].pc.CheckHold?
    ensures var s' := Apply(s, Exec);
            && s' == s.(th := s.th[s.cur := s.th[s.cur].(pc := s'.th[s.cur].pc)])
            && (s.lock.Some? ==> s'.th[s.cur].pc == if s.th[s.cur].wait then TestWaitq else Idle)
            && (s.lock == None ==> s'.th[s.cur].pc == LockSched)
  {
  }

  /** A committer that has been let go before it tests its wait queue returns at once; any other goes to sleep. */
  lemma {:induction false} SleepsIffLinked(s: State)
    requires CanExec(s) && s.th[s.cur].pc.TestWaitq?
    ensures var s' := Apply(s, Exec);
            && s' == s.(th := s.th[s.cur := s.th[s.cur].(pc := s'.th[s.cur].pc)])
            && (s.th[s.cur].link == Orphan ==> s'.th[s.cur].pc == Idle)
            && (s.th[s.cur].link != Orphan ==> s'.th[s.cur].pc == SetOnWait)
  {
  }

  /** What an interrupt does: the head of an unlocked queue takes the place of the completed request. */
  lemma {:induction false} IrqExact(s: State, r: Rid)
    requires Enabled(s, Irq(r))
    ensures var s', q := Apply(s, Irq(r)), s.reqs[r];
            && s'.lock == s.lock && s'.cur == s.cur && |s'.th| == |s.th| && |s'.reqs| == |s.reqs|
            && s'.reqs[r] == q.(pending := false, busy := false, issued := false, at := Nowhere,
                                completed := q.completed + 1, waiters := if q.shouldWait then [] else q.waiters)
            && (forall t :: 0 <= t < |s.th| ==>
                              s'.th[t] == if q.shouldWait && t in q.waiters then s.th[t].(link := Orphan) else s.th[t])
            && (if s.lock == None && s.queue != [] then
                  && s'.queue == s.queue[1..] && s'.busy == s.busy
                  && forall x :: 0 <= x < |s.reqs| && x != r ==>
                       s'.reqs[x] == if x == s.queue[0] then s.reqs[x].(busy := true, issued := true, at := Device)
                                     else s.reqs[x]
                else
                  && s'.queue == s.queue && s'.busy == s.busy - 1
                  && forall x :: 0 <= x < |s.reqs| && x != r ==> s'.reqs[x] == s.reqs[x])
  {
  }
}
