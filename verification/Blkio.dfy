/**
 The block-I/O pipeline of Lunaix and the threads that sleep on it.

 `blkio_commit` appends a request to a shared queue, `blkio_schedule` moves the head
 of the queue to the device, and `blkio_complete` retires it.  Scheduling backs off
 whenever the queue lock is held, and the completion interrupt can land between any
 two lines of any committer.  The protocol is therefore a state machine: one `Exec`
 step is one line of a committer, `Irq` is the whole completion interrupt
 (`blkio_schedule` and then `blkio_complete`), `Preempt` and `Yield` are the scheduler.
 */
module Blkio {

  type Tid = nat
  type Rid = nat

  /** The line a thread is about to run. */
  datatype Pc =
    | Idle
      // blkio_commit
    | CheckPending | SetPending | SetShouldWait | PrepareWait
    | LockQueue | Append | UnlockQueue | CheckStalled
      // blkio_schedule
    | CheckHold | LockSched | CheckEmpty | UnlockEmpty | Pop
    | MarkBusy | CountBusy | UnlockSched | Handle
      // try_wait_check_stall
    | TestWaitq | SetOnWait | Away | Back

  datatype RunState = Ready | Running | OnWait

  /** A thread's own wait-queue node: orphaned, or linked into the queue of a request. */
  datatype Link = Orphan | On(r: Rid)

  datatype Thread = Thread(
    pc: Pc, req: Rid, wait: bool, head: Rid, st: RunState, link: Link,
    ticket: nat)   // auxiliary: the acceptance this commit stands for

  /** Auxiliary: where a pending request currently is. */
  datatype Place = Nowhere | With(t: Tid) | Queued | Carried(t: Tid) | Device

  datatype Req = Req(
    pending: bool, busy: bool, shouldWait: bool,
    issued: bool,              // handed to the device, interrupt outstanding
    waiters: seq<Tid>,
    at: Place,                 // auxiliary, never read by a step
    accepted: nat,             // auxiliary: commits that passed the double-submission test
    completed: nat)            // auxiliary: completions

  datatype Option<T> = None | Some(value: T)

  datatype State = State(
    th: seq<Thread>, reqs: seq<Req>, queue: seq<Rid>,
    busy: int, lock: Option<Tid>, cur: Tid)

  datatype Step =
    | Start(r: Rid, wait: bool)
    | Exec
    | Preempt(next: Tid)
    | Yield(next: Tid)
    | Irq(r: Rid)

  // ---------------------------------------------------------------- steps

  predicate Below(ids: seq<nat>, n: nat) {
    forall i :: 0 <= i < |ids| ==> ids[i] < n
  }

  function SetPc(s: State, pc: Pc): State
    requires s.cur < |s.th|
  {
    s.(th := s.th[s.cur := s.th[s.cur].(pc := pc)])
  }

  function AfterSchedule(me: Thread): Pc {
    if me.wait then TestWaitq else Idle
  }

  predicate CanExec(s: State) {
    && s.cur < |s.th|
    && var me := s.th[s.cur];
    && me.st == Running
    && !me.pc.Idle? && !me.pc.Away?
    && me.req < |s.reqs|
    && (me.pc.LockQueue? || me.pc.LockSched? ==> s.lock == None)
    && (me.pc.Pop? ==> s.queue != [] && s.queue[0] < |s.reqs|)
    && (me.pc.MarkBusy? || me.pc.Handle? ==> me.head < |s.reqs|)
  }

  predicate InCommit(pc: Pc) {
    pc.CheckPending? || pc.SetPending? || pc.SetShouldWait? || pc.PrepareWait?
    || pc.LockQueue? || pc.Append? || pc.UnlockQueue? || pc.CheckStalled?
  }

  predicate InSchedule(pc: Pc) {
    pc.CheckHold? || pc.LockSched? || pc.CheckEmpty? || pc.UnlockEmpty? || pc.Pop?
    || pc.MarkBusy? || pc.CountBusy? || pc.UnlockSched? || pc.Handle?
  }

  /** One line of `blkio_commit`. */
  function ExecCommit(s: State): (s': State)
    requires CanExec(s) && InCommit(s.th[s.cur].pc)
    ensures |s'.th| == |s.th| && |s'.reqs| == |s.reqs| && s'.cur == s.cur
  {
    var t := s.cur;
    var me := s.th[t];
    var r := me.req;
    var q := s.reqs[r];
    match me.pc
    case CheckPending => SetPc(s, if q.pending then Idle else SetPending)
    case SetPending =>
      s.(reqs := s.reqs[r := q.(pending := true, at := With(t), accepted := q.accepted + 1)],
      th := s.th[t := me.(pc := SetShouldWait, ticket := q.accepted + 1)])
    case SetShouldWait =>
      SetPc(s, if me.wait then PrepareWait else LockQueue)
      .(reqs := s.reqs[r := q.(shouldWait := me.wait)])
    case PrepareWait =>
      s.(reqs := s.reqs[r := q.(waiters := q.waiters + [t])],
      th := s.th[t := me.(pc := LockQueue, link := On(r))])
    case LockQueue => SetPc(s, Append).(lock := Some(t))
    case Append =>
      SetPc(s, UnlockQueue).(queue := s.queue + [r], reqs := s.reqs[r := q.(at := Queued)])
    case UnlockQueue => SetPc(s, CheckStalled).(lock := None)
    case CheckStalled =>
      SetPc(s, if s.busy == 0 then CheckHold else AfterSchedule(me))
  }

  /** One line of `blkio_schedule`, called by a committer. */
  function ExecSchedule(s: State): (s': State)
    requires CanExec(s) && InSchedule(s.th[s.cur].pc)
    ensures |s'.th| == |s.th| && |s'.reqs| == |s.reqs| && s'.cur == s.cur
  {
    var t := s.cur;
    var me := s.th[t];
    match me.pc
    case CheckHold =>
      SetPc(s, if s.lock.Some? then AfterSchedule(me) else LockSched)
    case LockSched => SetPc(s, CheckEmpty).(lock := Some(t))
    case CheckEmpty => SetPc(s, if s.queue == [] then UnlockEmpty else Pop)
    case UnlockEmpty => SetPc(s, AfterSchedule(me)).(lock := None)
    case Pop =>
      var h := s.queue[0];
      s.(queue := s.queue[1..], reqs := s.reqs[h := s.reqs[h].(at := Carried(t))],
      th := s.th[t := me.(pc := MarkBusy, head := h)])
    case MarkBusy =>
      SetPc(s, CountBusy).(reqs := s.reqs[me.head := s.reqs[me.head].(busy := true)])
    case CountBusy => SetPc(s, UnlockSched).(busy := s.busy + 1)
    case UnlockSched => SetPc(s, Handle).(lock := None)
    case Handle =>
      SetPc(s, AfterSchedule(me))
      .(reqs := s.reqs[me.head := s.reqs[me.head].(issued := true, at := Device)])
  }

  /** One line of `try_wait_check_stall`. */
  function ExecWait(s: State): (s': State)
    requires CanExec(s) && !InCommit(s.th[s.cur].pc) && !InSchedule(s.th[s.cur].pc)
    ensures |s'.th| == |s.th| && |s'.reqs| == |s.reqs| && s'.cur == s.cur
  {
    var t := s.cur;
    var me := s.th[t];
    match me.pc
    case TestWaitq => SetPc(s, if me.link == Orphan then Idle else SetOnWait)
    case SetOnWait => s.(th := s.th[t := me.(pc := Away, st := OnWait)])
    case Back => SetPc(s, Idle)
  }

  function ExecOne(s: State): (s': State)
    requires CanExec(s)
  {
    var pc := s.th[s.cur].pc;
    if InCommit(pc) then ExecCommit(s)
    else if InSchedule(pc) then ExecSchedule(s)
    else ExecWait(s)
  }

  /** `__try_handle_onwait` for a thread without signals: only a linked sleeper is deferred. */
  predicate Schedulable(me: Thread) {
    me.st == OnWait ==> me.link == Orphan
  }

  /** `schedule`: the outgoing thread keeps its state unless it was running. */
  function SwitchTo(s: State, next: Tid): State
    requires s.cur < |s.th| && next < |s.th|
  {
    var me := s.th[s.cur];
    var th := if me.st == Running then s.th[s.cur := me.(st := Ready)] else s.th;
    s.(th := th[next := th[next].(st := Running)], cur := next)
  }

  /** The scheduling half of the interrupt: take the next request unless the lock is held. */
  function IrqSchedule(s: State): State
    requires Below(s.queue, |s.reqs|)
  {
    if s.lock.Some? || s.queue == [] then s
    else
      var h := s.queue[0];
      s.(queue := s.queue[1..], busy := s.busy + 1,
      reqs := s.reqs[h := s.reqs[h].(busy := true, issued := true, at := Device)])
  }

  /** `pwake_all`: unlink every waiter of the list. */
  function Unlink(th: seq<Thread>, ws: seq<Tid>): (u: seq<Thread>)
    requires Below(ws, |th|)
    ensures |u| == |th|
    ensures forall t :: 0 <= t < |th| ==>
                          u[t] == if t in ws then th[t].(link := Orphan) else th[t]
    decreases |ws|
  {
    if ws == [] then th else Unlink(th[ws[0] := th[ws[0]].(link := Orphan)], ws[1..])
  }

  function IrqComplete(s: State, r: Rid): State
    requires r < |s.reqs|
    requires Below(s.reqs[r].waiters, |s.th|)
  {
    var q := s.reqs[r];
    var q' := q.(pending := false, busy := false, issued := false, at := Nowhere,
                 completed := q.completed + 1);
    if q.shouldWait then
      s.(reqs := s.reqs[r := q'.(waiters := [])], th := Unlink(s.th, q.waiters), busy := s.busy - 1)
    else
      s.(reqs := s.reqs[r := q'], busy := s.busy - 1)
  }

  predicate Enabled(s: State, step: Step) {
    match step
    case Start(r, wait) =>
      && s.cur < |s.th| && s.th[s.cur].pc.Idle? && s.th[s.cur].st == Running
      && r < |s.reqs|
    case Exec => CanExec(s)
    case Preempt(next) =>
      && s.cur < |s.th| && next < |s.th|
      && Schedulable(s.th[next])
    case Yield(next) =>
      && s.cur < |s.th| && next < |s.th|
      && s.th[s.cur].pc.Away?
      && Schedulable(s.th[next])
    case Irq(r) =>
      && r < |s.reqs| && s.reqs[r].issued
      && Below(s.queue, |s.reqs|)
      && Below(s.reqs[r].waiters, |s.th|)
      && (s.queue != [] ==> s.queue[0] != r)
  }

  function Apply(s: State, step: Step): State
    requires Enabled(s, step)
  {
    match step
    case Start(r, wait) =>
      s.(th := s.th[s.cur := s.th[s.cur].(pc := CheckPending, req := r, wait := wait)])
    case Exec => ExecOne(s)
    case Preempt(next) => SwitchTo(s, next)
    case Yield(next) => SwitchTo(SetPc(s, Back), next)
    case Irq(r) => IrqComplete(IrqSchedule(s), r)
  }

  predicate Init(s: State) {
    && s.cur < |s.th|
    && s.queue == [] && s.busy == 0 && s.lock == None
    && (forall t :: 0 <= t < |s.th| ==>
                      && s.th[t].pc.Idle? && s.th[t].link == Orphan
                      && s.th[t].st == if t == s.cur then Running else Ready)
    && (forall r :: 0 <= r < |s.reqs| ==>
                      && !s.reqs[r].pending && !s.reqs[r].busy && !s.reqs[r].issued
                      && s.reqs[r].waiters == [] && s.reqs[r].at == Nowhere
                      && s.reqs[r].accepted == s.reqs[r].completed)
  }

  predicate IsRun(s: State, steps: seq<Step>)
    decreases |steps|
  {
    steps == [] || (Enabled(s, steps[0]) && IsRun(Apply(s, steps[0]), steps[1..]))
  }

  function After(s: State, steps: seq<Step>): State
    requires IsRun(s, steps)
    decreases |steps|
  {
    if steps == [] then s else After(Apply(s, steps[0]), steps[1..])
  }

  // ---------------------------------------------------------------- the race

  /** Thread `t` has passed the double-submission test for `r` and not yet set PENDING. */
  predicate Passed(s: State, t: Tid, r: Rid) {
    t < |s.th| && s.th[t].pc.SetPending? && s.th[t].req == r
  }

  ghost predicate NoRace(s: State) {
    forall t: Tid, u: Tid, r: Rid :: Passed(s, t, r) && Passed(s, u, r) ==> t == u
  }

  /** The running thread passes the test although another has passed it and not yet set PENDING. */
  predicate RaceStep(s: State, step: Step) {
    && step.Exec? && CanExec(s) && s.th[s.cur].pc.CheckPending?
    && !s.reqs[s.th[s.cur].req].pending
    && exists u :: 0 <= u < |s.th| && Passed(s, u, s.th[s.cur].req)
  }

  /** The running thread sets PENDING while another is about to. */
  predicate Clash(s: State, step: Step) {
    && step.Exec? && CanExec(s) && s.th[s.cur].pc.SetPending?
    && exists u :: 0 <= u < |s.th| && u != s.cur && Passed(s, u, s.th[s.cur].req)
  }

  predicate RaceFree(s: State, steps: seq<Step>)
    requires IsRun(s, steps)
    decreases |steps|
  {
    steps == [] || (!RaceStep(s, steps[0]) && RaceFree(Apply(s, steps[0]), steps[1..]))
  }

  // ---------------------------------------------------------------- invariant

  predicate HoldsLock(pc: Pc) {
    pc.Append? || pc.UnlockQueue? || pc.CheckEmpty? || pc.UnlockEmpty? || pc.Pop? || pc.MarkBusy? || pc.CountBusy?
    || pc.UnlockSched?
  }

  /** Between setting PENDING and appending to the queue. */
  predicate Committing(pc: Pc) {
    (pc.SetShouldWait? || pc.PrepareWait? || pc.LockQueue? || pc.Append?)
  }

  /** Between taking the head off the queue and handing it to the device. */
  predicate Carrying(pc: Pc) {
    (pc.MarkBusy? || pc.CountBusy? || pc.UnlockSched? || pc.Handle?)
  }

  /** Between taking the queue lock and the end of the stall check or the scheduling. */
  predicate Active(pc: Pc) {
    pc.Append? || pc.UnlockQueue? || pc.CheckStalled? || pc.CheckHold? || pc.LockSched? || pc.CheckEmpty? || pc.Pop?
    || pc.MarkBusy? || pc.CountBusy?
  }

  predicate Accepted(pc: Pc) {
    !pc.Idle? && !pc.CheckPending? && !pc.SetPending?
  }

  predicate Prepared(pc: Pc) {
    Accepted(pc) && !pc.SetShouldWait? && !pc.PrepareWait?
  }

  /** Lock ownership, the request in hand, and the scheduler's view of a thread. */
  predicate ControlOk(s: State, t: Tid) {
    && t < |s.th|
    && var me := s.th[t];
    && (HoldsLock(me.pc) <==> s.lock == Some(t))
    && (!me.pc.Idle? ==> me.req < |s.reqs|)
    && (Committing(me.pc) ==> s.reqs[me.req].at == With(t))
    && (Carrying(me.pc) ==> me.head < |s.reqs| && s.reqs[me.head].at == Carried(t))
    && (me.pc.SetPending? ==> !s.reqs[me.req].pending)
    && (me.pc.UnlockEmpty? ==> s.queue == [])
    && (me.pc.Pop? ==> s.queue != [])
    && (me.st == OnWait ==> me.pc.Away? || me.pc.Back?)
    && (me.st == Running ==> t == s.cur)
    && (t == s.cur ==> me.st != Ready)
  }

  /** The commit stands for the latest acceptance of its request. */
  predicate Latest(s: State, me: Thread) {
    Accepted(me.pc) && me.req < |s.reqs| && me.ticket == s.reqs[me.req].accepted
  }

  /** What a committer that asked to wait can rely on. */
  predicate WaitOk(s: State, t: Tid) {
    && t < |s.th|
    && var me := s.th[t];
    && (!me.pc.Idle? ==> me.req < |s.reqs|)
    && (me.pc.PrepareWait? || me.pc.TestWaitq? || me.pc.SetOnWait? || me.pc.Away? || me.pc.Back? ==> me.wait)
    && (Accepted(me.pc) ==> me.ticket <= s.reqs[me.req].accepted)
    && (Committing(me.pc) ==> me.ticket == s.reqs[me.req].accepted)
    && (Latest(s, me) && !me.pc.SetShouldWait? ==> s.reqs[me.req].shouldWait == me.wait)
    && (me.link != Orphan ==>
          && Prepared(me.pc) && me.wait && me.link == On(me.req) && Latest(s, me)
          && s.reqs[me.req].pending && s.reqs[me.req].waiters == [t])
    && (Prepared(me.pc) && me.wait && Latest(s, me) && s.reqs[me.req].pending ==> me.link == On(me.req))
    && (me.st != OnWait && (me.pc.Away? || me.pc.Back?) ==> me.link == Orphan)
  }

  predicate ThreadOk(s: State, t: Tid) {
    ControlOk(s, t) && WaitOk(s, t)
  }

  predicate ReqOk(s: State, r: Rid) {
    && r < |s.reqs|
    && var q := s.reqs[r];
    && (q.pending <==> q.at != Nowhere)
    && (q.issued <==> q.at == Device)
    && (q.at.With? ==> q.at.t < |s.th| && Committing(s.th[q.at.t].pc) && s.th[q.at.t].req == r)
    && (q.at.Carried? ==> q.at.t < |s.th| && Carrying(s.th[q.at.t].pc) && s.th[q.at.t].head == r)
    && (q.busy <==> q.at == Device || (q.at.Carried? && !s.th[q.at.t].pc.MarkBusy?))
    && (q.at == Queued <==> r in s.queue)
    && q.accepted == q.completed + (if q.pending then 1 else 0)
    && (q.waiters != [] ==>
          && q.waiters == [q.waiters[0]] && q.waiters[0] < |s.th|
          && s.th[q.waiters[0]].link == On(r))
    && (q.pending && q.shouldWait && !(q.at.With? && (s.th[q.at.t].pc.SetShouldWait? || s.th[q.at.t].pc.PrepareWait?)) ==>
          q.waiters != [])
  }

  predicate NoDup(q: seq<Rid>) {
    forall i, j :: 0 <= i < j < |q| ==> q[i] != q[j]
  }

  predicate InFlight(s: State, r: Rid)
    requires r < |s.reqs|
  {
    var p := s.reqs[r].at;
    p == Device || (p.Carried? && p.t < |s.th| && (s.th[p.t].pc.UnlockSched? || s.th[p.t].pc.Handle?))
  }

  function InFlightSet(s: State): set<Rid> {
    set r: Rid | r < |s.reqs| && InFlight(s, r)
  }

  /** Two accepted commits of one request stand for different acceptances. */
  predicate SameTicket(a: Thread, b: Thread) {
    Accepted(a.pc) && Accepted(b.pc) && a.req == b.req && a.ticket == b.ticket
  }

  predicate OneCommitEach(s: State) {
    forall t, u :: 0 <= t < u < |s.th| ==> !SameTicket(s.th[t], s.th[u])
  }

  /** A queued request always has somebody left to move it. */
  predicate NotStranded(s: State) {
    s.queue != [] ==> s.busy > 0 || exists t :: 0 <= t < |s.th| && Active(s.th[t].pc)
  }

  predicate Inv(s: State) {
    && s.cur < |s.th|
    && (forall t: Tid {:trigger ThreadOk(s, t)} :: t < |s.th| ==> ThreadOk(s, t))
    && (forall r: Rid {:trigger ReqOk(s, r)} :: r < |s.reqs| ==> ReqOk(s, r))
    && (s.lock.Some? ==> s.lock.value < |s.th|)
    && Below(s.queue, |s.reqs|)
    && NoDup(s.queue)
    && OneCommitEach(s)
    && s.busy == |InFlightSet(s)|
    && NotStranded(s)
  }

  lemma InitInv(s: State)
    requires Init(s)
    ensures Inv(s) && NoRace(s)
  {
    assert InFlightSet(s) == {};
  }

  /** A committer about to enqueue itself finds the wait queue of its request empty. */
  lemma NoOtherWaiter(s: State, t: Tid)
    requires Inv(s) && t < |s.th| && s.th[t].pc.PrepareWait?
    ensures s.th[t].req < |s.reqs| && s.reqs[s.th[t].req].waiters == []
  {
    var r := s.th[t].req;
    assert ThreadOk(s, t);
    assert ReqOk(s, r);
    if s.reqs[r].waiters != [] {
      var w := s.reqs[r].waiters[0];
      assert ThreadOk(s, w);
      TicketsDiffer(s, t, w);
      assert false;
    }
  }

  lemma TicketsDiffer(s: State, t: Tid, u: Tid)
    requires OneCommitEach(s) && t < |s.th| && u < |s.th| && SameTicket(s.th[t], s.th[u])
    ensures t == u
  {
    assert SameTicket(s.th[u], s.th[t]);
  }

  lemma CommitSelf(s: State)
    requires CanExec(s) && InCommit(s.th[s.cur].pc)
    requires ControlOk(s, s.cur) && ReqOk(s, s.th[s.cur].req)
    requires s.th[s.cur].pc.PrepareWait? ==> s.reqs[s.th[s.cur].req].waiters == []
    ensures ControlOk(ExecCommit(s), s.cur)
  {
  }

  lemma CommitSelfWait(s: State)
    requires CanExec(s) && InCommit(s.th[s.cur].pc)
    requires ThreadOk(s, s.cur) && ReqOk(s, s.th[s.cur].req)
    requires s.th[s.cur].pc.PrepareWait? ==> s.reqs[s.th[s.cur].req].waiters == []
    ensures WaitOk(ExecCommit(s), s.cur)
  {
  }

  lemma CommitOther(s: State, t: Tid)
    requires CanExec(s) && InCommit(s.th[s.cur].pc)
    requires ControlOk(s, s.cur) && ControlOk(s, t) && ReqOk(s, s.th[s.cur].req) && t != s.cur
    requires s.th[s.cur].pc.SetPending? ==> !Passed(s, t, s.th[s.cur].req)
    ensures ControlOk(ExecCommit(s), t)
  {
  }

  lemma CommitOtherWait(s: State, t: Tid)
    requires CanExec(s) && InCommit(s.th[s.cur].pc)
    requires ThreadOk(s, s.cur) && ThreadOk(s, t) && ReqOk(s, s.th[s.cur].req) && t != s.cur
    requires !SameTicket(s.th[t], s.th[s.cur])
    requires s.th[s.cur].pc.PrepareWait? ==> s.reqs[s.th[s.cur].req].waiters == []
    ensures WaitOk(ExecCommit(s), t)
  {
  }

  lemma CommitReq(s: State, r: Rid)
    requires CanExec(s) && InCommit(s.th[s.cur].pc)
    requires ThreadOk(s, s.cur) && ReqOk(s, r)
    requires s.th[s.cur].pc.PrepareWait? ==> s.reqs[s.th[s.cur].req].waiters == []
    ensures ReqOk(ExecCommit(s), r)
  {
  }

  lemma ScheduleSelf(s: State)
    requires CanExec(s) && InSchedule(s.th[s.cur].pc)
    requires ControlOk(s, s.cur)
    requires s.th[s.cur].pc.Pop? ==> ReqOk(s, s.queue[0])
    ensures ControlOk(ExecSchedule(s), s.cur)
  {
  }

  lemma ScheduleSelfWait(s: State)
    requires CanExec(s) && InSchedule(s.th[s.cur].pc)
    requires WaitOk(s, s.cur)
    requires s.th[s.cur].pc.Pop? ==> ReqOk(s, s.queue[0])
    ensures WaitOk(ExecSchedule(s), s.cur)
  {
  }

  lemma ScheduleOther(s: State, t: Tid)
    requires CanExec(s) && InSchedule(s.th[s.cur].pc)
    requires ThreadOk(s, s.cur) && ThreadOk(s, t) && t != s.cur
    requires s.th[s.cur].pc.Pop? ==> ReqOk(s, s.queue[0])
    ensures ThreadOk(ExecSchedule(s), t)
  {
  }

  lemma ScheduleReq(s: State, r: Rid)
    requires CanExec(s) && InSchedule(s.th[s.cur].pc)
    requires ControlOk(s, s.cur) && ReqOk(s, r) && NoDup(s.queue)
    ensures ReqOk(ExecSchedule(s), r)
  {
    if s.th[s.cur].pc.Pop? {
      PopReq(s, r);
    }
  }

  lemma PopReq(s: State, r: Rid)
    requires CanExec(s) && s.th[s.cur].pc.Pop?
    requires ControlOk(s, s.cur) && ReqOk(s, r) && NoDup(s.queue)
    ensures ReqOk(ExecSchedule(s), r)
  {
  }

  lemma WaitSelf(s: State)
    requires CanExec(s) && !InCommit(s.th[s.cur].pc) && !InSchedule(s.th[s.cur].pc)
    requires ThreadOk(s, s.cur)
    ensures ThreadOk(ExecWait(s), s.cur)
  {
  }

  lemma WaitOther(s: State, t: Tid)
    requires CanExec(s) && !InCommit(s.th[s.cur].pc) && !InSchedule(s.th[s.cur].pc)
    requires ThreadOk(s, s.cur) && ThreadOk(s, t) && t != s.cur
    ensures ThreadOk(ExecWait(s), t)
  {
  }

  lemma WaitReq(s: State, r: Rid)
    requires CanExec(s) && !InCommit(s.th[s.cur].pc) && !InSchedule(s.th[s.cur].pc)
    requires ThreadOk(s, s.cur) && ReqOk(s, r)
    ensures ReqOk(ExecWait(s), r)
  {
  }

  // -------------------------------------------------- one line keeps the invariant

  lemma ExecThread(s: State, t: Tid)
    requires Inv(s) && CanExec(s) && t < |s.th| && !Clash(s, Exec)
    ensures ThreadOk(ExecOne(s), t)
  {
    var pc := s.th[s.cur].pc;
    assert ThreadOk(s, t) && ThreadOk(s, s.cur) && ReqOk(s, s.th[s.cur].req);
    assert pc.Pop? ==> ReqOk(s, s.queue[0]);
    assert t != s.cur ==> !SameTicket(s.th[t], s.th[s.cur]);
    if pc.PrepareWait? { NoOtherWaiter(s, s.cur); }
    if InCommit(pc) {
      if t == s.cur { CommitSelf(s); CommitSelfWait(s); } else { CommitOther(s, t); CommitOtherWait(s, t); }
    } else if InSchedule(pc) {
      if t == s.cur { ScheduleSelf(s); ScheduleSelfWait(s); } else { ScheduleOther(s, t); }
    } else {
      if t == s.cur { WaitSelf(s); } else { WaitOther(s, t); }
    }
  }

  lemma ExecReq(s: State, r: Rid)
    requires Inv(s) && CanExec(s) && r < |s.reqs|
    ensures ReqOk(ExecOne(s), r)
  {
    var pc := s.th[s.cur].pc;
    assert ThreadOk(s, s.cur) && ReqOk(s, r);
    if pc.PrepareWait? { NoOtherWaiter(s, s.cur); }
    if InCommit(pc) {
      CommitReq(s, r);
    } else if InSchedule(pc) {
      ScheduleReq(s, r);
    } else {
      WaitReq(s, r);
    }
  }

  lemma CommitFlight(s: State, r: Rid)
    requires CanExec(s) && InCommit(s.th[s.cur].pc)
    requires ControlOk(s, s.cur) && ReqOk(s, r)
    ensures InFlight(ExecCommit(s), r) <==> InFlight(s, r)
  {
  }

  lemma ScheduleFlight(s: State, r: Rid)
    requires CanExec(s) && InSchedule(s.th[s.cur].pc)
    requires ControlOk(s, s.cur) && ReqOk(s, r)
    ensures InFlight(ExecSchedule(s), r) <==>
            InFlight(s, r) || (s.th[s.cur].pc.CountBusy? && r == s.th[s.cur].head)
  {
  }

  /** Only `busy++` changes which requests count as in flight. */
  lemma ExecFlight(s: State, r: Rid)
    requires Inv(s) && CanExec(s) && r < |s.reqs|
    ensures |ExecOne(s).reqs| == |s.reqs|
    ensures InFlight(ExecOne(s), r) <==>
            InFlight(s, r) || (s.th[s.cur].pc.CountBusy? && r == s.th[s.cur].head)
  {
    assert ThreadOk(s, s.cur) && ReqOk(s, r);
    if InCommit(s.th[s.cur].pc) {
      CommitFlight(s, r);
    } else if InSchedule(s.th[s.cur].pc) {
      ScheduleFlight(s, r);
    }
  }

  lemma ExecCount(s: State)
    requires CanExec(s)
    ensures ExecOne(s).busy == s.busy + (if s.th[s.cur].pc.CountBusy? then 1 else 0)
    ensures |ExecOne(s).reqs| == |s.reqs|
  {
  }

  lemma ExecBusy(s: State)
    requires Inv(s) && CanExec(s)
    ensures ExecOne(s).busy == |InFlightSet(ExecOne(s))|
  {
    hide ExecOne;
    var s' := ExecOne(s);
    ExecCount(s);
    forall r: Rid | r < |s.reqs|
      ensures InFlight(s', r) <==>
              InFlight(s, r) || (s.th[s.cur].pc.CountBusy? && r == s.th[s.cur].head)
    {
      ExecFlight(s, r);
    }
    assert ThreadOk(s, s.cur);
    if s.th[s.cur].pc.CountBusy? {
      assert InFlightSet(s') == InFlightSet(s) + {s.th[s.cur].head};
    } else {
      assert InFlightSet(s') == InFlightSet(s);
    }
  }

  /** A line touches no thread but the running one, and never the request it commits. */
  lemma ExecFrame(s: State)
    requires CanExec(s)
    ensures var s' := ExecOne(s);
            && |s'.th| == |s.th| && |s'.reqs| == |s.reqs| && s'.th == s.th[s.cur := s'.th[s.cur]]
            && s'.th[s.cur].req == s.th[s.cur].req
            && (s'.lock == s.lock || s'.lock == None || s'.lock == Some(s.cur))
            && s'.queue == (if s.th[s.cur].pc.Append? then s.queue + [s.th[s.cur].req]
                            else if s.th[s.cur].pc.Pop? then s.queue[1..] else s.queue)
  {
  }

  lemma ExecQueue(s: State)
    requires Inv(s) && CanExec(s)
    ensures var s' := ExecOne(s);
            && Below(s'.queue, |s'.reqs|) && NoDup(s'.queue) && OneCommitEach(s')
            && (s'.lock.Some? ==> s'.lock.value < |s'.th|)
  {
    ExecFrame(s);
    ExecTicket(s);
    assert ThreadOk(s, s.cur) && ReqOk(s, s.th[s.cur].req);
    forall t, u | 0 <= t < u < |s.th| ensures !SameTicket(ExecOne(s).th[t], ExecOne(s).th[u]) {
      assert ThreadOk(s, t) && ThreadOk(s, u) && !SameTicket(s.th[t], s.th[u]);
    }
  }

  /** A line gives its thread a new ticket exactly when it sets PENDING. */
  lemma ExecTicket(s: State)
    requires CanExec(s)
    ensures |ExecOne(s).th| == |s.th|
    ensures var me, me' := s.th[s.cur], ExecOne(s).th[s.cur];
            && (me.pc.SetPending? ==> Accepted(me'.pc) && me'.ticket == s.reqs[me.req].accepted + 1)
            && (!me.pc.SetPending? ==> me'.ticket == me.ticket && (Accepted(me'.pc) ==> Accepted(me.pc)))
  {
  }

  /** If the queue could be left behind, somebody is still on the way to schedule it. */
  lemma ExecNotStranded(s: State)
    requires Inv(s) && CanExec(s)
    ensures NotStranded(ExecOne(s))
  {
    var s' := ExecOne(s);
    var me := s.th[s.cur];
    assert ThreadOk(s, s.cur);
    if s'.queue != [] && s'.busy == 0 {
      if Active(s'.th[s.cur].pc) {
      } else if Active(me.pc) {
        // the lock was held, so its holder is still active
        assert me.pc.CheckHold?;
        assert ThreadOk(s, s.lock.value);
        HolderNotIdle(s);
        assert Active(s'.th[s.lock.value].pc);
      } else {
        assert s'.queue == s.queue && s'.busy == s.busy;
        var t :| 0 <= t < |s.th| && Active(s.th[t].pc);
        assert Active(s'.th[t].pc);
      }
    }
  }

  /** Whoever holds the lock over a non-empty queue will schedule it, unless it just did. */
  lemma HolderNotIdle(s: State)
    requires Inv(s) && s.lock.Some? && s.queue != []
    requires forall x :: x in InFlightSet(s) ==> s.reqs[x].at == Device
    ensures Active(s.th[s.lock.value].pc)
  {
    var h := s.lock.value;
    assert ThreadOk(s, h);
    if s.th[h].pc.UnlockSched? {
      CarriedInFlight(s, h);
      assert false;
    }
  }

  lemma CarriedInFlight(s: State, t: Tid)
    requires Inv(s) && t < |s.th| && (s.th[t].pc.UnlockSched? || s.th[t].pc.Handle?)
    ensures s.th[t].head in InFlightSet(s) && s.reqs[s.th[t].head].at == Carried(t)
  {
    assert ThreadOk(s, t);
  }

  lemma ExecInv(s: State)
    requires Inv(s) && CanExec(s) && !Clash(s, Exec)
    ensures Inv(ExecOne(s))
  {
    var s' := ExecOne(s);
    forall t: Tid | t < |s'.th| ensures ThreadOk(s', t) { ExecThread(s, t); }
    forall r: Rid | r < |s'.reqs| ensures ReqOk(s', r) { ExecReq(s, r); }
    ExecQueue(s);
    ExecBusy(s);
    ExecNotStranded(s);
  }

  // ------------------------------------------ the interrupt and the scheduler keep it

  lemma IrqScheduleThread(s: State, t: Tid)
    requires Below(s.queue, |s.reqs|) && s.lock == None && s.queue != []
    requires ReqOk(s, s.queue[0]) && ThreadOk(s, t)
    ensures ThreadOk(IrqSchedule(s), t)
  {
  }

  lemma IrqScheduleReq(s: State, x: Rid)
    requires Below(s.queue, |s.reqs|) && NoDup(s.queue) && ReqOk(s, x)
    ensures ReqOk(IrqSchedule(s), x)
  {
  }

  lemma IrqScheduleInv(s: State, r: Rid)
    requires Inv(s) && Enabled(s, Irq(r))
    ensures var s' := IrqSchedule(s);
            && Inv(s') && s'.th == s.th && |s'.reqs| == |s.reqs|
            && s'.reqs[r] == s.reqs[r]
            && (s'.queue == [] || s'.lock.Some? || s'.busy > 1)
  {
    var s' := IrqSchedule(s);
    assert ReqOk(s, r);
    assert r in InFlightSet(s);
    if s' != s {
      var h := s.queue[0];
      assert ReqOk(s, h);
      assert InFlightSet(s') == InFlightSet(s) + {h};
      hide ThreadOk, ReqOk;
      forall t: Tid | t < |s'.th| ensures ThreadOk(s', t) { IrqScheduleThread(s, t); }
      forall x: Rid | x < |s'.reqs| ensures ReqOk(s', x) { IrqScheduleReq(s, x); }
      assert {h, r} <= InFlightSet(s');
      SubsetSize({h, r}, InFlightSet(s'));
    }
  }

  lemma SubsetSize<T>(a: set<T>, b: set<T>)
    requires a <= b
    ensures |a| <= |b|
  {
    assert b == a + (b - a);
  }

  lemma CompleteThread(s: State, r: Rid, t: Tid)
    requires ThreadOk(s, t) && ReqOk(s, r) && s.reqs[r].issued && Below(s.reqs[r].waiters, |s.th|)
    ensures ThreadOk(IrqComplete(s, r), t)
  {
  }

  lemma CompleteReq(s: State, r: Rid, x: Rid)
    requires ReqOk(s, x) && ReqOk(s, r) && s.reqs[r].issued && Below(s.reqs[r].waiters, |s.th|)
    ensures ReqOk(IrqComplete(s, r), x)
  {
  }

  lemma IrqCompleteInv(s: State, r: Rid)
    requires Inv(s) && r < |s.reqs| && s.reqs[r].issued
    requires Below(s.reqs[r].waiters, |s.th|)
    requires s.queue == [] || s.lock.Some? || s.busy > 1
    ensures Inv(IrqComplete(s, r))
  {
    var s' := IrqComplete(s, r);
    assert ReqOk(s, r);
    forall t: Tid | t < |s'.th| ensures ThreadOk(s', t) {
      assert ThreadOk(s, t);
      CompleteThread(s, r, t);
    }
    forall x: Rid | x < |s'.reqs| ensures ReqOk(s', x) {
      assert ReqOk(s, x);
      CompleteReq(s, r, x);
    }
    assert r in InFlightSet(s);
    assert InFlightSet(s') == InFlightSet(s) - {r};
    if s'.queue != [] && s'.busy == 0 {
      assert InFlightSet(s) == {r} + InFlightSet(s');
      HolderNotIdle(s);
      assert Active(s'.th[s.lock.value].pc);
    }
  }

  lemma SwitchInv(s: State, next: Tid)
    requires Inv(s) && next < |s.th| && Schedulable(s.th[next])
    ensures Inv(SwitchTo(s, next))
  {
    var s' := SwitchTo(s, next);
    SamePlaces(s, s');
    forall t: Tid | t < |s'.th| ensures ThreadOk(s', t) {
      assert ThreadOk(s, t);
    }
  }

  /** Steps of the scheduler leave every request, lock and program counter alone. */
  predicate SameButRunState(s: State, s': State) {
    && s'.reqs == s.reqs && s'.queue == s.queue && s'.busy == s.busy && s'.lock == s.lock
    && s'.cur < |s'.th| == |s.th|
    && forall t :: 0 <= t < |s.th| ==> s'.th[t].(st := s.th[t].st) == s.th[t]
  }

  lemma SamePlaces(s: State, s': State)
    requires Inv(s) && SameButRunState(s, s')
    ensures forall r: Rid {:trigger ReqOk(s', r)} :: r < |s'.reqs| ==> ReqOk(s', r)
    ensures OneCommitEach(s') && s'.busy == |InFlightSet(s')| && NotStranded(s')
  {
    forall r: Rid | r < |s'.reqs| ensures ReqOk(s', r) { assert ReqOk(s, r); }
    assert InFlightSet(s') == InFlightSet(s);
    if s.queue != [] && s.busy <= 0 {
      var t :| 0 <= t < |s.th| && Active(s.th[t].pc);
      assert Active(s'.th[t].pc);
    }
  }

  /** A thread that changes only between lines where nothing is owed keeps the invariant. */
  lemma SelfOnlyInv(s: State, me: Thread)
    requires Inv(s) && (s.th[s.cur].pc.Idle? || s.th[s.cur].pc.Away?)
    requires !Active(me.pc) && !Committing(me.pc) && !Carrying(me.pc)
    requires ThreadOk(s.(th := s.th[s.cur := me]), s.cur)
    requires me.link == s.th[s.cur].link
    requires Accepted(me.pc) ==> Accepted(s.th[s.cur].pc) && me.req == s.th[s.cur].req && me.ticket == s.th[s.cur].ticket
    ensures Inv(s.(th := s.th[s.cur := me]))
  {
    var s' := s.(th := s.th[s.cur := me]);
    assert ThreadOk(s, s.cur);
    forall t: Tid | t < |s'.th| ensures ThreadOk(s', t) { assert ThreadOk(s, t); }
    forall r: Rid | r < |s'.reqs| ensures ReqOk(s', r) { assert ReqOk(s, r); }
    forall t, u | 0 <= t < u < |s.th| ensures !SameTicket(s'.th[t], s'.th[u]) {
      assert !SameTicket(s.th[t], s.th[u]);
    }
    forall r: Rid | r < |s.reqs| ensures InFlight(s', r) <==> InFlight(s, r) { assert ReqOk(s, r); }
    assert InFlightSet(s') == InFlightSet(s);
    if s.queue != [] && s.busy <= 0 {
      var t :| 0 <= t < |s.th| && Active(s.th[t].pc);
      assert Active(s'.th[t].pc);
    }
  }

  lemma StartInv(s: State, r: Rid, wait: bool)
    requires Inv(s) && Enabled(s, Start(r, wait))
    ensures Inv(Apply(s, Start(r, wait)))
  {
    assert ThreadOk(s, s.cur);
    SelfOnlyInv(s, s.th[s.cur].(pc := CheckPending, req := r, wait := wait));
  }

  lemma YieldInv(s: State, next: Tid)
    requires Inv(s) && Enabled(s, Yield(next))
    ensures Inv(Apply(s, Yield(next)))
  {
    var s1 := SetPc(s, Back);
    assert ThreadOk(s, s.cur);
    SelfOnlyInv(s, s.th[s.cur].(pc := Back));
    SwitchInv(s1, next);
  }

  // ---------------------------------------------------------------- safety

  /** Every step keeps the invariant, except one that sets PENDING while another thread is about to. */
  lemma StepInv(s: State, step: Step)
    requires Inv(s) && Enabled(s, step) && !Clash(s, step)
    ensures Inv(Apply(s, step))
  {
    match step
    case Start(r, wait) => StartInv(s, r, wait);
    case Exec => ExecInv(s);
    case Preempt(next) => SwitchInv(s, next);
    case Yield(next) => YieldInv(s, next);
    case Irq(r) =>
      IrqScheduleInv(s, r);
      IrqCompleteInv(IrqSchedule(s), r);
  }

  /** Without a race step nobody passes the test twice, so nothing clashes either. */
  lemma StepNoRace(s: State, step: Step)
    requires NoRace(s) && Enabled(s, step) && !RaceStep(s, step)
    ensures NoRace(Apply(s, step)) && !Clash(s, step)
  {
    var s' := Apply(s, step);
    forall t: Tid, u: Tid, r: Rid | Passed(s', t, r) && Passed(s', u, r) ensures t == u {
      PassedBefore(s, step, t, r);
      PassedBefore(s, step, u, r);
      assert Passed(s, t, r) && Passed(s, u, r) ==> t == u;
    }
    if Clash(s, step) {
      assert Passed(s, s.cur, s.th[s.cur].req);
    }
  }

  /** A line leads to setting PENDING only from the test, and never back to the test. */
  lemma ExecWindow(s: State)
    requires CanExec(s)
    ensures |ExecOne(s).th| == |s.th| && !ExecOne(s).th[s.cur].pc.CheckPending?
    ensures ExecOne(s).th[s.cur].pc.SetPending? ==> s.th[s.cur].pc.CheckPending? && !s.reqs[s.th[s.cur].req].pending
  {
  }

  /** A thread that has passed the test did so before the step, or by it. */
  lemma PassedBefore(s: State, step: Step, t: Tid, r: Rid)
    requires Enabled(s, step) && Passed(Apply(s, step), t, r)
    ensures || Passed(s, t, r)
            || (step.Exec? && t == s.cur && s.th[t].pc.CheckPending? && s.th[t].req == r && !s.reqs[r].pending)
  {
    hide ExecOne, CanExec;
    if step.Exec? {
      ExecFrame(s);
      ExecWindow(s);
    }
  }

  lemma RunInv(s: State, steps: seq<Step>)
    requires Inv(s) && NoRace(s) && IsRun(s, steps) && RaceFree(s, steps)
    ensures Inv(After(s, steps)) && NoRace(After(s, steps))
    decreases |steps|
  {
    if steps != [] {
      StepNoRace(s, steps[0]);
      StepInv(s, steps[0]);
      RunInv(Apply(s, steps[0]), steps[1..]);
    }
  }

  predicate BeingCommitted(s: State, r: Rid) {
    exists t :: 0 <= t < |s.th| && Committing(s.th[t].pc) && s.th[t].req == r
  }

  predicate BeingPopped(s: State, r: Rid) {
    exists t :: 0 <= t < |s.th| && (s.th[t].pc.MarkBusy? || s.th[t].pc.CountBusy?) && s.th[t].head == r
  }

  predicate OnDevice(s: State, r: Rid)
    requires r < |s.reqs|
  {
    || s.reqs[r].issued
    || exists t :: 0 <= t < |s.th| && (s.th[t].pc.UnlockSched? || s.th[t].pc.Handle?) && s.th[t].head == r
  }

  /** How many of the four places of the pipeline hold a request. */
  function Places(s: State, r: Rid): nat
    requires r < |s.reqs|
  {
    (if BeingCommitted(s, r) then 1 else 0) + (if r in s.queue then 1 else 0)
    + (if BeingPopped(s, r) then 1 else 0) + (if OnDevice(s, r) then 1 else 0)
  }

  lemma PlaceOf(s: State, r: Rid)
    requires Inv(s) && r < |s.reqs|
    ensures BeingCommitted(s, r) <==> s.reqs[r].at.With?
    ensures r in s.queue <==> s.reqs[r].at == Queued
    ensures OnDevice(s, r) <==> InFlight(s, r)
    ensures BeingPopped(s, r) <==> s.reqs[r].at.Carried? && !InFlight(s, r)
  {
    assert ReqOk(s, r);
    var p := s.reqs[r].at;
    if p.With? {
      assert Committing(s.th[p.t].pc) && s.th[p.t].req == r;
    }
    if p.Carried? {
      assert Carrying(s.th[p.t].pc) && s.th[p.t].head == r;
    }
    if BeingCommitted(s, r) {
      var t :| 0 <= t < |s.th| && Committing(s.th[t].pc) && s.th[t].req == r;
      assert ThreadOk(s, t);
    }
    forall t: Tid | t < |s.th| && Carrying(s.th[t].pc) && s.th[t].head == r
      ensures p == Carried(t)
    {
      assert ThreadOk(s, t);
    }
  }

  /**
   No request is stranded: in every interleaving a non-empty queue has an operation in
   flight or a committer on its way to schedule it; a pending request sits in exactly one
   place (being committed, queued once, being popped, on the device), any other request in
   none; and `busy` counts the requests on the device.
   */
  lemma NoStrandedIo(s0: State, steps: seq<Step>)
    requires Init(s0) && IsRun(s0, steps) && RaceFree(s0, steps)
    ensures var s := After(s0, steps);
            && (s.queue != [] ==> s.busy > 0 || exists t :: 0 <= t < |s.th| && Active(s.th[t].pc))
            && NoDup(s.queue)
            && (forall r: Rid :: r < |s.reqs| ==> Places(s, r) == if s.reqs[r].pending then 1 else 0)
            && s.busy == |set r: Rid | r < |s.reqs| && OnDevice(s, r)|
  {
    InitInv(s0);
    RunInv(s0, steps);
    var s := After(s0, steps);
    forall r: Rid | r < |s.reqs|
      ensures Places(s, r) == if s.reqs[r].pending then 1 else 0
      ensures OnDevice(s, r) <==> InFlight(s, r)
    {
      PlaceOf(s, r);
      assert ReqOk(s, r);
    }
    assert InFlightSet(s) == set r: Rid | r < |s.reqs| && OnDevice(s, r);
  }

  /** A waiter whose own acceptance has been completed will be picked up by the scheduler. */
  predicate NeverDeferred(s: State, t: Tid)
    requires t < |s.th|
  {
    var me := s.th[t];
    Accepted(me.pc) ==>
      && me.req < |s.reqs|
      && (me.wait && s.reqs[me.req].completed >= me.ticket ==> Schedulable(me))
  }

  /** The running line ends a commit that asked to wait. */
  predicate WaitReturns(s: State) {
    CanExec(s) && s.th[s.cur].wait && ExecOne(s).th[s.cur].pc.Idle?
  }

  /**
   No wake-up is lost.  The assertion in `blkio_complete` holds whenever the interrupt
   lands; a waiting committer returns with its request still pending exactly when the
   double-submission test turned it away; and once the acceptance it stands for has been
   completed, the scheduler never defers it again.
   */
  lemma NoLostWakeup(s0: State, steps: seq<Step>)
    requires Init(s0) && IsRun(s0, steps) && RaceFree(s0, steps)
    ensures var s := After(s0, steps);
            && (forall r: Rid :: r < |s.reqs| && s.reqs[r].issued && s.reqs[r].shouldWait ==>
                                   s.reqs[r].waiters != [])
            && (WaitReturns(s) ==>
                  var me := s.th[s.cur];
                  if me.pc.CheckPending? then s.reqs[me.req].pending else s.reqs[me.req].completed >= me.ticket)
            && (forall t: Tid :: t < |s.th| ==> NeverDeferred(s, t))
  {
    InitInv(s0);
    RunInv(s0, steps);
    var s := After(s0, steps);
    forall r: Rid | r < |s.reqs| && s.reqs[r].issued && s.reqs[r].shouldWait
      ensures s.reqs[r].waiters != []
    {
      assert ReqOk(s, r);
    }
    forall t: Tid | t < |s.th| ensures NeverDeferred(s, t) {
      assert ThreadOk(s, t);
      if Accepted(s.th[t].pc) { assert ReqOk(s, s.th[t].req); }
    }
    if WaitReturns(s) {
      assert ThreadOk(s, s.cur) && ReqOk(s, s.th[s.cur].req);
      ReturnPoints(s);
    }
  }

  /** A commit that asked to wait ends only at these three lines. */
  lemma ReturnPoints(s: State)
    requires WaitReturns(s)
    ensures var me := s.th[s.cur];
            || (me.pc.CheckPending? && s.reqs[me.req].pending)
            || (me.pc.TestWaitq? && me.link == Orphan)
            || me.pc.Back?
  {
  }

  /** `prepare_to_wait` never finds the current thread already waiting. */
  lemma PrepareAssertHolds(s0: State, steps: seq<Step>, t: Tid)
    requires Init(s0) && IsRun(s0, steps) && RaceFree(s0, steps)
    requires t < |After(s0, steps).th| && After(s0, steps).th[t].pc.PrepareWait?
    ensures After(s0, steps).th[t].link == Orphan
  {
    InitInv(s0);
    RunInv(s0, steps);
    assert ThreadOk(After(s0, steps), t);
  }
}
