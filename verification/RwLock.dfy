/**
 The reader/writer lock of kernel/ds/rwlock.c as a state machine: any number of threads, one
 atomic operation per step.  A waiting thread may look again at any time, which covers every
 order of wake-ups.
 */
module RwLock {
  /** Where a thread is; each name says what the thread has done last. */
  datatype Pc =
    | Idle           // outside
    | WantRead       // begin_read: about to test and set the flag
    | ReadFlag       // begin_read: got the flag, about to add itself
    | ReadAdded      // begin_read: added, about to clear the flag
    | Reading        // between begin_read and end_read
    | LeavingRead    // end_read: past the assertion, about to subtract itself
    | WantWrite      // begin_write: about to test and set the flag
    | Draining       // begin_write: got the flag, waiting for the readers to leave
    | Writing        // between begin_write and end_write
    | Failed         // an assertion failed

  datatype Lock = Lock(writer: bool, readers: int, pcs: seq<Pc>)

  datatype Step = BeginRead(t: nat) | BeginWrite(t: nat) | Exec(t: nat)

  predicate Enabled(s: Lock, step: Step) {
    && step.t < |s.pcs|
    && (if step.Exec? then s.pcs[step.t] != Idle && s.pcs[step.t] != Failed else s.pcs[step.t] == Idle)
  }

  function Goto(s: Lock, t: nat, pc: Pc): Lock
    requires t < |s.pcs|
  {
    s.(pcs := s.pcs[t := pc])
  }

  /** The next atomic operation of thread `t`.  A failed test leaves it where it is. */
  function ExecOne(s: Lock, t: nat): Lock
    requires t < |s.pcs|
  {
    match s.pcs[t]
    case WantRead => if s.writer then s else Goto(s, t, ReadFlag).(writer := true)
    case ReadFlag => Goto(s, t, ReadAdded).(readers := s.readers + 1)
    case ReadAdded => Goto(s, t, Reading).(writer := false)
    case Reading => Goto(s, t, if s.readers > 0 then LeavingRead else Failed)
    case LeavingRead => Goto(s, t, Idle).(readers := s.readers - 1)
    case WantWrite => if s.writer then s else Goto(s, t, Draining).(writer := true)
    case Draining => if s.readers != 0 then s else Goto(s, t, Writing)
    case Writing => Goto(s, t, Idle).(writer := false)
    case Idle => s
    case Failed => s
  }

  function Apply(s: Lock, step: Step): Lock
    requires Enabled(s, step)
  {
    match step
    case BeginRead(t) => Goto(s, t, WantRead)
    case BeginWrite(t) => Goto(s, t, WantWrite)
    case Exec(t) => ExecOne(s, t)
  }

  predicate Next(s: Lock, step: Step, s': Lock) { Enabled(s, step) && Apply(s, step) == s' }

  function Init(n: nat): Lock { Lock(false, 0, seq(n, i => Idle)) }

  /** A run of `n` threads that takes `steps` and ends in `s`. */
  ghost predicate Reaches(n: nat, steps: seq<Step>, s: Lock) {
    if steps == [] then s == Init(n)
    else
      var before, last := steps[..|steps| - 1], steps[|steps| - 1];
      exists r :: Reaches(n, before, r) && Next(r, last, s)
  }

  // ---------------------------------------------------------------- counting threads

  function HoldsFlag(pc: Pc): nat { if pc in {ReadFlag, ReadAdded, Draining, Writing} then 1 else 0 }

  function IsReader(pc: Pc): nat { if pc in {ReadAdded, Reading, LeavingRead} then 1 else 0 }

  function Count(pcs: seq<Pc>, f: Pc -> nat): nat {
    if pcs == [] then 0 else f(pcs[0]) + Count(pcs[1..], f)
  }

  lemma {:induction false} CountUpdate(pcs: seq<Pc>, f: Pc -> nat, t: nat, pc: Pc)
    requires t < |pcs|
    ensures Count(pcs[t := pc], f) == Count(pcs, f) - f(pcs[t]) + f(pc)
  {
    if t == 0 {
      assert pcs[0 := pc][1..] == pcs[1..];
    } else {
      assert pcs[t := pc][1..] == pcs[1..][t - 1 := pc];
      CountUpdate(pcs[1..], f, t - 1, pc);
    }
  }

  lemma {:induction false} CountsOne(pcs: seq<Pc>, f: Pc -> nat, t: nat)
    requires t < |pcs|
    ensures f(pcs[t]) <= Count(pcs, f)
  {
    if t > 0 {
      CountsOne(pcs[1..], f, t - 1);
    }
  }

  lemma {:induction false} CountsTwo(pcs: seq<Pc>, f: Pc -> nat, t: nat, u: nat)
    requires t < |pcs| && u < |pcs| && t != u
    ensures f(pcs[t]) + f(pcs[u]) <= Count(pcs, f)
  {
    if t == 0 {
      CountsOne(pcs[1..], f, u - 1);
    } else if u == 0 {
      CountsOne(pcs[1..], f, t - 1);
    } else {
      CountsTwo(pcs[1..], f, t - 1, u - 1);
    }
  }

  // ---------------------------------------------------------------- the invariant

  /** The flag counts its holders, `readers` counts the readers, and a writer has drained them. */
  ghost predicate Inv(s: Lock) {
    && Count(s.pcs, HoldsFlag) == (if s.writer then 1 else 0)
    && Count(s.pcs, IsReader) == s.readers
    && (forall t :: 0 <= t < |s.pcs| && s.pcs[t] == Writing ==> s.readers == 0)
    && (forall t :: 0 <= t < |s.pcs| ==> s.pcs[t] != Failed)
  }

  lemma {:induction false} ExecInv(s: Lock, t: nat)
    requires Inv(s) && t < |s.pcs|
    ensures Inv(ExecOne(s, t))
  {
    var s' := ExecOne(s, t);
    CountsOne(s.pcs, IsReader, t);
    CountsOne(s.pcs, HoldsFlag, t);
    CountUpdate(s.pcs, IsReader, t, s'.pcs[t]);
    CountUpdate(s.pcs, HoldsFlag, t, s'.pcs[t]);
    assert s'.pcs == s.pcs[t := s'.pcs[t]];
    forall u | 0 <= u < |s'.pcs| && s'.pcs[u] == Writing ensures s'.readers == 0 {
      if u != t {
        CountsTwo(s.pcs, HoldsFlag, t, u);
        CountsOne(s.pcs, IsReader, t);
      }
    }
  }

  lemma {:induction false} StepInv(s: Lock, step: Step)
    requires Inv(s) && Enabled(s, step)
    ensures Inv(Apply(s, step)) && |Apply(s, step).pcs| == |s.pcs|
  {
    if step.Exec? {
      ExecInv(s, step.t);
    } else {
      var pc := if step.BeginRead? then WantRead else WantWrite;
      CountUpdate(s.pcs, IsReader, step.t, pc);
      CountUpdate(s.pcs, HoldsFlag, step.t, pc);
    }
  }

  lemma {:induction false} InitInv(n: nat)
    ensures Inv(Init(n))
  {
    IdleCounts(n);
  }

  lemma {:induction false} IdleCounts(n: nat)
    ensures Count(Init(n).pcs, HoldsFlag) == 0 && Count(Init(n).pcs, IsReader) == 0
  {
    if n > 0 {
      IdleCounts(n - 1);
      assert Init(n).pcs[1..] == Init(n - 1).pcs;
    }
  }

  lemma {:induction false} RunInv(n: nat, steps: seq<Step>, s: Lock)
    requires Reaches(n, steps, s)
    ensures Inv(s) && |s.pcs| == n
    decreases |steps|
  {
    hide Inv, Apply;
    if steps == [] {
      InitInv(n);
    } else {
      var step := steps[|steps| - 1];
      var r :| Reaches(n, steps[..|steps| - 1], r) && Next(r, step, s);
      RunInv(n, steps[..|steps| - 1], r);
      StepInv(r, step);
    }
  }

  /**
   In every reachable state a writer past its drain loop shares the lock with no reader and no
   other writer, the flag is set exactly when one thread holds it, `readers` is the number of
   threads between the add and the subtract, and the assertion in end_read has not failed.
   */
  lemma {:induction false} MutualExclusion(n: nat, steps: seq<Step>, s: Lock)
    requires Reaches(n, steps, s)
    ensures |s.pcs| == n
    ensures forall t, u :: 0 <= t < n && 0 <= u < n && t != u && s.pcs[t] == Writing ==>
                             s.pcs[u] !in {ReadFlag, ReadAdded, Reading, LeavingRead, Draining, Writing}
    ensures s.writer <==> exists t :: 0 <= t < n && HoldsFlag(s.pcs[t]) == 1
    ensures forall t, u :: 0 <= t < n && 0 <= u < n && HoldsFlag(s.pcs[t]) == 1 && HoldsFlag(s.pcs[u]) == 1 ==> t == u
    ensures s.readers == Count(s.pcs, IsReader)
    ensures forall t :: 0 <= t < n ==> s.pcs[t] != Failed
  {
    RunInv(n, steps, s);
    forall t, u | 0 <= t < n && 0 <= u < n && t != u && s.pcs[t] == Writing
      ensures s.pcs[u] !in {ReadFlag, ReadAdded, Reading, LeavingRead, Draining, Writing}
    {
      CountsTwo(s.pcs, HoldsFlag, t, u);
      CountsOne(s.pcs, IsReader, u);
    }
    forall t, u | 0 <= t < n && 0 <= u < n && HoldsFlag(s.pcs[t]) == 1 && HoldsFlag(s.pcs[u]) == 1 ensures t == u {
      if t != u {
        CountsTwo(s.pcs, HoldsFlag, t, u);
      }
    }
    if t :| 0 <= t < n && HoldsFlag(s.pcs[t]) == 1 {
      CountsOne(s.pcs, HoldsFlag, t);
    } else {
      CountsNone(s.pcs);
    }
  }

  lemma {:induction false} CountsNone(pcs: seq<Pc>)
    requires forall t :: 0 <= t < |pcs| ==> HoldsFlag(pcs[t]) != 1
    ensures Count(pcs, HoldsFlag) == 0
  {
    if pcs != [] {
      assert HoldsFlag(pcs[0]) == 0;
      CountsNone(pcs[1..]);
    }
  }

  // ---------------------------------------------------------------- what the lock lets through

  /** Taking `steps` from `s` ends in `s'`. */
  ghost predicate Leads(s: Lock, steps: seq<Step>, s': Lock)
    decreases |steps|
  {
    if steps == [] then s == s' else Enabled(s, steps[0]) && Leads(Apply(s, steps[0]), steps[1..], s')
  }

  /** A reader on a lock whose flag is clear gets in, whoever else reads; the flag is clear again. */
  lemma {:induction false} ReaderEnters(s: Lock, t: nat)
    requires t < |s.pcs| && s.pcs[t] == Idle && !s.writer
    ensures Leads(s, [BeginRead(t), Exec(t), Exec(t), Exec(t)], Goto(s, t, Reading).(readers := s.readers + 1))
  {
    var s1 := Apply(s, BeginRead(t));
    var s2 := Apply(s1, Exec(t));
    var s3 := Apply(s2, Exec(t));
    var s4 := Apply(s3, Exec(t));
    assert s4 == Goto(s, t, Reading).(readers := s.readers + 1);
    FourSteps(s, BeginRead(t), Exec(t), Exec(t), Exec(t));
  }

  lemma {:induction false} FourSteps(s: Lock, a: Step, b: Step, c: Step, d: Step)
    requires Enabled(s, a) && Enabled(Apply(s, a), b) && Enabled(Apply(Apply(s, a), b), c)
    requires Enabled(Apply(Apply(Apply(s, a), b), c), d)
    ensures Leads(s, [a, b, c, d], Apply(Apply(Apply(Apply(s, a), b), c), d))
  {
    hide Enabled, Apply;
    assert [a, b, c, d][1..] == [b, c, d] && [b, c, d][1..] == [c, d] && [c, d][1..] == [d] && [d][1..] == [];
    var e := Apply(Apply(Apply(Apply(s, a), b), c), d);
    assert Leads(e, [], e);
    assert Leads(Apply(Apply(Apply(s, a), b), c), [d], e);
    assert Leads(Apply(Apply(s, a), b), [c, d], e);
  }

  lemma {:induction false} LeadsOn(s: Lock, a: seq<Step>, m: Lock, b: seq<Step>, e: Lock)
    requires Leads(s, a, m) && Leads(m, b, e)
    ensures Leads(s, a + b, e)
    decreases |a|
  {
    if a == [] {
      assert a + b == b;
    } else {
      assert (a + b)[1..] == a[1..] + b;
      LeadsOn(Apply(s, a[0]), a[1..], m, b, e);
    }
  }

  /** Two readers can be in at the same time. */
  lemma {:induction false} ReadersShare(s: Lock, t: nat, u: nat) returns (steps: seq<Step>)
    requires t < |s.pcs| && u < |s.pcs| && t != u && s.pcs[t] == Idle && s.pcs[u] == Idle && !s.writer
    ensures Leads(s, steps, Goto(Goto(s, t, Reading), u, Reading).(readers := s.readers + 2))
  {
    hide Leads;
    ReaderEnters(s, t);
    var m := Goto(s, t, Reading).(readers := s.readers + 1);
    ReaderEnters(m, u);
    steps := [BeginRead(t), Exec(t), Exec(t), Exec(t)] + [BeginRead(u), Exec(u), Exec(u), Exec(u)];
    LeadsOn(s, [BeginRead(t), Exec(t), Exec(t), Exec(t)], m, [BeginRead(u), Exec(u), Exec(u), Exec(u)],
            Goto(m, u, Reading).(readers := m.readers + 1));
  }

  lemma {:induction false} TwoSteps(s: Lock, a: Step, b: Step)
    requires Enabled(s, a) && Enabled(Apply(s, a), b)
    ensures Leads(s, [a, b], Apply(Apply(s, a), b))
  {
    hide Enabled, Apply;
    assert [a, b][1..] == [b] && [b][1..] == [];
    assert Leads(Apply(s, a), [b], Apply(Apply(s, a), b));
  }

  /** A reader leaves, and the lock is as if it had not come. */
  lemma {:induction false} ReaderLeaves(s: Lock, t: nat)
    requires t < |s.pcs| && s.pcs[t] == Reading && s.readers > 0
    ensures Leads(s, [Exec(t), Exec(t)], Goto(s, t, Idle).(readers := s.readers - 1))
  {
    TwoSteps(s, Exec(t), Exec(t));
    assert Apply(Apply(s, Exec(t)), Exec(t)) == Goto(s, t, Idle).(readers := s.readers - 1);
  }

  /** A writer on a free lock gets in and keeps the flag; when it leaves, the lock is free as before. */
  lemma {:induction false} WriterEnters(s: Lock, t: nat)
    requires t < |s.pcs| && s.pcs[t] == Idle && !s.writer && s.readers == 0
    ensures Leads(s, [BeginWrite(t), Exec(t), Exec(t)], Goto(s, t, Writing).(writer := true))
    ensures Leads(s, [BeginWrite(t), Exec(t), Exec(t), Exec(t)], s)
  {
    var s1 := Apply(s, BeginWrite(t));
    var s3 := Goto(s, t, Writing).(writer := true);
    TwoSteps(s1, Exec(t), Exec(t));
    assert Apply(Apply(s1, Exec(t)), Exec(t)) == s3;
    assert [BeginWrite(t), Exec(t), Exec(t)][1..] == [Exec(t), Exec(t)];
    FourSteps(s, BeginWrite(t), Exec(t), Exec(t), Exec(t));
    assert Apply(s3, Exec(t)).pcs == s.pcs;
  }

  /** Whoever wants in while the flag is set stays outside; so does a writer while there are readers. */
  lemma {:induction false} KeptOut(s: Lock, t: nat)
    requires t < |s.pcs|
    ensures s.pcs[t] in {WantRead, WantWrite} && s.writer ==> Apply(s, Exec(t)) == s
    ensures s.pcs[t] == Draining && s.readers != 0 ==> Apply(s, Exec(t)) == s
    ensures s.pcs[t] == Reading ==> (Apply(s, Exec(t)).pcs[t] == Failed <==> s.readers < 1)
  {
  }
}
