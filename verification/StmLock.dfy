/**
 * The lock strategies of Core/ThreadSafe/stm32_lock.h that mask interrupts:
 * strategy 2 (PRIMASK, the header's default) and strategy 4 (BASEPRI, the one
 * that the build settings select).  Both implement a lock that saves the
 * current mask, raises it, and restores it on release.  STM32_LOCK_BLOCK, which
 * never returns, is a machine state in which nothing happens any more.
 */
module StmLock {
  import opened Wrappers

  /** Locks are numbered; an operation names the lock it is applied to. */
  datatype Op = Acquire(lock: nat) | Release(lock: nat)

  // ------------------------------------ the lock that saves the mask

  /** The interrupt mask and, per lock, the masks saved by its acquisitions, oldest first. */
  datatype Machine = Machine(mask: nat, saved: seq<seq<nat>>, blocked: bool)

  /**
   * What a strategy writes to raise the mask, how many acquisitions of one lock
   * it can remember, and whether it checks that before it raises the mask.
   */
  datatype Strategy = Strategy(raised: nat, capacity: nat, checksFirst: bool)

  const PRIMASK_STRATEGY := Strategy(1, 255, false)
  const BASEPRI_STRATEGY := Strategy(0x50, 2, true)

  function Step(m: Machine, op: Op, s: Strategy): Machine
    requires op.lock < |m.saved|
  {
    var saved := m.saved[op.lock];
    if m.blocked then m
    else if op.Acquire? then
      if |saved| >= s.capacity then m.(blocked := true)
      else m.(mask := s.raised, saved := m.saved[op.lock := saved + [m.mask]])
    else
      if saved == [] then m.(blocked := true)
      else m.(mask := saved[|saved| - 1], saved := m.saved[op.lock := saved[..|saved| - 1]])
  }

  predicate InRange(ops: seq<Op>, locks: nat)
  {
    forall i :: 0 <= i < |ops| ==> ops[i].lock < locks
  }

  function Run(m: Machine, ops: seq<Op>, s: Strategy): (r: Machine)
    requires InRange(ops, |m.saved|)
    ensures |r.saved| == |m.saved|
  {
    if ops == [] then m
    else Step(Run(m, ops[..|ops| - 1], s), ops[|ops| - 1], s)
  }

  function Fresh(mask: nat, locks: nat): Machine
  {
    Machine(mask, seq(locks, _ => []), false)
  }

  // -------------------------------------------- well-nested traces

  /** The locks held after a trace, in the order of acquisition; None if a release is not of the latest one. */
  function Holding(ops: seq<Op>): Option<seq<nat>>
  {
    if ops == [] then Some([])
    else
      var before := Holding(ops[..|ops| - 1]);
      var op := ops[|ops| - 1];
      if before.None? then None
      else if op.Acquire? then Some(before.value + [op.lock])
      else if before.value != [] && before.value[|before.value| - 1] == op.lock then
        Some(before.value[..|before.value| - 1])
      else None
  }

  function Count(held: seq<nat>, lock: nat): nat
  {
    if held == [] then 0
    else Count(held[..|held| - 1], lock) + (if held[|held| - 1] == lock then 1 else 0)
  }

  lemma {:induction false} CountPush(held: seq<nat>, lock: nat)
    ensures forall l :: Count(held + [lock], l) == Count(held, l) + if l == lock then 1 else 0
  {
    assert (held + [lock])[..|held|] == held;
  }

  /** The masks a lock has saved when `held` is what is held: the outermost acquisition saw `mask`, all others the raised one. */
  function SavedFor(held: seq<nat>, lock: nat, mask: nat, raised: nat): (r: seq<nat>)
    ensures |r| == Count(held, lock)
  {
    if held == [] then []
    else
      SavedFor(held[..|held| - 1], lock, mask, raised)
      + (if held[|held| - 1] == lock then [if |held| == 1 then mask else raised] else [])
  }

  /** What the machine holds when `held` is what is held. */
  predicate MasksFor(m: Machine, held: seq<nat>, mask: nat, raised: nat)
  {
    && m.mask == (if held == [] then mask else raised)
    && forall l :: 0 <= l < |m.saved| ==> m.saved[l] == SavedFor(held, l, mask, raised)
  }

  lemma {:induction false} AcquireMasks(m: Machine, held: seq<nat>, lock: nat, mask: nat, s: Strategy)
    requires lock < |m.saved| && !m.blocked && MasksFor(m, held, mask, s.raised) && !Step(m, Acquire(lock), s).blocked
    ensures MasksFor(Step(m, Acquire(lock), s), held + [lock], mask, s.raised)
  {
    assert (held + [lock])[..|held|] == held;
  }

  lemma {:induction false} ReleaseMasks(m: Machine, held: seq<nat>, lock: nat, mask: nat, s: Strategy)
    requires lock < |m.saved| && !m.blocked && MasksFor(m, held + [lock], mask, s.raised)
    ensures !Step(m, Release(lock), s).blocked && MasksFor(Step(m, Release(lock), s), held, mask, s.raised)
  {
    assert (held + [lock])[..|held|] == held;
    var saved := m.saved[lock];
    assert saved == SavedFor(held, lock, mask, s.raised) + [if held == [] then mask else s.raised];
    assert saved[..|saved| - 1] == SavedFor(held, lock, mask, s.raised);
  }

  /**
   * For any well-nested trace over any number of locks: the mask is raised
   * while anything is held and at its starting value when nothing is, and every
   * lock remembers exactly the masks it will restore, or the trace has blocked.
   */
  lemma {:induction false} WellNestedMask(mask: nat, locks: nat, ops: seq<Op>, s: Strategy)
    requires InRange(ops, locks) && Holding(ops).Some?
    ensures var m := Run(Fresh(mask, locks), ops, s);
            var held := Holding(ops).value;
            !m.blocked ==> MasksFor(m, held, mask, s.raised)
    decreases |ops|
  {
    hide MasksFor;
    if ops != [] {
      var n := |ops| - 1;
      WellNestedMask(mask, locks, ops[..n], s);
      var m := Run(Fresh(mask, locks), ops[..n], s);
      var before, held, l := Holding(ops[..n]).value, Holding(ops).value, ops[n].lock;
      if !Run(Fresh(mask, locks), ops, s).blocked {
        if ops[n].Acquire? {
          AcquireMasks(m, before, l, mask, s);
        } else {
          assert before == held + [l];
          ReleaseMasks(m, held, l, mask, s);
        }
      }
    } else {
      FreshMasks(mask, locks, s);
    }
  }

  lemma {:induction false} FreshMasks(mask: nat, locks: nat, s: Strategy)
    ensures MasksFor(Fresh(mask, locks), [], mask, s.raised)
  {
  }

  /** After some prefix of the trace a lock is held more often than its strategy can remember. */
  predicate TooDeep(ops: seq<Op>, locks: nat, s: Strategy)
  {
    ops != [] &&
    (TooDeep(ops[..|ops| - 1], locks, s) ||
     (Holding(ops).Some? && exists l :: 0 <= l < locks && Count(Holding(ops).value, l) > s.capacity))
  }

  /** A well-nested trace reaches the blocked state exactly when it nests some lock too deeply. */
  lemma {:induction false} WellNestedBlocks(mask: nat, locks: nat, ops: seq<Op>, s: Strategy)
    requires InRange(ops, locks) && Holding(ops).Some?
    ensures Run(Fresh(mask, locks), ops, s).blocked <==> TooDeep(ops, locks, s)
    ensures !TooDeep(ops, locks, s) ==> forall l :: 0 <= l < locks ==> Count(Holding(ops).value, l) <= s.capacity
    decreases |ops|
  {
    if ops != [] {
      var n := |ops| - 1;
      var before, held := Holding(ops[..n]).value, Holding(ops).value;
      WellNestedBlocks(mask, locks, ops[..n], s);
      WellNestedMask(mask, locks, ops[..n], s);
      var l := ops[n].lock;
      if ops[n].Acquire? {
        CountPush(before, l);
        assert Count(held, l) == Count(before, l) + 1;
      } else {
        assert before == held + [l];
        CountPush(held, l);
      }
    }
  }

  // ------------------------------------------------- strategy 2, PRIMASK

  /** LockingData_t: the PRIMASK bit at nesting level 0 and the nesting level, one byte each. */
  datatype LockData = LockData(flag: bool, counter: nat)

  /** stm32_lock_acquire once interrupts are off and `flag` holds the earlier PRIMASK bit; None is STM32_LOCK_BLOCK. */
  function Acquired(lock: LockData, flag: bool): Option<LockData>
  {
    if lock.counter == 0 then Some(LockData(flag, 1))
    else if lock.counter == 255 then None
    else Some(lock.(counter := lock.counter + 1))
  }

  /** stm32_lock_release up to the decision whether to enable interrupts, which is the second component. */
  function Released(lock: LockData): Option<(LockData, bool)>
  {
    if lock.counter == 0 then None
    else Some((lock.(counter := lock.counter - 1), lock.counter == 1 && !lock.flag))
  }

  datatype Cpu = Cpu(primask: bool, locks: seq<LockData>, blocked: bool)

  function Exec(c: Cpu, op: Op): Cpu
    requires op.lock < |c.locks|
  {
    if c.blocked then c
    else match op
      case Acquire(l) =>
        (match Acquired(c.locks[l], c.primask)
         case None => c.(primask := true, blocked := true)
         case Some(lock) => c.(primask := true, locks := c.locks[l := lock]))
      case Release(l) =>
        (match Released(c.locks[l])
         case None => c.(primask := true, blocked := true)
         case Some((lock, enable)) =>
           c.(primask := c.primask && !enable, locks := c.locks[l := lock]))
  }

  function ExecAll(c: Cpu, ops: seq<Op>): (r: Cpu)
    requires InRange(ops, |c.locks|)
    ensures |r.locks| == |c.locks|
  {
    if ops == [] then c else Exec(ExecAll(c, ops[..|ops| - 1]), ops[|ops| - 1])
  }

  function FreshCpu(primask: bool, locks: nat): Cpu
  {
    Cpu(primask, seq(locks, _ => LockData(false, 0)), false)
  }

  function Bit(b: bool): nat { if b then 1 else 0 }

  /** The masks a flag and a counter stand for: the flag, and the raised mask for every deeper level. */
  function SavedMasks(lock: LockData): (r: seq<nat>)
    ensures |r| == lock.counter
  {
    if lock.counter == 0 then [] else [Bit(lock.flag)] + seq(lock.counter - 1, _ => 1)
  }

  function View(c: Cpu): Machine
  {
    Machine(Bit(c.primask), seq(|c.locks|, i requires 0 <= i < |c.locks| => SavedMasks(c.locks[i])), c.blocked)
  }

  /** As long as interrupts are masked while the lock is held, an operation of strategy 2 is one of the mask-saving lock. */
  lemma {:induction false} ExecRefinesStep(c: Cpu, op: Op)
    requires op.lock < |c.locks| && c.locks[op.lock].counter <= 255
    requires c.locks[op.lock].counter > 0 ==> c.primask
    ensures var m := Step(View(c), op, PRIMASK_STRATEGY);
            Exec(c, op).blocked == m.blocked && (!m.blocked ==> View(Exec(c, op)) == m)
  {
    var m := Step(View(c), op, PRIMASK_STRATEGY);
    var lock := c.locks[op.lock];
    if !m.blocked {
      if op.Acquire? {
        assert SavedMasks(Acquired(lock, c.primask).value) == SavedMasks(lock) + [Bit(c.primask)];
      } else {
        assert SavedMasks(Released(lock).value.0) == SavedMasks(lock)[..lock.counter - 1];
      }
      assert View(Exec(c, op)).saved == m.saved;
    }
  }

  /** On every well-nested trace strategy 2, with its single flag per lock, does what the mask-saving lock does. */
  lemma {:induction false} PrimaskRefines(primask: bool, locks: nat, ops: seq<Op>)
    requires InRange(ops, locks) && Holding(ops).Some?
    ensures var m := Run(Fresh(Bit(primask), locks), ops, PRIMASK_STRATEGY);
            var c := ExecAll(FreshCpu(primask, locks), ops);
            c.blocked == m.blocked && (!m.blocked ==> View(c) == m)
    decreases |ops|
  {
    if ops == [] {
      assert View(FreshCpu(primask, locks)).saved == Fresh(Bit(primask), locks).saved;
    } else {
      var n := |ops| - 1;
      PrimaskRefines(primask, locks, ops[..n]);
      WellNestedMask(Bit(primask), locks, ops[..n], PRIMASK_STRATEGY);
      var c := ExecAll(FreshCpu(primask, locks), ops[..n]);
      if !c.blocked {
        WellNestedBlocks(Bit(primask), locks, ops[..n], PRIMASK_STRATEGY);
        assert ops[..n][..n] == ops[..n];
        assert |View(c).saved[ops[n].lock]| == c.locks[ops[n].lock].counter;
        ExecRefinesStep(c, ops[n]);
      }
    }
  }

  // --------------------- what strategy 2 needs of arbitrary traces

  /** How often each lock is held, and the lock whose acquisition started the current session. */
  datatype Session = Session(held: seq<nat>, base: Option<nat>)

  predicate NothingHeld(held: seq<nat>)
  {
    forall l :: 0 <= l < |held| ==> held[l] == 0
  }

  function After(ops: seq<Op>, locks: nat): (r: Session)
    requires InRange(ops, locks)
    ensures |r.held| == locks
  {
    if ops == [] then Session(seq(locks, _ => 0), None)
    else
      var s := After(ops[..|ops| - 1], locks);
      match ops[|ops| - 1]
      case Acquire(l) => Session(s.held[l := s.held[l] + 1], if s.base.None? then Some(l) else s.base)
      case Release(l) =>
        var held := s.held[l := if s.held[l] == 0 then 0 else s.held[l] - 1];
        Session(held, if NothingHeld(held) then None else s.base)
  }

  /** The lock that started the session is given up while another one is still held. */
  predicate EarlyRelease(s: Session, op: Op)
    requires op.lock < |s.held|
  {
    && op.Release? && s.base == Some(op.lock) && s.held[op.lock] == 1
    && !NothingHeld(s.held[op.lock := 0])
  }

  predicate Matches(c: Cpu, s: Session)
    requires |c.locks| == |s.held|
  {
    && (forall l :: 0 <= l < |s.held| ==> c.locks[l].counter == s.held[l])
    && c.primask == s.base.Some?
    && (s.base.None? <==> NothingHeld(s.held))
    && (s.base.Some? ==>
          && s.base.value < |s.held| && s.held[s.base.value] > 0
          && forall l :: 0 <= l < |s.held| && s.held[l] > 0 ==> c.locks[l].flag == (l != s.base.value))
  }

  lemma {:induction false} StepMatches(c: Cpu, s: Session, ops: seq<Op>)
    requires ops != [] && InRange(ops, |c.locks|) && s == After(ops[..|ops| - 1], |c.locks|)
    requires !c.blocked && Matches(c, s) && !Exec(c, ops[|ops| - 1]).blocked
    requires !EarlyRelease(s, ops[|ops| - 1])
    ensures Matches(Exec(c, ops[|ops| - 1]), After(ops, |c.locks|))
  {
    var op, t := ops[|ops| - 1], After(ops, |c.locks|);
    if op.Release? && s.held[op.lock] == 1 {
      assert t.held == s.held[op.lock := 0];
      if s.base != Some(op.lock) { assert t.held[s.base.value] > 0; }
    } else {
      assert t.held[op.lock] > 0;
    }
  }

  predicate NeverEarly(ops: seq<Op>, locks: nat)
    requires InRange(ops, locks)
  {
    ops == [] ||
    (NeverEarly(ops[..|ops| - 1], locks) && !EarlyRelease(After(ops[..|ops| - 1], locks), ops[|ops| - 1]))
  }

  /** After every prefix of the trace interrupts are masked if anything is held. */
  predicate ProtectedThroughout(ops: seq<Op>, locks: nat)
    requires InRange(ops, locks)
  {
    && (ops == [] || ProtectedThroughout(ops[..|ops| - 1], locks))
    && (!NothingHeld(After(ops, locks).held) ==> ExecAll(FreshCpu(false, locks), ops).primask)
  }

  lemma {:induction false} NeverEarlyMatches(locks: nat, ops: seq<Op>)
    requires InRange(ops, locks) && !ExecAll(FreshCpu(false, locks), ops).blocked
    requires NeverEarly(ops, locks)
    ensures Matches(ExecAll(FreshCpu(false, locks), ops), After(ops, locks))
    decreases |ops|
  {
    if ops != [] {
      var n := |ops| - 1;
      NeverEarlyMatches(locks, ops[..n]);
      StepMatches(ExecAll(FreshCpu(false, locks), ops[..n]), After(ops[..n], locks), ops);
    }
  }

  /**
   * For any trace, nested or not, that does not block: interrupts stay masked
   * while anything is held if and only if the lock that starts a session is
   * never given up before the others.
   */
  lemma {:induction false} ProtectedIff(locks: nat, ops: seq<Op>)
    requires InRange(ops, locks) && !ExecAll(FreshCpu(false, locks), ops).blocked
    ensures ProtectedThroughout(ops, locks) <==> NeverEarly(ops, locks)
    decreases |ops|
  {
    if ops != [] {
      var n := |ops| - 1;
      ProtectedIff(locks, ops[..n]);
      if NeverEarly(ops[..n], locks) {
        NeverEarlyMatches(locks, ops[..n]);
        if NeverEarly(ops, locks) { NeverEarlyMatches(locks, ops); }
      }
    }
  }

  lemma {:induction false} WellNestedHeld(locks: nat, ops: seq<Op>)
    requires InRange(ops, locks) && Holding(ops).Some?
    ensures forall l :: 0 <= l < locks ==> After(ops, locks).held[l] == Count(Holding(ops).value, l)
    ensures forall i :: 0 <= i < |Holding(ops).value| ==> Holding(ops).value[i] < locks
    decreases |ops|
  {
    if ops != [] {
      var n := |ops| - 1;
      WellNestedHeld(locks, ops[..n]);
      var before, held := Holding(ops[..n]).value, Holding(ops).value;
      hide Count, NothingHeld;
      if ops[n].Acquire? {
        CountPush(before, ops[n].lock);
      } else {
        assert before == held + [ops[n].lock];
        CountPush(held, ops[n].lock);
      }
    }
  }

  lemma {:induction false} WellNestedCounts(locks: nat, ops: seq<Op>)
    requires InRange(ops, locks) && Holding(ops).Some?
    ensures forall l :: 0 <= l < locks ==> After(ops, locks).held[l] == Count(Holding(ops).value, l)
    ensures forall i :: 0 <= i < |Holding(ops).value| ==> Holding(ops).value[i] < locks
    ensures NothingHeld(After(ops, locks).held) <==> Holding(ops).value == []
  {
    WellNestedHeld(locks, ops);
    var held := Holding(ops).value;
    hide After, Holding;
    if held != [] {
      CountFirst(held);
      assert After(ops, locks).held[held[0]] > 0;
    }
  }

  lemma {:induction false} InnermostIsNotEarly(s: Session, held: seq<nat>, l: nat)
    requires l < |s.held| && forall x :: 0 <= x < |s.held| ==> s.held[x] == Count(held + [l], x)
    requires s.base == Some((held + [l])[0]) && forall i :: 0 <= i < |held| ==> held[i] < |s.held|
    ensures !EarlyRelease(s, Release(l))
  {
    CountPush(held, l);
    if held != [] {
      CountFirst(held);
    } else {
      var rest := s.held[l := 0];
      forall x | 0 <= x < |rest| ensures rest[x] == 0 {
        assert Count([], x) == 0 && [] + [l] == [l];
      }
    }
  }

  lemma {:induction false} BaseAfter(locks: nat, ops: seq<Op>)
    requires ops != [] && InRange(ops, locks) && Holding(ops).Some?
    requires var n := |ops| - 1;
             var held := Holding(ops[..n]).value;
             After(ops[..n], locks).base == if held == [] then None else Some(held[0])
    ensures After(ops, locks).base == if Holding(ops).value == [] then None else Some(Holding(ops).value[0])
  {
    WellNestedCounts(locks, ops);
    hide Count, NothingHeld;
  }

  /** A well-nested trace never gives up the lock that started the session early. */
  lemma {:induction false} WellNestedNeverEarly(locks: nat, ops: seq<Op>)
    requires InRange(ops, locks) && Holding(ops).Some?
    ensures NeverEarly(ops, locks)
    ensures After(ops, locks).base == if Holding(ops).value == [] then None else Some(Holding(ops).value[0])
    decreases |ops|
  {
    hide Count, NothingHeld, EarlyRelease, After;
    if ops == [] {
      NothingAfter(locks);
    } else {
      var n := |ops| - 1;
      WellNestedNeverEarly(locks, ops[..n]);
      WellNestedCounts(locks, ops[..n]);
      BaseAfter(locks, ops);
      var s, l := After(ops[..n], locks), ops[n].lock;
      if ops[n].Release? {
        assert Holding(ops[..n]).value == Holding(ops).value + [l];
        WellNestedCounts(locks, ops);
        InnermostIsNotEarly(s, Holding(ops).value, l);
      } else {
        AcquireIsNotEarly(s, ops[n]);
      }
    }
  }

  lemma {:induction false} NothingAfter(locks: nat)
    ensures After([], locks).base == None
  {
  }

  lemma {:induction false} AcquireIsNotEarly(s: Session, op: Op)
    requires op.lock < |s.held| && op.Acquire?
    ensures !EarlyRelease(s, op)
  {
  }

  lemma {:induction false} CountFirst(held: seq<nat>)
    requires held != []
    ensures Count(held, held[0]) > 0
  {
    if |held| > 1 { CountFirst(held[..|held| - 1]); }
  }

  // ----------------------------------------- strategy 4, any trace

  /** The mask-saving lock agrees with a session in which `mask` was the mask at its start. */
  predicate Saves(m: Machine, s: Session, mask: nat, raised: nat)
    requires |m.saved| == |s.held|
  {
    && (forall l :: 0 <= l < |s.held| ==> |m.saved[l]| == s.held[l])
    && m.mask == (if s.base.None? then mask else raised)
    && (s.base.None? <==> NothingHeld(s.held))
    && (s.base.Some? ==>
          && s.base.value < |s.held| && s.held[s.base.value] > 0
          && forall l, i :: 0 <= l < |s.held| && 0 <= i < |m.saved[l]| ==>
               m.saved[l][i] == if l == s.base.value && i == 0 then mask else raised)
  }

  lemma {:induction false} StepSaves(m: Machine, s: Session, ops: seq<Op>, mask: nat, st: Strategy)
    requires ops != [] && InRange(ops, |m.saved|) && s == After(ops[..|ops| - 1], |m.saved|)
    requires !m.blocked && Saves(m, s, mask, st.raised) && !Step(m, ops[|ops| - 1], st).blocked
    requires !EarlyRelease(s, ops[|ops| - 1])
    ensures Saves(Step(m, ops[|ops| - 1], st), After(ops, |m.saved|), mask, st.raised)
  {
    var op, t := ops[|ops| - 1], After(ops, |m.saved|);
    if op.Release? && s.held[op.lock] == 1 {
      assert t.held == s.held[op.lock := 0];
      if s.base != Some(op.lock) { assert t.held[s.base.value] > 0; }
    } else {
      assert t.held[op.lock] > 0;
    }
  }

  lemma {:induction false} EarlyReleaseLoses(m: Machine, s: Session, ops: seq<Op>, mask: nat, st: Strategy)
    requires ops != [] && InRange(ops, |m.saved|) && s == After(ops[..|ops| - 1], |m.saved|)
    requires !m.blocked && Saves(m, s, mask, st.raised) && EarlyRelease(s, ops[|ops| - 1])
    ensures Step(m, ops[|ops| - 1], st).mask == mask && !NothingHeld(After(ops, |m.saved|).held)
  {
    var l := ops[|ops| - 1].lock;
    assert m.saved[l][0] == mask;
  }

  /** After every prefix of the trace the mask is raised if anything is held, and as at the start if nothing is. */
  predicate MaskRightThroughout(ops: seq<Op>, locks: nat, mask: nat, st: Strategy)
    requires InRange(ops, locks)
  {
    && (ops == [] || MaskRightThroughout(ops[..|ops| - 1], locks, mask, st))
    && Run(Fresh(mask, locks), ops, st).mask == if NothingHeld(After(ops, locks).held) then mask else st.raised
  }

  lemma {:induction false} NeverEarlySaves(mask: nat, locks: nat, ops: seq<Op>, st: Strategy)
    requires InRange(ops, locks) && !Run(Fresh(mask, locks), ops, st).blocked && NeverEarly(ops, locks)
    ensures Saves(Run(Fresh(mask, locks), ops, st), After(ops, locks), mask, st.raised)
    decreases |ops|
  {
    if ops != [] {
      var n := |ops| - 1;
      NeverEarlySaves(mask, locks, ops[..n], st);
      StepSaves(Run(Fresh(mask, locks), ops[..n], st), After(ops[..n], locks), ops, mask, st);
    }
  }

  /**
   * For any trace over the mask-saving lock, nested or not, that does not
   * block: the mask is never lost while anything is held nor left raised when
   * nothing is, if and only if the lock that starts a session is never given up
   * before the others.
   */
  lemma {:induction false} MaskRightIff(mask: nat, locks: nat, ops: seq<Op>, st: Strategy)
    requires InRange(ops, locks) && !Run(Fresh(mask, locks), ops, st).blocked && mask != st.raised
    ensures MaskRightThroughout(ops, locks, mask, st) <==> NeverEarly(ops, locks)
    decreases |ops|
  {
    if ops != [] {
      var n := |ops| - 1;
      MaskRightIff(mask, locks, ops[..n], st);
      if NeverEarly(ops[..n], locks) {
        NeverEarlySaves(mask, locks, ops[..n], st);
        if NeverEarly(ops, locks) {
          NeverEarlySaves(mask, locks, ops, st);
        } else {
          EarlyReleaseLoses(Run(Fresh(mask, locks), ops[..n], st), After(ops[..n], locks), ops, mask, st);
        }
      }
    }
  }

  /** LockingData_t of strategy 4. */
  datatype BasepriData = BasepriData(basepri: seq<nat>, level: nat)

  datatype BasepriCpu = BasepriCpu(basepri: nat, locks: seq<BasepriData>, blocked: bool)

  predicate TwoLevels(c: BasepriCpu)
  {
    forall l :: 0 <= l < |c.locks| ==> |c.locks[l].basepri| == 2 && (!c.blocked ==> c.locks[l].level <= 2)
  }

  function ExecBasepri(c: BasepriCpu, op: Op): BasepriCpu
    requires TwoLevels(c) && op.lock < |c.locks|
  {
    var lock := c.locks[op.lock];
    if c.blocked then c
    else if op.Acquire? then
      if lock.level >= 2 then c.(blocked := true)
      else
        BasepriCpu(0x50, c.locks[op.lock := BasepriData(lock.basepri[lock.level := c.basepri], lock.level + 1)], false)
    else
      var level := (lock.level + 255) % 256;
      var locks := c.locks[op.lock := lock.(level := level)];
      if level >= 2 then c.(locks := locks, blocked := true)
      else BasepriCpu(lock.basepri[level], locks, false)
  }

  function ExecBasepriAll(c: BasepriCpu, ops: seq<Op>): (r: BasepriCpu)
    requires TwoLevels(c) && InRange(ops, |c.locks|)
    ensures TwoLevels(r) && |r.locks| == |c.locks|
  {
    if ops == [] then c else ExecBasepri(ExecBasepriAll(c, ops[..|ops| - 1]), ops[|ops| - 1])
  }

  function FreshBasepri(mask: nat, locks: nat): BasepriCpu
  {
    BasepriCpu(mask, seq(locks, _ => BasepriData([0, 0], 0)), false)
  }

  function BasepriView(c: BasepriCpu): Machine
    requires TwoLevels(c) && !c.blocked
  {
    Machine(c.basepri, seq(|c.locks|, i requires 0 <= i < |c.locks| => c.locks[i].basepri[..c.locks[i].level]), false)
  }

  lemma {:induction false} ExecBasepriRefines(c: BasepriCpu, op: Op)
    requires TwoLevels(c) && !c.blocked && op.lock < |c.locks|
    ensures var m := Step(BasepriView(c), op, BASEPRI_STRATEGY);
            ExecBasepri(c, op).blocked == m.blocked && (!m.blocked ==> BasepriView(ExecBasepri(c, op)) == m)
  {
    var m := Step(BasepriView(c), op, BASEPRI_STRATEGY);
    var lock := c.locks[op.lock];
    if !m.blocked {
      if op.Acquire? {
        assert lock.basepri[lock.level := c.basepri][..lock.level + 1] == lock.basepri[..lock.level] + [c.basepri];
      } else {
        assert lock.basepri[..lock.level][..lock.level - 1] == lock.basepri[..lock.level - 1];
      }
      assert BasepriView(ExecBasepri(c, op)).saved == m.saved;
    }
  }

  /** On every trace over any number of locks, nested or not, strategy 4 does what the mask-saving lock does. */
  lemma {:induction false} BasepriRefines(mask: nat, locks: nat, ops: seq<Op>)
    requires InRange(ops, locks)
    ensures var m := Run(Fresh(mask, locks), ops, BASEPRI_STRATEGY);
            var c := ExecBasepriAll(FreshBasepri(mask, locks), ops);
            c.blocked == m.blocked && (!m.blocked ==> BasepriView(c) == m)
    decreases |ops|
  {
    if ops == [] {
      assert BasepriView(FreshBasepri(mask, locks)).saved == Fresh(mask, locks).saved;
    } else {
      var n := |ops| - 1;
      BasepriRefines(mask, locks, ops[..n]);
      var c := ExecBasepriAll(FreshBasepri(mask, locks), ops[..n]);
      if !c.blocked { ExecBasepriRefines(c, ops[n]); }
    }
  }

  /** Two locks released in the order of acquisition: the mask is lost while the second is held and left raised at the end. */
  lemma {:induction false} CrossedRelease()
    ensures var ops := [Acquire(0), Acquire(1), Release(0)];
            Run(Fresh(0, 2), ops, BASEPRI_STRATEGY) == Machine(0, [[], [0x50]], false)
    ensures var ops := [Acquire(0), Acquire(1), Release(0), Release(1)];
            Run(Fresh(0, 2), ops, BASEPRI_STRATEGY) == Machine(0x50, [[], []], false)
  {
    var ops := [Acquire(0), Acquire(1), Release(0), Release(1)];
    assert ops[..3] == [Acquire(0), Acquire(1), Release(0)] && ops[..3][..2] == [Acquire(0), Acquire(1)];
    assert ops[..3][..2][..1] == [Acquire(0)] && ops[..3][..2][..1][..0] == [];
    var none: seq<nat> := [];
    var start := Fresh(0, 2);
    assert start.saved == [none, none] && none + [0] == [0] && none + [0x50] == [0x50];
    var a := Step(start, Acquire(0), BASEPRI_STRATEGY);
    assert a.saved == [[0], none];
    var b := Step(a, Acquire(1), BASEPRI_STRATEGY);
    assert b.saved == [[0], [0x50]];
    var c := Step(b, Release(0), BASEPRI_STRATEGY);
    assert c.saved == [none, [0x50]];
    var d := Step(c, Release(1), BASEPRI_STRATEGY);
    assert d.saved == [none, none];
    assert Run(start, ops[..3][..2][..1], BASEPRI_STRATEGY) == a;
    assert Run(start, ops[..3][..2], BASEPRI_STRATEGY) == b;
    assert Run(start, ops[..3], BASEPRI_STRATEGY) == c;
    assert ops[3] == Release(1) && Run(start, ops, BASEPRI_STRATEGY) == d;
  }

  /** The same under strategy 2: interrupts are enabled while the second lock is held. */
  lemma {:induction false} CrossedReleasePrimask()
    ensures ExecAll(FreshCpu(false, 2), [Acquire(0), Acquire(1), Release(0)]) ==
            Cpu(false, [LockData(false, 0), LockData(true, 1)], false)
  {
    var ops := [Acquire(0), Acquire(1), Release(0)];
    assert ops[..2] == [Acquire(0), Acquire(1)] && ops[..2][..1] == [Acquire(0)] && ops[..2][..1][..0] == [];
    var start := FreshCpu(false, 2);
    var a := Exec(start, Acquire(0));
    assert a.locks == [LockData(false, 1), LockData(false, 0)];
    var b := Exec(a, Acquire(1));
    assert b.locks == [LockData(false, 1), LockData(true, 1)];
    var c := Exec(b, Release(0));
    assert c.locks == [LockData(false, 0), LockData(true, 1)];
    assert ExecAll(start, ops[..2][..1]) == a;
    assert ExecAll(start, ops[..2]) == b;
  }
}
