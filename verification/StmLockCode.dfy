/** The lock functions of Core/ThreadSafe/stm32_lock.h for strategies 2 and 4, as they update the lock and the core registers. */
module StmLockCode {
  import opened StmLock
  import opened Wrappers

  /** The mask registers; once `blocked` the core spins in STM32_LOCK_BLOCK. */
  class Core {
    var primask: bool
    var basepri: nat
    var blocked: bool

    constructor ()
      ensures !primask && basepri == 0 && !blocked
    {
      primask, basepri, blocked := false, 0, false;
    }

    /** STM32_LOCK_BLOCK. */
    method Block()
      modifies this
      ensures primask && blocked && basepri == old(basepri)
    {
      primask := true;
      blocked := true;
    }
  }

  /** Strategy 2. */
  class PrimaskLock {
    var flag: bool
    var counter: nat

    function Data(): LockData
      reads this
    {
      LockData(flag, counter)
    }

    function AsCpu(core: Core): Cpu
      reads this, core
    {
      Cpu(core.primask, [Data()], core.blocked)
    }

    constructor ()
      ensures Data() == LockData(false, 0)
    {
      flag, counter := false, 0;
    }

    method LockAcquire(core: Core)
      requires !core.blocked && counter <= 255
      modifies this, core
      ensures AsCpu(core) == Exec(old(AsCpu(core)), Acquire(0)) && counter <= 255
      ensures core.primask && core.basepri == old(core.basepri)
      ensures core.blocked <==> old(counter) == 255
      ensures Acquired(old(Data()), old(core.primask)) == if core.blocked then None else Some(Data())
    {
      var saved := core.primask;
      core.primask := true;
      if counter == 0 {
        flag := saved;
      } else if counter == 255 {
        core.Block();
        return;
      }
      counter := counter + 1;
    }

    method LockRelease(core: Core)
      requires !core.blocked && counter <= 255
      modifies this, core
      ensures AsCpu(core) == Exec(old(AsCpu(core)), Release(0)) && counter <= 255
      ensures core.basepri == old(core.basepri)
      ensures core.blocked <==> old(counter) == 0
      ensures !core.blocked ==>
                && Data() == LockData(old(flag), old(counter) - 1)
                && core.primask == (old(core.primask) && (counter > 0 || flag))
    {
      if counter == 0 {
        core.Block();
        return;
      }
      counter := counter - 1;
      if counter == 0 && !flag {
        core.primask := false;
      }
    }
  }

  /** Strategy 4: two saved BASEPRI values and an eight-bit nesting level. */
  class BasepriLock {
    const basepri: array<nat>
    var nestingLevel: nat

    ghost predicate Valid()
      reads this
    {
      basepri.Length == 2 && nestingLevel <= 2
    }

    function Saved(): seq<nat>
      requires Valid()
      reads this, basepri
    {
      basepri[..nestingLevel]
    }

    function AsMachine(core: Core): Machine
      requires Valid()
      reads this, basepri, core
    {
      Machine(core.basepri, [Saved()], core.blocked)
    }

    constructor ()
      ensures Valid() && Saved() == [] && fresh(basepri) && basepri[..] == [0, 0]
    {
      var saved := new nat[2];
      for i := 0 to 2
        invariant forall j :: 0 <= j < i ==> saved[j] == 0
      {
        saved[i] := 0;
      }
      basepri := saved;
      nestingLevel := 0;
    }

    method LockAcquire(core: Core)
      requires Valid() && !core.blocked
      modifies this, basepri, core
      ensures Valid()
      ensures core.blocked <==> old(nestingLevel) == 2
      ensures !core.blocked ==>
                AsMachine(core) == Step(old(AsMachine(core)), Acquire(0), BASEPRI_STRATEGY)
                && core.primask == old(core.primask)
      ensures core.blocked ==> Step(old(AsMachine(core)), Acquire(0), BASEPRI_STRATEGY).blocked
    {
      if nestingLevel >= basepri.Length {
        core.Block();
        return;
      }
      basepri[nestingLevel] := core.basepri;
      core.basepri := 0x50;
      nestingLevel := nestingLevel + 1;
      assert Saved() == old(Saved()) + [old(core.basepri)];
    }

    /** The nesting level wraps to 255 when it is decremented at 0; the check catches that before the array is read. */
    method LockRelease(core: Core)
      requires Valid() && !core.blocked
      modifies this, core
      ensures core.blocked <==> old(nestingLevel) == 0
      ensures old(nestingLevel) == 0 ==> nestingLevel == 255 && core.basepri == old(core.basepri)
      ensures !core.blocked ==>
                Valid() && AsMachine(core) == Step(old(AsMachine(core)), Release(0), BASEPRI_STRATEGY)
                && core.primask == old(core.primask)
      ensures core.blocked ==> Step(old(AsMachine(core)), Release(0), BASEPRI_STRATEGY).blocked
    {
      nestingLevel := (nestingLevel + 255) % 256;
      if nestingLevel >= basepri.Length {
        core.Block();
        return;
      }
      core.basepri := basepri[nestingLevel];
      assert Saved() == old(Saved())[..nestingLevel];
    }
  }
}
