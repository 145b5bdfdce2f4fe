/** __cxa_guard_acquire, __cxa_guard_abort and __cxa_guard_release (Core/ThreadSafe/newlib_lock_glue.c), as they update the guard object. */
module CxaGuardCode {
  import opened StmLock
  import opened StmLockCode
  import opened Wrappers

  class GuardObject {
    var initialized: bool
    var acquired: bool

    constructor ()
      ensures !initialized && !acquired
    {
      initialized, acquired := false, false;
    }
  }

  class GuardApi {
    const core: Core
    const mutex: PrimaskLock

    constructor (core: Core)
      ensures this.core == core && fresh(mutex) && mutex.Data() == LockData(false, 0)
    {
      this.core := core;
      mutex := new PrimaskLock();
    }

    /**
     * `raced`: between the first load and the lock another task initializes
     * the object, which takes a context switch and hence interrupts.
     */
    method GuardAcquire(g: GuardObject, raced: bool) returns (ret: int)
      requires !core.blocked && mutex.counter <= 255
      requires raced ==> !core.primask && !g.acquired && mutex.counter == 0
      modifies g, mutex, core
      ensures old(g.initialized) ==>
                ret == 0 && unchanged(g) && unchanged(mutex) && unchanged(core)
      ensures core.blocked <==> !old(g.initialized) && (old(mutex.counter) == 255 || old(g.acquired))
      ensures !old(g.initialized) && raced ==>
                ret == 0 && g.initialized && !g.acquired && mutex.counter == 0 && !core.primask
      ensures !old(g.initialized) && !raced && !core.blocked ==>
                && ret == 1 && g.acquired && !g.initialized && core.primask
                && Some(mutex.Data()) == Acquired(old(mutex.Data()), old(core.primask))
    {
      ret := 0;
      if !g.initialized {
        if raced { g.initialized := true; }
        mutex.LockAcquire(core);
        if core.blocked { return; }
        if !g.initialized {
          if g.acquired {
            core.Block();
            return;
          }
          g.acquired := true;
          ret := 1;
        } else {
          mutex.LockRelease(core);
        }
      }
    }

    method GuardAbort(g: GuardObject)
      requires !core.blocked && mutex.counter <= 255
      modifies g, mutex, core
      ensures g.initialized == old(g.initialized) && !g.acquired
      ensures core.blocked <==> !old(g.acquired) || old(mutex.counter) == 0
      ensures !core.blocked ==>
                && mutex.counter == old(mutex.counter) - 1 && mutex.flag == old(mutex.flag)
                && core.primask == (old(core.primask) && (mutex.counter > 0 || mutex.flag))
    {
      if g.acquired {
        g.acquired := false;
        mutex.LockRelease(core);
      } else {
        core.Block();
      }
    }

    method GuardRelease(g: GuardObject)
      requires !core.blocked && mutex.counter <= 255
      modifies g, mutex, core
      ensures g.initialized && !g.acquired
      ensures core.blocked <==> !old(g.acquired) || old(mutex.counter) == 0
      ensures !core.blocked ==>
                && mutex.counter == old(mutex.counter) - 1 && mutex.flag == old(mutex.flag)
                && core.primask == (old(core.primask) && (mutex.counter > 0 || mutex.flag))
    {
      g.initialized := true;
      GuardAbort(g);
    }

    /** An object is constructed once: the acquire that asks for it, the release, and every acquire after that. */
    method ConstructOnce(g: GuardObject) returns (first: int, second: int)
      requires !core.blocked && mutex.counter < 255 && !g.initialized && !g.acquired
      requires mutex.counter > 0 ==> core.primask
      modifies g, mutex, core
      ensures first == 1 && second == 0 && !core.blocked && g.initialized && !g.acquired
      ensures mutex.counter == old(mutex.counter) && core.primask == old(core.primask)
    {
      first := GuardAcquire(g, false);
      GuardRelease(g);
      second := GuardAcquire(g, false);
    }
  }
}
