/**
 * The one-time construction guards of Core/ThreadSafe/newlib_lock_glue.c (the
 * API of section 3.3.3 of the Itanium C++ ABI), on top of a lock that saves and
 * raises the interrupt mask, interleaved over any number of tasks and guards.
 * A task cannot be switched away from while the mask is raised.
 */
module CxaGuard {
  import opened StmLock
  import opened Wrappers

  datatype Guard = Guard(initialized: bool, acquired: bool)

  /** The result of a __cxa_guard_acquire call; `late` says that the object was already initialized when it was called. */
  datatype Return = Return(g: nat, value: nat, late: bool)

  /**
   * Where a task is inside the guard functions.  Idle tasks run user code,
   * among it the constructor between a successful acquire and its release.
   */
  datatype Pc =
    | Idle(result: Option<Return>)
    | AcqLoad(g: nat, late: bool)
    | AcqCheck(g: nat, late: bool)
    | AcqReadMask(g: nat, late: bool)
    | AcqRaise(g: nat, late: bool, mask: nat)
    | AcqSave(g: nat, late: bool, mask: nat)
    | AcqRecheck(g: nat, late: bool)
    | AcqTest(g: nat, late: bool)
    | AcqUnlock(g: nat, late: bool)
    | AcqRestore(g: nat, late: bool, mask: nat)
    | RelStore(g: nat)
    | AbortTest(g: nat)
    | AbortUnlock
    | AbortRestore(mask: nat)

  /**
   * `owner`, `releases` and `startMask` are history: the task whose acquire of
   * a guard returned 1 and has not been undone, the number of releases of a
   * guard, and the mask at the start.  `saved` are the masks saved in the guard
   * mutex, oldest first.
   */
  datatype State = State(
    pcs: seq<Pc>,
    cur: nat,
    mask: nat,
    saved: seq<nat>,
    guards: seq<Guard>,
    blocked: bool,
    owner: seq<Option<nat>>,
    releases: seq<nat>,
    startMask: nat,
    lock: Strategy)

  datatype Event = Switch(t: nat) | CallAcquire(g: nat) | CallRelease(g: nat) | CallAbort(g: nat) | Advance

  datatype Setup = Setup(tasks: nat, guards: nat, startMask: nat, lock: Strategy) {
    predicate Proper() { tasks > 0 && lock.capacity > 0 }
  }

  function Init(setup: Setup): State
    requires setup.Proper()
  {
    State(seq(setup.tasks, _ => Idle(None)), 0, setup.startMask, [], seq(setup.guards, _ => Guard(false, false)),
          false, seq(setup.guards, _ => None), seq(setup.guards, _ => 0), setup.startMask, setup.lock)
  }

  predicate Shape(s: State)
  {
    s.cur < |s.pcs| && |s.owner| == |s.guards| == |s.releases|
  }

  /** A context switch needs the mask to be lowered; a release or abort needs an acquire of the same task that returned 1. */
  predicate Enabled(s: State, e: Event)
    requires Shape(s)
  {
    && !s.blocked
    && match e
       case Switch(t) => t < |s.pcs| && s.mask != s.lock.raised
       case CallAcquire(g) => s.pcs[s.cur].Idle? && g < |s.guards|
       case CallRelease(g) => s.pcs[s.cur].Idle? && g < |s.guards| && s.owner[g] == Some(s.cur)
       case CallAbort(g) => s.pcs[s.cur].Idle? && g < |s.guards| && s.owner[g] == Some(s.cur)
       case Advance => !s.pcs[s.cur].Idle?
  }

  predicate PcInRange(pc: Pc, guards: nat)
  {
    pc.AbortUnlock? || pc.AbortRestore? || (if pc.Idle? then pc.result.Some? ==> pc.result.value.g < guards else pc.g < guards)
  }

  function Goto(s: State, pc: Pc): State
    requires s.cur < |s.pcs|
  {
    s.(pcs := s.pcs[s.cur := pc])
  }

  /** STM32_LOCK_BLOCK. */
  function Block(s: State): State
  {
    s.(blocked := true)
  }

  /** One atomic step of the running task. */
  function Next(s: State): State
    requires Shape(s) && PcInRange(s.pcs[s.cur], |s.guards|)
  {
    match s.pcs[s.cur]
    case Idle(_) => s
    case AcqLoad(g, late) =>
      if s.guards[g].initialized then Goto(s, Idle(Some(Return(g, 0, late)))) else Goto(s, AcqCheck(g, late))
    case AcqCheck(g, late) =>
      if s.lock.checksFirst && |s.saved| >= s.lock.capacity then Block(s) else Goto(s, AcqReadMask(g, late))
    case AcqReadMask(g, late) => Goto(s, AcqRaise(g, late, s.mask))
    case AcqRaise(g, late, mask) => Goto(s.(mask := s.lock.raised), AcqSave(g, late, mask))
    case AcqSave(g, late, mask) =>
      if !s.lock.checksFirst && |s.saved| >= s.lock.capacity then Block(s)
      else Goto(s.(saved := s.saved + [mask]), AcqRecheck(g, late))
    case AcqRecheck(g, late) =>
      if s.guards[g].initialized then Goto(s, AcqUnlock(g, late)) else Goto(s, AcqTest(g, late))
    case AcqTest(g, late) =>
      if s.guards[g].acquired then Block(s)
      else
        Goto(s.(guards := s.guards[g := s.guards[g].(acquired := true)], owner := s.owner[g := Some(s.cur)]),
             Idle(Some(Return(g, 1, late))))
    case AcqUnlock(g, late) =>
      if s.saved == [] then Block(s)
      else Goto(s.(saved := s.saved[..|s.saved| - 1]), AcqRestore(g, late, s.saved[|s.saved| - 1]))
    case AcqRestore(g, late, mask) => Goto(s.(mask := mask), Idle(Some(Return(g, 0, late))))
    case RelStore(g) =>
      Goto(s.(guards := s.guards[g := s.guards[g].(initialized := true)], releases := s.releases[g := s.releases[g] + 1]),
           AbortTest(g))
    case AbortTest(g) =>
      if s.guards[g].acquired then
        Goto(s.(guards := s.guards[g := s.guards[g].(acquired := false)], owner := s.owner[g := None]), AbortUnlock)
      else Block(s)
    case AbortUnlock =>
      if s.saved == [] then Block(s)
      else Goto(s.(saved := s.saved[..|s.saved| - 1]), AbortRestore(s.saved[|s.saved| - 1]))
    case AbortRestore(mask) => Goto(s.(mask := mask), Idle(None))
  }

  function Apply(s: State, e: Event): State
    requires Shape(s) && PcInRange(s.pcs[s.cur], |s.guards|) && Enabled(s, e)
  {
    match e
    case Switch(t) => s.(cur := t)
    case CallAcquire(g) => Goto(s, AcqLoad(g, s.guards[g].initialized))
    case CallRelease(g) => Goto(s, RelStore(g))
    case CallAbort(g) => Goto(s, AbortTest(g))
    case Advance => Next(s)
  }

  // ----------------------------------------------------------- invariant

  /** A task that may have been switched away from: it has not yet raised the mask. */
  predicate Outside(pc: Pc)
  {
    pc.Idle? || pc.AcqLoad? || pc.AcqCheck? || pc.AcqReadMask? || pc.AcqRaise?
  }

  /** Counted in the mutex, though not (or no longer) on behalf of an acquired guard. */
  predicate HoldsExtra(pc: Pc)
  {
    pc.AcqRecheck? || pc.AcqTest? || pc.AcqUnlock? || pc.AbortUnlock?
  }

  predicate Restoring(pc: Pc) { pc.AcqRestore? || pc.AbortRestore? }

  /** The number of guards whose object is being constructed. */
  function InProgress(guards: seq<Guard>): nat
  {
    if guards == [] then 0 else (if guards[0].acquired then 1 else 0) + InProgress(guards[1..])
  }

  lemma {:induction false} InProgressUpdate(guards: seq<Guard>, g: nat, v: Guard)
    requires g < |guards|
    ensures InProgress(guards[g := v]) ==
            InProgress(guards) + (if v.acquired then 1 else 0) - (if guards[g].acquired then 1 else 0)
  {
    if g == 0 {
      assert guards[0 := v][1..] == guards[1..];
    } else {
      InProgressUpdate(guards[1..], g - 1, v);
      assert guards[g := v][1..] == guards[1..][g - 1 := v];
    }
  }

  lemma {:induction false} InProgressZero(guards: seq<Guard>)
    ensures InProgress(guards) == 0 <==> forall g :: 0 <= g < |guards| ==> !guards[g].acquired
  {
    if guards != [] {
      InProgressZero(guards[1..]);
      assert forall g :: 0 < g < |guards| ==> guards[g] == guards[1..][g - 1];
    }
  }

  /** Only the running task is anywhere past the raising of the mask or has a constructor in progress. */
  predicate OnlyCurrentInside(s: State)
    requires Shape(s)
  {
    && (forall t :: 0 <= t < |s.pcs| ==> PcInRange(s.pcs[t], |s.guards|))
    && (forall t :: 0 <= t < |s.pcs| && t != s.cur ==>
          Outside(s.pcs[t]) && (s.pcs[t].AcqRaise? ==> s.pcs[t].mask == s.startMask))
    && (forall g :: 0 <= g < |s.guards| ==>
          (s.guards[g].acquired <==> s.owner[g].Some?) && (s.owner[g].Some? ==> s.owner[g].value == s.cur))
  }

  /** The mask that a lock with these saved masks was acquired under: the raised one, unless nothing is saved. */
  function Under(s: State): nat
  {
    if s.saved == [] then s.startMask else s.lock.raised
  }

  predicate MutexCounts(s: State)
    requires Shape(s)
  {
    var pc := s.pcs[s.cur];
    && |s.saved| == InProgress(s.guards) + (if HoldsExtra(pc) then 1 else 0)
    && 0 < s.lock.capacity && |s.saved| <= s.lock.capacity
    && (forall i :: 0 <= i < |s.saved| ==> s.saved[i] == if i == 0 then s.startMask else s.lock.raised)
    && s.mask == (if Outside(pc) then Under(s) else s.lock.raised)
    && (pc.AcqRaise? || pc.AcqSave? || Restoring(pc) ==> pc.mask == Under(s))
    && (s.lock.checksFirst && (pc.AcqReadMask? || pc.AcqRaise? || pc.AcqSave?) ==> |s.saved| < s.lock.capacity)
  }

  predicate PcAgrees(pc: Pc, guards: seq<Guard>)
    requires PcInRange(pc, |guards|)
  {
    match pc
    case Idle(None) => true
    case Idle(Some(Return(g, value, late))) => if value == 1 then !late else guards[g].initialized
    case AcqLoad(g, late) => late ==> guards[g].initialized
    case AcqCheck(_, late) => !late
    case AcqReadMask(_, late) => !late
    case AcqRaise(_, late, _) => !late
    case AcqSave(_, late, _) => !late
    case AcqRecheck(_, late) => !late
    case AcqTest(g, late) => !late && !guards[g].initialized
    case AcqUnlock(g, late) => !late && guards[g].initialized
    case AcqRestore(g, late, _) => !late && guards[g].initialized
    case RelStore(g) => guards[g].acquired && !guards[g].initialized
    case AbortTest(g) => guards[g].acquired
    case AbortUnlock => true
    case AbortRestore(_) => true
  }

  predicate GuardsAgree(s: State)
    requires Shape(s) && OnlyCurrentInside(s)
  {
    && (forall t :: 0 <= t < |s.pcs| ==> PcAgrees(s.pcs[t], s.guards))
    && (forall g :: 0 <= g < |s.guards| ==> s.releases[g] == if s.guards[g].initialized then 1 else 0)
    && (forall g :: 0 <= g < |s.guards| && s.guards[g].acquired && s.guards[g].initialized ==>
          s.pcs[s.cur] == AbortTest(g))
  }

  predicate Inv(s: State)
  {
    Shape(s) && OnlyCurrentInside(s) && MutexCounts(s) && GuardsAgree(s)
  }

  lemma {:induction false} InitInv(setup: Setup)
    requires setup.Proper()
    ensures Inv(Init(setup))
  {
    InProgressZero(Init(setup).guards);
  }

  lemma {:induction false} SwitchKeepsInv(s: State, t: nat)
    requires Inv(s) && Enabled(s, Switch(t))
    ensures Inv(Apply(s, Switch(t)))
  {
    InProgressZero(s.guards);
  }

  lemma {:induction false} CallKeepsInv(s: State, e: Event)
    requires Inv(s) && Enabled(s, e) && (e.CallAcquire? || e.CallRelease? || e.CallAbort?)
    ensures Inv(Apply(s, e))
  {
    var g := e.g;
    InProgressZero(s.guards);
    if !e.CallAcquire? { assert s.guards[g].acquired; }
  }

  /** `acquired` is set or cleared, or `initialized` is set. */
  predicate StoresGuard(pc: Pc) { pc.AcqTest? || pc.RelStore? || pc.AbortTest? }

  predicate Advances(s: State)
  {
    Inv(s) && !s.blocked && !s.pcs[s.cur].Idle? && !Next(s).blocked
  }

  /** All other steps leave the guards and their history alone. */
  lemma {:induction false} QuietStep(s: State)
    requires Advances(s) && !StoresGuard(s.pcs[s.cur])
    ensures var t := Next(s);
            && t.guards == s.guards && t.releases == s.releases && t.owner == s.owner && t.cur == s.cur
            && t.startMask == s.startMask && |t.pcs| == |s.pcs| && t.pcs == s.pcs[s.cur := t.pcs[s.cur]]
            && PcInRange(t.pcs[s.cur], |s.guards|) && PcAgrees(t.pcs[s.cur], s.guards)
  {
    hide MutexCounts;
  }

  lemma {:induction false} QuietStepKeepsGuards(s: State)
    requires Advances(s) && !StoresGuard(s.pcs[s.cur])
    ensures Shape(Next(s)) && OnlyCurrentInside(Next(s)) && GuardsAgree(Next(s))
  {
    QuietStep(s);
    hide MutexCounts, Next, PcAgrees;
  }

  lemma {:induction false} StoreStepKeepsOwners(s: State)
    requires Advances(s) && StoresGuard(s.pcs[s.cur])
    ensures Shape(Next(s)) && OnlyCurrentInside(Next(s))
  {
    hide MutexCounts, PcAgrees;
  }

  lemma {:induction false} StoreStepKeepsGuards(s: State)
    requires Advances(s) && StoresGuard(s.pcs[s.cur]) && OnlyCurrentInside(Next(s))
    ensures GuardsAgree(Next(s))
  {
    hide MutexCounts;
  }

  /** Steps that leave the mutex as it is, and those that save or restore a mask. */
  lemma {:induction false} QuietStepKeepsCounts(s: State)
    requires Advances(s) && !StoresGuard(s.pcs[s.cur]) && !s.pcs[s.cur].AcqSave? && !s.pcs[s.cur].AcqUnlock?
    requires !s.pcs[s.cur].AbortUnlock?
    ensures MutexCounts(Next(s))
  {
    hide GuardsAgree, OnlyCurrentInside, InProgress;
  }

  lemma {:induction false} MutexStepKeepsCounts(s: State)
    requires Advances(s) && (s.pcs[s.cur].AcqSave? || s.pcs[s.cur].AcqUnlock? || s.pcs[s.cur].AbortUnlock?)
    ensures MutexCounts(Next(s))
  {
    hide GuardsAgree, OnlyCurrentInside, InProgress;
  }

  lemma {:induction false} StoreStepKeepsCounts(s: State)
    requires Advances(s) && StoresGuard(s.pcs[s.cur])
    ensures MutexCounts(Next(s))
  {
    var g := s.pcs[s.cur].g;
    InProgressUpdate(s.guards, g, Next(s).guards[g]);
    hide OnlyCurrentInside, InProgress;
  }

  lemma {:induction false} NextKeepsInv(s: State)
    requires Advances(s)
    ensures Inv(Next(s))
  {
    hide Next, MutexCounts, GuardsAgree, OnlyCurrentInside;
    var pc := s.pcs[s.cur];
    if StoresGuard(pc) {
      StoreStepKeepsOwners(s);
      StoreStepKeepsGuards(s);
      StoreStepKeepsCounts(s);
    } else {
      QuietStepKeepsGuards(s);
      if pc.AcqSave? || pc.AcqUnlock? || pc.AbortUnlock? { MutexStepKeepsCounts(s); } else { QuietStepKeepsCounts(s); }
    }
  }

  lemma {:induction false} StepKeepsInv(s: State, e: Event)
    requires Inv(s) && Enabled(s, e)
    ensures !Apply(s, e).blocked ==> Inv(Apply(s, e))
  {
    hide Next, MutexCounts, GuardsAgree;
    match e
    case Switch(t) => SwitchKeepsInv(s, t);
    case CallAcquire(_) => CallKeepsInv(s, e);
    case CallRelease(_) => CallKeepsInv(s, e);
    case CallAbort(_) => CallKeepsInv(s, e);
    case Advance =>
      if !Next(s).blocked { NextKeepsInv(s); }
  }

  // ---------------------------------------------------------------- runs

  /** The state after a sequence of events from power-up; None if one of them was not enabled. */
  function Run(setup: Setup, events: seq<Event>): Option<State>
    requires setup.Proper()
  {
    if events == [] then Some(Init(setup))
    else
      match Run(setup, events[..|events| - 1])
      case None => None
      case Some(s) =>
        var e := events[|events| - 1];
        if Shape(s) && PcInRange(s.pcs[s.cur], |s.guards|) && Enabled(s, e) then Some(Apply(s, e)) else None
  }

  lemma {:induction false} RunKeepsInv(setup: Setup, events: seq<Event>)
    requires setup.Proper() && Run(setup, events).Some?
    ensures var s := Run(setup, events).value; !s.blocked ==> Inv(s)
    decreases |events|
  {
    if events == [] {
      InitInv(setup);
    } else {
      var n := |events| - 1;
      RunKeepsInv(setup, events[..n]);
      StepKeepsInv(Run(setup, events[..n]).value, events[n]);
    }
  }

  /**
   * In every interleaving: an object has been released at most once, and is
   * initialized exactly if it has been; an acquire that returned 1 was called
   * before the object was initialized, one that returned 0 left it initialized.
   */
  lemma {:induction false} InitializedOnce(setup: Setup, events: seq<Event>)
    requires setup.Proper() && Run(setup, events).Some?
    requires !Run(setup, events).value.blocked
    ensures var s := Run(setup, events).value;
            && |s.guards| == |s.releases|
            && (forall g :: 0 <= g < |s.guards| ==>
                  s.releases[g] <= 1 && (s.releases[g] == 1 <==> s.guards[g].initialized))
            && forall t :: 0 <= t < |s.pcs| && s.pcs[t].Idle? && s.pcs[t].result.Some? ==>
                 var r := s.pcs[t].result.value;
                 r.g < |s.guards| && (r.value == 1 ==> !r.late) && (r.value != 1 ==> s.guards[r.g].initialized)
  {
    RunKeepsInv(setup, events);
  }

  /** When an acquire is about to return 1, nobody else is constructing the object and nobody has. */
  lemma {:induction false} AcquireIsExclusive(setup: Setup, events: seq<Event>, g: nat, late: bool)
    requires setup.Proper() && Run(setup, events).Some?
    requires var s := Run(setup, events).value;
             !s.blocked && s.cur < |s.pcs| && s.pcs[s.cur] == AcqTest(g, late)
    ensures var s := Run(setup, events).value;
            && Shape(s) && g < |s.guards| && s.releases[g] == 0 && !late
            && (Next(s).blocked <==> s.owner[g].Some?)
            && (s.owner[g].Some? ==> s.owner[g].value == s.cur)
            && (!Next(s).blocked ==> Next(s).owner[g] == Some(s.cur) && Next(s).pcs[s.cur] == Idle(Some(Return(g, 1, false))))
  {
    RunKeepsInv(setup, events);
  }

  /** An acquire called after the release returns 0 in its first step and touches nothing. */
  lemma {:induction false} LateAcquireReturnsZero(setup: Setup, events: seq<Event>, g: nat)
    requires setup.Proper() && Run(setup, events).Some?
    requires var s := Run(setup, events).value;
             !s.blocked && s.cur < |s.pcs| && s.pcs[s.cur] == AcqLoad(g, true)
    ensures var s := Run(setup, events).value;
            && Shape(s) && g < |s.guards|
            && Next(s) == s.(pcs := s.pcs[s.cur := Idle(Some(Return(g, 0, true)))])
  {
    RunKeepsInv(setup, events);
  }

  /**
   * Whenever the running task is in user code, the mutex counts the objects
   * under construction, all of them its own, the mask is raised if there are
   * any and as it was at the start if there are none.
   */
  lemma {:induction false} MutexAccounting(setup: Setup, events: seq<Event>)
    requires setup.Proper() && Run(setup, events).Some?
    requires var s := Run(setup, events).value;
             !s.blocked && s.cur < |s.pcs| && s.pcs[s.cur].Idle?
    ensures var s := Run(setup, events).value;
            && |s.saved| == InProgress(s.guards)
            && s.mask == (if InProgress(s.guards) > 0 then setup.lock.raised else setup.startMask)
            && |s.owner| == |s.guards|
            && forall g :: 0 <= g < |s.guards| ==> s.owner[g] == if s.guards[g].acquired then Some(s.cur) else None
  {
    RunKeepsInv(setup, events);
    SameSetup(setup, events);
  }

  lemma {:induction false} SameSetup(setup: Setup, events: seq<Event>)
    requires setup.Proper() && Run(setup, events).Some?
    ensures var s := Run(setup, events).value; s.startMask == setup.startMask && s.lock == setup.lock
    decreases |events|
  {
    if events != [] { SameSetup(setup, events[..|events| - 1]); }
  }

  /**
   * A guard call gets stuck exactly when a constructor reaches the
   * initialization of its own object again, or more constructors are nested
   * than the lock can save masks for; the checks in abort and in the lock's
   * release never fire.
   */
  lemma {:induction false} BlocksIff(setup: Setup, events: seq<Event>)
    requires setup.Proper() && Run(setup, events).Some?
    requires var s := Run(setup, events).value; !s.blocked
    ensures var s := Run(setup, events).value;
            && Shape(s) && PcInRange(s.pcs[s.cur], |s.guards|)
            && (Next(s).blocked <==>
                  || (InProgress(s.guards) == setup.lock.capacity
                      && if setup.lock.checksFirst then s.pcs[s.cur].AcqCheck? else s.pcs[s.cur].AcqSave?)
                  || (s.pcs[s.cur].AcqTest? && s.owner[s.pcs[s.cur].g] == Some(s.cur)))
  {
    RunKeepsInv(setup, events);
    SameSetup(setup, events);
  }

  // ------------------------------------------- calls and their results

  /** How often a release of `g` has been called. */
  function ReleaseCalls(events: seq<Event>, g: nat): nat
  {
    if events == [] then 0
    else ReleaseCalls(events[..|events| - 1], g) + if events[|events| - 1] == CallRelease(g) then 1 else 0
  }

  /** The latest call made by task `t`, and whether a release of its guard had been called before. */
  datatype Call = NoCall | Call(event: Event, released: bool)

  function CurrentTask(setup: Setup, events: seq<Event>): nat
    requires setup.Proper()
  {
    match Run(setup, events)
    case None => 0
    case Some(s) => s.cur
  }

  function LatestCall(setup: Setup, events: seq<Event>, t: nat): Call
    requires setup.Proper()
  {
    if events == [] then NoCall
    else
      var n := |events| - 1;
      var e := events[n];
      if (e.CallAcquire? || e.CallRelease? || e.CallAbort?) && CurrentTask(setup, events[..n]) == t then
        Call(e, ReleaseCalls(events[..n], e.g) > 0)
      else LatestCall(setup, events[..n], t)
  }

  /** A task is somewhere inside its latest call, or back from it with the result that this call must have. */
  predicate CallAgrees(pc: Pc, call: Call)
  {
    match call
    case NoCall => pc == Idle(None)
    case Call(CallAcquire(g), released) =>
      (match pc
       case AcqLoad(h, late) => h == g && late == released
       case AcqCheck(h, late) => h == g && late == released
       case AcqReadMask(h, late) => h == g && late == released
       case AcqRaise(h, late, _) => h == g && late == released
       case AcqSave(h, late, _) => h == g && late == released
       case AcqRecheck(h, late) => h == g && late == released
       case AcqTest(h, late) => h == g && late == released
       case AcqUnlock(h, late) => h == g && late == released
       case AcqRestore(h, late, _) => h == g && late == released
       case Idle(Some(r)) => r.g == g && r.late == released
       case _ => false)
    case Call(CallRelease(g), _) =>
      pc == RelStore(g) || pc == AbortTest(g) || pc.AbortUnlock? || pc.AbortRestore? || pc == Idle(None)
    case Call(CallAbort(g), _) => pc == AbortTest(g) || pc.AbortUnlock? || pc.AbortRestore? || pc == Idle(None)
    case _ => false
  }

  /** The calls of releases are those stored, but for one that is about to be. */
  predicate ReleasesStored(s: State, g: nat, calls: nat)
    requires Shape(s) && g < |s.guards|
  {
    calls == s.releases[g] + if s.pcs[s.cur] == RelStore(g) then 1 else 0
  }

  /** A task that can be switched away from is not inside a critical section. */
  lemma {:induction false} SwitchIsOutside(s: State, e: Event)
    requires Inv(s) && Enabled(s, e) && e.Switch?
    ensures Outside(s.pcs[s.cur])
  {
  }

  lemma {:induction false} ReleaseStep(s: State, e: Event, g: nat, calls: nat)
    requires Inv(s) && Enabled(s, e) && !Apply(s, e).blocked && g < |s.guards| && ReleasesStored(s, g, calls)
    ensures Shape(Apply(s, e)) && |Apply(s, e).guards| == |s.guards|
    ensures ReleasesStored(Apply(s, e), g, if e == CallRelease(g) then calls + 1 else calls)
  {
    if e.Switch? { SwitchIsOutside(s, e); }
    hide MutexCounts, InProgress;
  }

  lemma {:induction false} Sizes(setup: Setup, events: seq<Event>)
    requires setup.Proper() && Run(setup, events).Some?
    ensures var s := Run(setup, events).value; |s.guards| == setup.guards && |s.pcs| == setup.tasks
    decreases |events|
  {
    if events != [] {
      var n := |events| - 1;
      Sizes(setup, events[..n]);
      StepSizes(Run(setup, events[..n]).value, events[n]);
      hide Apply, Enabled, Init;
    }
  }

  lemma {:induction false} StepSizes(s: State, e: Event)
    requires Shape(s) && PcInRange(s.pcs[s.cur], |s.guards|) && Enabled(s, e)
    ensures |Apply(s, e).guards| == |s.guards| && |Apply(s, e).pcs| == |s.pcs|
  {
  }

  /** What the latest event of a run did, and to which state. */
  lemma {:induction false} LastEvent(setup: Setup, events: seq<Event>) returns (s: State)
    requires setup.Proper() && events != [] && Run(setup, events).Some? && !Run(setup, events).value.blocked
    ensures Run(setup, events[..|events| - 1]) == Some(s) && Inv(s) && Enabled(s, events[|events| - 1]) && !s.blocked
    ensures Run(setup, events).value == Apply(s, events[|events| - 1])
  {
    s := Run(setup, events[..|events| - 1]).value;
    RunKeepsInv(setup, events[..|events| - 1]);
    hide Inv, Apply;
  }

  lemma {:induction false} ReleaseCallsStored(setup: Setup, events: seq<Event>, g: nat)
    requires setup.Proper() && Run(setup, events).Some? && !Run(setup, events).value.blocked && g < setup.guards
    ensures var s := Run(setup, events).value;
            Shape(s) && g < |s.guards| && ReleasesStored(s, g, ReleaseCalls(events, g))
    decreases |events|
  {
    hide Apply, Enabled, Inv, Run;
    Sizes(setup, events);
    if events == [] {
      EmptyRun(setup);
    } else {
      var n := |events| - 1;
      var s := LastEvent(setup, events);
      ReleaseCallsStored(setup, events[..n], g);
      ReleaseStep(s, events[n], g, ReleaseCalls(events[..n], g));
    }
  }

  lemma {:induction false} EmptyRun(setup: Setup)
    requires setup.Proper()
    ensures Run(setup, []) == Some(Init(setup))
  {
  }

  /**
   * Over any interleaving the release of an object is called at most once; from
   * the first step of that call on the object is initialized, and it is so only
   * because of it.
   */
  lemma {:induction false} ReleasedOnce(setup: Setup, events: seq<Event>, g: nat)
    requires setup.Proper() && Run(setup, events).Some? && !Run(setup, events).value.blocked && g < setup.guards
    ensures var s := Run(setup, events).value;
            && g < |s.guards| && s.cur < |s.pcs| && ReleaseCalls(events, g) <= 1
            && (s.guards[g].initialized <==> ReleaseCalls(events, g) == 1 && s.pcs[s.cur] != RelStore(g))
  {
    ReleaseCallsStored(setup, events, g);
    RunKeepsInv(setup, events);
    hide Run, MutexCounts;
  }

  lemma {:induction false} NextCall(s: State, call: Call)
    requires Advances(s) && CallAgrees(s.pcs[s.cur], call)
    ensures s.cur < |Next(s).pcs| && CallAgrees(Next(s).pcs[s.cur], call)
  {
    hide MutexCounts, InProgress, GuardsAgree;
  }

  lemma {:induction false} NextLeaves(s: State, t: nat)
    requires Shape(s) && PcInRange(s.pcs[s.cur], |s.guards|) && t < |s.pcs| && t != s.cur
    ensures t < |Next(s).pcs| && Next(s).pcs[t] == s.pcs[t]
  {
  }

  lemma {:induction false} CallStep(s: State, e: Event, t: nat, call: Call, released: bool)
    requires Inv(s) && Enabled(s, e) && !Apply(s, e).blocked && t < |s.pcs| && CallAgrees(s.pcs[t], call)
    requires e.CallAcquire? ==> released == s.guards[e.g].initialized
    ensures t < |Apply(s, e).pcs|
    ensures CallAgrees(Apply(s, e).pcs[t],
                       if (e.CallAcquire? || e.CallRelease? || e.CallAbort?) && s.cur == t then Call(e, released) else call)
  {
    hide MutexCounts, InProgress, GuardsAgree, Next;
    if e.Advance? {
      if t == s.cur { NextCall(s, call); } else { NextLeaves(s, t); }
    }
  }

  /** Every task is inside its latest call, or has the result that this call must have. */
  lemma {:induction false} CallsAgree(setup: Setup, events: seq<Event>, t: nat)
    requires setup.Proper() && Run(setup, events).Some? && !Run(setup, events).value.blocked && t < setup.tasks
    ensures var s := Run(setup, events).value; t < |s.pcs| && CallAgrees(s.pcs[t], LatestCall(setup, events, t))
    decreases |events|
  {
    hide Apply, Enabled, Inv, Run, CallAgrees;
    Sizes(setup, events);
    if events == [] {
      EmptyRun(setup);
      InitCall(setup, t);
    } else {
      var n := |events| - 1;
      var e := events[n];
      var s := LastEvent(setup, events);
      CallsAgree(setup, events[..n], t);
      if e.CallAcquire? || e.CallRelease? || e.CallAbort? { CallInRange(setup, events[..n], s, e); }
      CallStep(s, e, t, LatestCall(setup, events[..n], t),
               (e.CallAcquire? || e.CallRelease? || e.CallAbort?) && ReleaseCalls(events[..n], e.g) > 0);
    }
  }

  lemma {:induction false} InitCall(setup: Setup, t: nat)
    requires setup.Proper() && t < setup.tasks
    ensures CallAgrees(Init(setup).pcs[t], NoCall)
  {
  }

  /** At a call the object is initialized exactly if its release has been called before. */
  lemma {:induction false} CallInRange(setup: Setup, events: seq<Event>, s: State, e: Event)
    requires setup.Proper() && Run(setup, events) == Some(s) && !s.blocked && Inv(s) && Enabled(s, e)
    requires e.CallAcquire? || e.CallRelease? || e.CallAbort?
    ensures e.g < setup.guards && e.g < |s.guards|
    ensures s.guards[e.g].initialized <==> ReleaseCalls(events, e.g) > 0
  {
    Sizes(setup, events);
    ReleasedOnce(setup, events, e.g);
    hide Run, MutexCounts, GuardsAgree;
  }

  /** Results are 0 or 1; after 1 the task is the one that constructs, after 0 the object is initialized. */
  predicate ResultMeans(s: State, t: nat)
    requires Shape(s) && t < |s.pcs|
  {
    s.pcs[t].Idle? && s.pcs[t].result.Some? ==>
      var r := s.pcs[t].result.value;
      r.g < |s.guards| && if r.value == 0 then s.guards[r.g].initialized else r.value == 1 && s.owner[r.g] == Some(t)
  }

  predicate ResultsMean(s: State)
    requires Shape(s)
  {
    forall t :: 0 <= t < |s.pcs| ==> ResultMeans(s, t)
  }

  lemma {:induction false} NextResult(s: State)
    requires Advances(s)
    ensures Shape(Next(s)) && ResultMeans(Next(s), s.cur)
  {
    hide MutexCounts, InProgress;
  }

  /** Other tasks have not been told to construct anything, and no object ceases to be initialized. */
  lemma {:induction false} NextOthers(s: State, t: nat)
    requires Advances(s) && t < |s.pcs| && t != s.cur && ResultMeans(s, t)
    ensures Shape(Next(s)) && t < |Next(s).pcs| == |s.pcs| && ResultMeans(Next(s), t)
  {
    hide MutexCounts, InProgress, GuardsAgree;
  }

  lemma {:induction false} CallResult(s: State, e: Event, t: nat)
    requires Inv(s) && Enabled(s, e) && !e.Advance? && t < |s.pcs| && ResultMeans(s, t)
    ensures Shape(Apply(s, e)) && |Apply(s, e).pcs| == |s.pcs| && ResultMeans(Apply(s, e), t)
  {
    hide MutexCounts, InProgress, GuardsAgree;
  }

  lemma {:induction false} ResultsStep(s: State, e: Event)
    requires Inv(s) && Enabled(s, e) && !Apply(s, e).blocked && ResultsMean(s)
    ensures Shape(Apply(s, e)) && ResultsMean(Apply(s, e))
  {
    hide MutexCounts, InProgress, GuardsAgree, Next, ResultMeans;
    if e.Advance? {
      NextResult(s);
      NextSizes(s);
      forall t | 0 <= t < |s.pcs| ensures ResultMeans(Next(s), t) {
        if t != s.cur {
          assert ResultMeans(s, t);
          NextOthers(s, t);
        }
      }
    } else {
      forall t | 0 <= t < |s.pcs| ensures Shape(Apply(s, e)) && |Apply(s, e).pcs| == |s.pcs| && ResultMeans(Apply(s, e), t) {
        CallResult(s, e, t);
      }
    }
  }

  lemma {:induction false} NextSizes(s: State)
    requires Shape(s) && PcInRange(s.pcs[s.cur], |s.guards|)
    ensures |Next(s).pcs| == |s.pcs| && |Next(s).guards| == |s.guards|
  {
  }

  lemma {:induction false} ResultsStayMeaningful(setup: Setup, events: seq<Event>)
    requires setup.Proper() && Run(setup, events).Some? && !Run(setup, events).value.blocked
    ensures var s := Run(setup, events).value; Shape(s) && ResultsMean(s)
    decreases |events|
  {
    hide Apply, Enabled, Inv, ResultsMean, Run;
    if events == [] {
      EmptyRun(setup);
      InitResults(setup);
    } else {
      var s := LastEvent(setup, events);
      ResultsStayMeaningful(setup, events[..|events| - 1]);
      ResultsStep(s, events[|events| - 1]);
    }
  }

  lemma {:induction false} InitResults(setup: Setup)
    requires setup.Proper()
    ensures Shape(Init(setup)) && ResultsMean(Init(setup))
  {
  }

  /**
   * The result of a task's latest call, if that was an acquire: 0 if the release
   * had been called before; otherwise 1, and the task is constructing the object,
   * or 0, and somebody has initialized it meanwhile.
   */
  lemma {:induction false} AcquireReturns(setup: Setup, events: seq<Event>, t: nat, g: nat, released: bool)
    requires setup.Proper() && Run(setup, events).Some? && !Run(setup, events).value.blocked && t < setup.tasks
    requires t < |Run(setup, events).value.pcs| && Run(setup, events).value.pcs[t].Idle?
    requires LatestCall(setup, events, t) == Call(CallAcquire(g), released)
    ensures var s := Run(setup, events).value;
            && g < |s.guards| && |s.owner| == |s.guards| && s.pcs[t].result.Some?
            && var value := s.pcs[t].result.value.value;
               && (released ==> value == 0)
               && (value == 0 ==> s.guards[g].initialized)
               && (value != 0 ==> value == 1 && s.owner[g] == Some(t))
  {
    hide LatestCall, MutexCounts, GuardsAgree, Next, InProgress, ResultMeans;
    CallsAgree(setup, events, t);
    ResultsStayMeaningful(setup, events);
    RunKeepsInv(setup, events);
    var s := Run(setup, events).value;
    hide Run;
    assert ResultMeans(s, t);
    assert PcAgrees(s.pcs[t], s.guards) by { GuardsOf(s, t); }
    ReturnOf(s, t, g, released);
  }

  lemma {:induction false} GuardsOf(s: State, t: nat)
    requires Inv(s) && t < |s.pcs|
    ensures PcInRange(s.pcs[t], |s.guards|) && PcAgrees(s.pcs[t], s.guards)
  {
  }

  lemma {:induction false} ReturnOf(s: State, t: nat, g: nat, released: bool)
    requires Shape(s) && t < |s.pcs| && s.pcs[t].Idle? && CallAgrees(s.pcs[t], Call(CallAcquire(g), released))
    requires ResultMeans(s, t) && PcInRange(s.pcs[t], |s.guards|) && PcAgrees(s.pcs[t], s.guards)
    ensures g < |s.guards| && s.pcs[t].result.Some?
    ensures var value := s.pcs[t].result.value.value;
            && (released ==> value == 0)
            && (value == 0 ==> s.guards[g].initialized)
            && (value != 0 ==> value == 1 && s.owner[g] == Some(t))
  {
  }

  // --------------------------------------- constructions begun and ended

  function AbortCalls(events: seq<Event>, g: nat): nat
  {
    if events == [] then 0
    else AbortCalls(events[..|events| - 1], g) + if events[|events| - 1] == CallAbort(g) then 1 else 0
  }

  /** The running task has just been told to construct `g`. */
  predicate ToldToConstruct(s: State, g: nat)
  {
    && s.cur < |s.pcs| && s.pcs[s.cur].Idle? && s.pcs[s.cur].result.Some?
    && s.pcs[s.cur].result.value.g == g && s.pcs[s.cur].result.value.value == 1
  }

  /** How often an acquire of `g` has returned 1. */
  function Begun(setup: Setup, events: seq<Event>, g: nat): nat
    requires setup.Proper()
  {
    if events == [] then 0
    else
      var n := |events| - 1;
      Begun(setup, events[..n], g)
      + if events[n].Advance? && Run(setup, events).Some? && ToldToConstruct(Run(setup, events).value, g) then 1 else 0
  }

  /** `g` is being constructed, and neither its release nor its abort has been called. */
  predicate Constructing(s: State, g: nat)
    requires Shape(s) && g < |s.guards|
  {
    s.guards[g].acquired && s.pcs[s.cur] != RelStore(g) && s.pcs[s.cur] != AbortTest(g)
  }

  function One(b: bool): nat { if b then 1 else 0 }

  lemma {:induction false} ConstructionStep(s: State, e: Event, g: nat)
    requires Inv(s) && Enabled(s, e) && !Apply(s, e).blocked && g < |s.guards|
    ensures Shape(Apply(s, e)) && |Apply(s, e).guards| == |s.guards|
    ensures One(e.Advance? && ToldToConstruct(Apply(s, e), g)) + One(Constructing(s, g)) ==
            One(e == CallAbort(g)) + One(e == CallRelease(g)) + One(Constructing(Apply(s, e), g))
  {
    if e.Switch? { SwitchIsOutside(s, e); }
    hide MutexCounts, InProgress;
  }

  /** Every construction begun ends in one release or one abort, or is still going on. */
  lemma {:induction false} ConstructionsBalance(setup: Setup, events: seq<Event>, g: nat)
    requires setup.Proper() && Run(setup, events).Some? && !Run(setup, events).value.blocked && g < setup.guards
    ensures var s := Run(setup, events).value;
            Shape(s) && g < |s.guards| &&
            Begun(setup, events, g) == AbortCalls(events, g) + ReleaseCalls(events, g) + One(Constructing(s, g))
    decreases |events|
  {
    hide Apply, Enabled, Inv, Run, Constructing, ToldToConstruct;
    Sizes(setup, events);
    if events == [] {
      EmptyRun(setup);
      InitConstructing(setup, g);
    } else {
      var s := LastEvent(setup, events);
      ConstructionsBalance(setup, events[..|events| - 1], g);
      ConstructionStep(s, events[|events| - 1], g);
    }
  }

  lemma {:induction false} InitConstructing(setup: Setup, g: nat)
    requires setup.Proper() && g < setup.guards
    ensures Shape(Init(setup)) && !Constructing(Init(setup), g)
  {
  }

  // ---------------------------------- the guard mutex of each strategy

  predicate Unlocking(pc: Pc) { pc.AcqUnlock? || pc.AbortUnlock? }

  /** What the running task does to the flag and the counter of strategy 2. */
  function PrimaskNext(pc: Pc, mutex: LockData): LockData
  {
    if pc.AcqSave? then (match Acquired(mutex, pc.mask == 1) case None => mutex case Some(m) => m)
    else if Unlocking(pc) then (match Released(mutex) case None => mutex case Some((m, _)) => m)
    else mutex
  }

  /** The flag and the counter after a run. */
  function PrimaskAfter(setup: Setup, events: seq<Event>): LockData
    requires setup.Proper()
  {
    if events == [] then LockData(false, 0)
    else
      var n := |events| - 1;
      var before := Run(setup, events[..n]);
      if events[n].Advance? && before.Some? && Shape(before.value) then
        PrimaskNext(before.value.pcs[before.value.cur], PrimaskAfter(setup, events[..n]))
      else PrimaskAfter(setup, events[..n])
  }

  /** The flag and the counter block when the machine does and enable interrupts when it restores an enabling mask. */
  predicate PrimaskAgrees(s: State, mutex: LockData)
    requires Shape(s) && PcInRange(s.pcs[s.cur], |s.guards|)
  {
    var pc := s.pcs[s.cur];
    && SavedMasks(mutex) == s.saved
    && (pc.AcqSave? ==> (Next(s).blocked <==> Acquired(mutex, pc.mask == 1).None?))
    && (Unlocking(pc) ==>
          match Released(mutex)
          case None => false
          case Some((_, enable)) =>
            Restoring(Next(s).pcs[s.cur]) && Next(s).pcs[s.cur].mask == if enable then 0 else s.mask)
  }

  lemma {:induction false} PrimaskSave(s: State, mutex: LockData)
    requires Shape(s) && PcInRange(s.pcs[s.cur], |s.guards|) && MutexCounts(s) && !s.blocked && s.pcs[s.cur].AcqSave?
    requires s.lock == PRIMASK_STRATEGY && s.startMask <= 1 && SavedMasks(mutex) == s.saved
    ensures PrimaskAgrees(s, mutex)
    ensures !Next(s).blocked ==> SavedMasks(PrimaskNext(s.pcs[s.cur], mutex)) == Next(s).saved
  {
    hide InProgress;
  }

  lemma {:induction false} PrimaskRestore(s: State, mutex: LockData)
    requires Shape(s) && PcInRange(s.pcs[s.cur], |s.guards|) && MutexCounts(s) && !s.blocked && Unlocking(s.pcs[s.cur])
    requires s.lock == PRIMASK_STRATEGY && s.startMask <= 1 && SavedMasks(mutex) == s.saved
    ensures PrimaskAgrees(s, mutex)
    ensures !Next(s).blocked ==> SavedMasks(PrimaskNext(s.pcs[s.cur], mutex)) == Next(s).saved
  {
    hide InProgress;
  }

  lemma {:induction false} PrimaskQuiet(s: State, mutex: LockData)
    requires Shape(s) && PcInRange(s.pcs[s.cur], |s.guards|)
    requires !s.pcs[s.cur].AcqSave? && !Unlocking(s.pcs[s.cur]) && SavedMasks(mutex) == s.saved
    ensures PrimaskAgrees(s, mutex)
    ensures SavedMasks(PrimaskNext(s.pcs[s.cur], mutex)) == Next(s).saved
  {
    hide SavedMasks;
  }

  lemma {:induction false} PrimaskStep(s: State, mutex: LockData)
    requires Shape(s) && PcInRange(s.pcs[s.cur], |s.guards|) && MutexCounts(s) && !s.blocked
    requires s.lock == PRIMASK_STRATEGY && s.startMask <= 1 && SavedMasks(mutex) == s.saved
    ensures PrimaskAgrees(s, mutex)
    ensures !Next(s).blocked ==> SavedMasks(PrimaskNext(s.pcs[s.cur], mutex)) == Next(s).saved
  {
    hide SavedMasks, PrimaskAgrees, PrimaskNext, MutexCounts, Next;
    if s.pcs[s.cur].AcqSave? {
      PrimaskSave(s, mutex);
    } else if Unlocking(s.pcs[s.cur]) {
      PrimaskRestore(s, mutex);
    } else {
      PrimaskQuiet(s, mutex);
    }
  }

  lemma {:induction false} PrimaskEvent(s: State, e: Event, mutex: LockData)
    requires Inv(s) && Enabled(s, e) && s.lock == PRIMASK_STRATEGY && s.startMask <= 1 && SavedMasks(mutex) == s.saved
    requires !Apply(s, e).blocked
    ensures SavedMasks(if e.Advance? then PrimaskNext(s.pcs[s.cur], mutex) else mutex) == Apply(s, e).saved
  {
    PrimaskStep(s, mutex);
    hide SavedMasks, PrimaskAgrees, PrimaskNext, MutexCounts, GuardsAgree, Next;
  }

  /** After every run the guard mutex of strategy 2 has saved what the mask-saving lock has, and goes on as that does. */
  lemma {:induction false} PrimaskMutex(setup: Setup, events: seq<Event>)
    requires setup.Proper() && setup.lock == PRIMASK_STRATEGY && setup.startMask <= 1
    requires Run(setup, events).Some? && !Run(setup, events).value.blocked
    ensures var s := Run(setup, events).value;
            Shape(s) && PcInRange(s.pcs[s.cur], |s.guards|) && PrimaskAgrees(s, PrimaskAfter(setup, events))
    decreases |events|
  {
    RunKeepsInv(setup, events);
    SameSetup(setup, events);
    var t := Run(setup, events).value;
    assert SavedMasks(PrimaskAfter(setup, events)) == t.saved by {
      if events != [] {
        var n := |events| - 1;
        hide SavedMasks, PrimaskNext, MutexCounts, GuardsAgree, Apply;
        PrimaskMutex(setup, events[..n]);
        RunKeepsInv(setup, events[..n]);
        SameSetup(setup, events[..n]);
        PrimaskEvent(Run(setup, events[..n]).value, events[n], PrimaskAfter(setup, events[..n]));
      }
    }
    hide SavedMasks, PrimaskAgrees, MutexCounts, GuardsAgree, PrimaskAfter, Run;
    PrimaskStep(t, PrimaskAfter(setup, events));
  }

  /** What the running task does to the array of two masks and the nesting level of strategy 4. */
  function BasepriNext(pc: Pc, mutex: BasepriData): BasepriData
  {
    var level := (mutex.level + 255) % 256;
    if pc.AcqSave? && mutex.level < |mutex.basepri| then
      BasepriData(mutex.basepri[mutex.level := pc.mask], mutex.level + 1)
    else if Unlocking(pc) then mutex.(level := level)
    else mutex
  }

  function BasepriAfter(setup: Setup, events: seq<Event>): BasepriData
    requires setup.Proper()
  {
    if events == [] then BasepriData([0, 0], 0)
    else
      var n := |events| - 1;
      var before := Run(setup, events[..n]);
      if events[n].Advance? && before.Some? && Shape(before.value) then
        BasepriNext(before.value.pcs[before.value.cur], BasepriAfter(setup, events[..n]))
      else BasepriAfter(setup, events[..n])
  }

  predicate BasepriSaves(mutex: BasepriData, saved: seq<nat>)
  {
    |mutex.basepri| == 2 && mutex.level <= 2 && mutex.basepri[..mutex.level] == saved
  }

  /** The array and the nesting level block when the machine does and restore what it does; no access is out of bounds. */
  predicate BasepriAgrees(s: State, mutex: BasepriData)
    requires Shape(s) && PcInRange(s.pcs[s.cur], |s.guards|)
  {
    var pc, lower := s.pcs[s.cur], (mutex.level + 255) % 256;
    && BasepriSaves(mutex, s.saved)
    && (pc.AcqCheck? ==> (Next(s).blocked <==> mutex.level >= |mutex.basepri|))
    && (pc.AcqSave? ==> mutex.level < |mutex.basepri|)
    && (Unlocking(pc) ==>
          lower < |mutex.basepri| && Restoring(Next(s).pcs[s.cur]) && Next(s).pcs[s.cur].mask == mutex.basepri[lower])
  }

  lemma {:induction false} BasepriStep(s: State, mutex: BasepriData)
    requires Shape(s) && PcInRange(s.pcs[s.cur], |s.guards|) && MutexCounts(s) && !s.blocked
    requires s.lock == BASEPRI_STRATEGY && BasepriSaves(mutex, s.saved)
    ensures BasepriAgrees(s, mutex)
    ensures !Next(s).blocked ==> BasepriSaves(BasepriNext(s.pcs[s.cur], mutex), Next(s).saved)
  {
  }

  lemma {:induction false} BasepriEvent(s: State, e: Event, mutex: BasepriData)
    requires Inv(s) && Enabled(s, e) && s.lock == BASEPRI_STRATEGY && BasepriSaves(mutex, s.saved)
    requires !Apply(s, e).blocked
    ensures BasepriSaves(if e.Advance? then BasepriNext(s.pcs[s.cur], mutex) else mutex, Apply(s, e).saved)
  {
    BasepriStep(s, mutex);
    hide BasepriSaves, BasepriAgrees, BasepriNext, MutexCounts, GuardsAgree, Next;
  }

  /**
   * After every run the guard mutex of strategy 4 has saved what the mask-saving
   * lock has, and goes on as that does.  Although it checks the nesting level
   * before it raises the mask, its array is never indexed out of bounds, neither
   * on acquisition nor after the eight-bit decrement on release.
   */
  lemma {:induction false} BasepriMutex(setup: Setup, events: seq<Event>)
    requires setup.Proper() && setup.lock == BASEPRI_STRATEGY
    requires Run(setup, events).Some? && !Run(setup, events).value.blocked
    ensures var s := Run(setup, events).value;
            Shape(s) && PcInRange(s.pcs[s.cur], |s.guards|) && BasepriAgrees(s, BasepriAfter(setup, events))
    decreases |events|
  {
    RunKeepsInv(setup, events);
    SameSetup(setup, events);
    var t := Run(setup, events).value;
    assert BasepriSaves(BasepriAfter(setup, events), t.saved) by {
      if events != [] {
        var n := |events| - 1;
        hide BasepriSaves, BasepriNext, MutexCounts, GuardsAgree, Apply;
        BasepriMutex(setup, events[..n]);
        RunKeepsInv(setup, events[..n]);
        SameSetup(setup, events[..n]);
        BasepriEvent(Run(setup, events[..n]).value, events[n], BasepriAfter(setup, events[..n]));
      }
    }
    hide BasepriSaves, BasepriAgrees, MutexCounts, GuardsAgree, BasepriAfter, Run;
    BasepriStep(t, BasepriAfter(setup, events));
  }

  // ------------------------------------------------ nested constructors

  lemma {:induction false} RunEvent(setup: Setup, events: seq<Event>, e: Event)
    requires setup.Proper() && Run(setup, events).Some?
    requires var s := Run(setup, events).value; Shape(s) && PcInRange(s.pcs[s.cur], |s.guards|) && Enabled(s, e)
    ensures Run(setup, events + [e]) == Some(Apply(Run(setup, events).value, e))
  {
    assert (events + [e])[..|events|] == events;
  }

  /** The first `k` objects are being constructed, each within the constructor of the one before, by one task. */
  predicate Nested(s: State, k: nat)
  {
    && Shape(s) && !s.blocked && s.pcs[s.cur].Idle? && PcInRange(s.pcs[s.cur], |s.guards|)
    && |s.saved| == k <= |s.guards|
    && forall g :: k <= g < |s.guards| ==> s.guards[g] == Guard(false, false)
  }

  lemma {:induction false} AdvanceOnce(setup: Setup, events: seq<Event>) returns (more: seq<Event>)
    requires setup.Proper() && Run(setup, events).Some?
    requires var s := Run(setup, events).value;
             Shape(s) && PcInRange(s.pcs[s.cur], |s.guards|) && !s.blocked && !s.pcs[s.cur].Idle?
    ensures Run(setup, more) == Some(Next(Run(setup, events).value))
  {
    RunEvent(setup, events, Advance);
    more := events + [Advance];
  }

  lemma {:induction false} CallNext(setup: Setup, events: seq<Event>, k: nat) returns (more: seq<Event>)
    requires setup.Proper() && Run(setup, events).Some? && Nested(Run(setup, events).value, k) && k < |Run(setup, events).value.guards|
    ensures var s := Run(setup, events).value; Run(setup, more) == Some(Goto(s, AcqCheck(k, false)))
  {
    var s := Run(setup, events).value;
    RunEvent(setup, events, CallAcquire(k));
    hide Run;
    more := AdvanceOnce(setup, events + [CallAcquire(k)]);
    assert s.pcs[s.cur := AcqLoad(k, false)][s.cur := AcqCheck(k, false)] == s.pcs[s.cur := AcqCheck(k, false)];
  }

  lemma {:induction false} EnterLock(setup: Setup, events: seq<Event>, k: nat, s: State) returns (more: seq<Event>)
    requires setup.Proper() && Nested(s, k) && k < |s.guards| && k < s.lock.capacity
    requires Run(setup, events) == Some(Goto(s, AcqCheck(k, false)))
    ensures Run(setup, more) == Some(Goto(s.(mask := s.lock.raised, saved := s.saved + [s.mask]), AcqRecheck(k, false)))
  {
    hide Run;
    var a := AdvanceOnce(setup, events);
    var b := AdvanceOnce(setup, a);
    var c := AdvanceOnce(setup, b);
    more := AdvanceOnce(setup, c);
    var t := Goto(s.(mask := s.lock.raised, saved := s.saved + [s.mask]), AcqRecheck(k, false));
    assert Run(setup, more).value.pcs == t.pcs;
    assert Run(setup, more) == Some(t);
  }

  lemma {:induction false} NestOne(setup: Setup, events: seq<Event>, k: nat) returns (more: seq<Event>)
    requires setup.Proper() && Run(setup, events).Some? && Nested(Run(setup, events).value, k)
    requires k < |Run(setup, events).value.guards| && k < Run(setup, events).value.lock.capacity
    ensures Run(setup, more).Some? && Nested(Run(setup, more).value, k + 1)
    ensures |Run(setup, more).value.guards| == |Run(setup, events).value.guards|
    ensures Run(setup, more).value.lock == Run(setup, events).value.lock
  {
    var s := Run(setup, events).value;
    hide Run;
    var a := CallNext(setup, events, k);
    var b := EnterLock(setup, a, k, s);
    var c := AdvanceOnce(setup, b);
    more := AdvanceOnce(setup, c);
  }

  lemma {:induction false} NestMany(setup: Setup, k: nat) returns (more: seq<Event>)
    requires setup.Proper() && k <= setup.guards && k <= setup.lock.capacity
    ensures Run(setup, more).Some? && Nested(Run(setup, more).value, k)
    ensures |Run(setup, more).value.guards| == setup.guards && Run(setup, more).value.lock == setup.lock
  {
    if k == 0 {
      more := [];
    } else {
      var before := NestMany(setup, k - 1);
      more := NestOne(setup, before, k - 1);
    }
  }

  /**
   * One constructor nested deeper than the lock can save masks for hangs the
   * system, though nothing is initialized recursively: the third one under
   * strategy 4.
   */
  lemma {:induction false} TooManyConstructorsHang(setup: Setup) returns (events: seq<Event>)
    requires setup.Proper() && setup.guards > setup.lock.capacity
    ensures Run(setup, events).Some?
    ensures var s := Run(setup, events).value;
            && s.blocked && |s.saved| == setup.lock.capacity && Shape(s)
            && (s.pcs[s.cur].AcqCheck? || s.pcs[s.cur].AcqSave?)
            && s.pcs[s.cur].g < |s.guards| && s.guards[s.pcs[s.cur].g] == Guard(false, false)
  {
    var a := NestMany(setup, setup.lock.capacity);
    hide Run;
    var b := CallNext(setup, a, setup.lock.capacity);
    events := AdvanceOnce(setup, b);
    if !setup.lock.checksFirst {
      var c := AdvanceOnce(setup, events);
      var d := AdvanceOnce(setup, c);
      events := AdvanceOnce(setup, d);
    }
  }
}
