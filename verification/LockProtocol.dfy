/**
  The scheduler lock and the interrupt flag on one core.  Threads nest
  `without_interrupts`, take the scheduler lock at the places the kernel does,
  and are interrupted and switched whenever the flag allows it.
*/
module LockProtocol {

  /** What a thread's kernel stack remembers: the flag read by a guard about to mask interrupts, the flag found by
      a guard in force, the flag a handler interrupted, and the lock. */
  datatype Frame =
    | Saved(saved: bool)
    | Guard(saved: bool)
    | Handler(saved: bool)
    | Lock

  /** A thread: the flag its own code runs with, and the frames open on top of it. */
  datatype Context = Context(base: bool, frames: seq<Frame>)

  datatype Core = Core(flag: bool, lockHeld: bool, running: nat, context: Context, suspended: map<nat, Context>)

  /** A guard first reads the flag (pushfd, pop) and then clears it (cli); an interrupt may come in between. */
  datatype Step =
    | SaveFlag
    | ClearFlag
    | ExitGuard
    | Acquire
    | Release
    | Interrupt
    | Trap
    | Return(to: nat)
    | Spawn(thread: nat)
    | Retire(thread: nat)
    | EnterUser

  /** The boot loader hands over with interrupts disabled (section 3.2 of the Multiboot Specification 0.6.96). */
  const BOOT := Core(false, false, 1, Context(false, []), map[])

  function Top(c: Context): Frame
    requires c.frames != []
  {
    c.frames[|c.frames| - 1]
  }

  function Pop(c: Context): Context
    requires c.frames != []
  {
    c.(frames := c.frames[..|c.frames| - 1])
  }

  function Push(c: Context, f: Frame): Context {
    c.(frames := c.frames + [f])
  }

  /** Where the kernel takes the lock: inside a guard, inside a handler, or while booting with interrupts off. */
  predicate LockSite(c: Context) {
    if c.frames == [] then !c.base else Top(c).Guard? || Top(c).Handler?
  }

  predicate Enabled(s: Core, e: Step) {
    match e
    case SaveFlag => true
    case ClearFlag => s.context.frames != [] && Top(s.context).Saved?
    case ExitGuard => s.context.frames != [] && Top(s.context).Guard?
    case Acquire => LockSite(s.context) && !s.lockHeld
    case Release => s.context.frames != [] && Top(s.context).Lock?
    case Interrupt => s.flag
    case Trap => s.context.frames == [] && s.context.base
    case Return(t) =>
      && s.context.frames != [] && Top(s.context).Handler?
      && (t == s.running || (t in s.suspended && s.suspended[t].frames != [] && Top(s.suspended[t]).Handler?))
    case Spawn(t) => t != s.running && t !in s.suspended
    case Retire(t) => t in s.suspended
    case EnterUser => s.context.frames == []
  }

  function Next(s: Core, e: Step): Core
    requires Enabled(s, e)
  {
    match e
    case SaveFlag => s.(context := Push(s.context, Saved(s.flag)))
    case ClearFlag => s.(context := Push(Pop(s.context), Guard(Top(s.context).saved)), flag := false)
    case ExitGuard => s.(context := Pop(s.context), flag := s.flag || Top(s.context).saved)
    case Acquire => s.(context := Push(s.context, Lock), lockHeld := true)
    case Release => s.(context := Pop(s.context), lockHeld := false)
    case Interrupt => s.(context := Push(s.context, Handler(s.flag)), flag := false)
    case Trap => s.(context := Push(s.context, Handler(s.flag)), flag := false)
    case Return(t) =>
      if t == s.running then s.(context := Pop(s.context), flag := Top(s.context).saved)
      else
        var c := s.suspended[t];
        Core(Top(c).saved, s.lockHeld, t, Pop(c), (s.suspended - {t})[s.running := s.context])
    case Spawn(t) => s.(suspended := s.suspended[t := Context(true, [Handler(true)])])
    case Retire(t) => s.(suspended := s.suspended - {t})
    case EnterUser => s.(context := Context(true, []), flag := true)
  }

  // ---- The invariant ----

  /** The flag a context runs with: its own below any frame, off above a guard or a handler. */
  function FlagOf(c: Context): bool
    decreases |c.frames|
  {
    if c.frames == [] then c.base else (Top(c).Lock? || Top(c).Saved?) && FlagOf(Pop(c))
  }

  predicate HoldsLock(c: Context)
    decreases |c.frames|
  {
    c.frames != [] && (Top(c).Lock? || HoldsLock(Pop(c)))
  }

  /** Guards and handlers hold the flag below them; the lock is taken once, with the flag off, and no
      handler starts above it. */
  predicate Sound(c: Context)
    decreases |c.frames|
  {
    c.frames == [] ||
    (&& Sound(Pop(c))
     && match Top(c)
        case Saved(saved) => saved == FlagOf(Pop(c))
        case Guard(saved) => saved == FlagOf(Pop(c))
        case Handler(saved) => saved == FlagOf(Pop(c)) && !HoldsLock(Pop(c))
        case Lock => !FlagOf(Pop(c)) && !HoldsLock(Pop(c)))
  }

  ghost predicate Inv(s: Core) {
    && Sound(s.context)
    && s.flag == FlagOf(s.context)
    && s.lockHeld == HoldsLock(s.context)
    && s.running !in s.suspended
    && forall t :: t in s.suspended ==>
         Sound(s.suspended[t]) && s.suspended[t].frames != [] && Top(s.suspended[t]).Handler?
  }

  /** A thread that holds the lock has interrupts off. */
  lemma {:induction false} LockMasks(c: Context)
    requires Sound(c) && HoldsLock(c)
    ensures !FlagOf(c)
    decreases |c.frames|
  {
    if Top(c).Lock? {
    } else {
      LockMasks(Pop(c));
    }
  }

  lemma PushPop(c: Context, f: Frame)
    ensures Push(c, f).frames != [] && Top(Push(c, f)) == f && Pop(Push(c, f)) == c
  {
    assert (c.frames + [f])[..|c.frames|] == c.frames;
  }

  /** What pushing a frame on a sound context does to its flag and to the lock. */
  lemma PushKeeps(c: Context, f: Frame)
    requires Sound(c)
    requires match f
             case Saved(saved) => saved == FlagOf(c)
             case Guard(saved) => saved == FlagOf(c)
             case Handler(saved) => saved == FlagOf(c) && !HoldsLock(c)
             case Lock => !FlagOf(c) && !HoldsLock(c)
    ensures Sound(Push(c, f))
    ensures FlagOf(Push(c, f)) == (f.Saved? && FlagOf(c))
    ensures HoldsLock(Push(c, f)) == (f.Lock? || HoldsLock(c))
  {
    PushPop(c, f);
  }

  lemma StepKeeps(s: Core, e: Step)
    requires Inv(s) && Enabled(s, e)
    ensures Inv(Next(s, e))
  {
    match e
    case SaveFlag => PushKeeps(s.context, Saved(s.flag));
    case ClearFlag => PushKeeps(Pop(s.context), Guard(Top(s.context).saved));
    case Acquire => PushKeeps(s.context, Lock);
    case Interrupt => LockFreeWhenEnabled(s); PushKeeps(s.context, Handler(s.flag));
    case Trap => PushKeeps(s.context, Handler(s.flag));
    case Spawn(t) =>
      assert Pop(Context(true, [Handler(true)])) == Context(true, []);
    case _ =>
  }

  /** While interrupts are enabled nobody holds the lock. */
  lemma LockFreeWhenEnabled(s: Core)
    requires Inv(s)
    ensures s.flag ==> !s.lockHeld
  {
    if s.lockHeld {
      LockMasks(s.context);
    }
  }

  // ---- Runs ----

  ghost predicate Moves(states: seq<Core>, steps: seq<Step>, i: nat)
    requires |states| == |steps| + 1 && i < |steps|
  {
    Enabled(states[i], steps[i]) && states[i + 1] == Next(states[i], steps[i])
  }

  ghost predicate IsRun(states: seq<Core>, steps: seq<Step>) {
    && |states| == |steps| + 1
    && states[0] == BOOT
    && forall i {:trigger Moves(states, steps, i)} :: 0 <= i < |steps| ==> Moves(states, steps, i)
  }

  lemma {:induction false} RunKeeps(states: seq<Core>, steps: seq<Step>, k: nat)
    requires IsRun(states, steps) && k <= |steps|
    ensures Inv(states[k])
  {
    if k == 0 {
    } else {
      RunKeeps(states, steps, k - 1);
      assert Moves(states, steps, k - 1);
      StepKeeps(states[k - 1], steps[k - 1]);
    }
  }

  /** In every reachable state the lock is held only with interrupts off, so an interrupt or a trap finds it free;
      and wherever the kernel goes to take it, it is free unless the running thread itself holds it. */
  lemma NoHandlerFindsTheLockHeld(states: seq<Core>, steps: seq<Step>, k: nat)
    requires IsRun(states, steps) && k <= |steps|
    ensures states[k].lockHeld ==> !states[k].flag
    ensures Enabled(states[k], Interrupt) || Enabled(states[k], Trap) ==> !states[k].lockHeld
    ensures states[k].lockHeld <==> HoldsLock(states[k].context)
    ensures states[k].context.frames != [] && Top(states[k].context).Handler? ==> Enabled(states[k], Acquire)
  {
    RunKeeps(states, steps, k);
    LockFreeWhenEnabled(states[k]);
  }

  // ---- Guards ----

  /** The frames of thread `t`, running or suspended. */
  function FramesOf(s: Core, t: nat): seq<Frame> {
    if t == s.running then s.context.frames else if t in s.suspended then s.suspended[t].frames else []
  }

  /** Thread `t` has not yet left the guard it opened on top of `below` when the flag was `saved`. */
  ghost predicate Opened(s: Core, t: nat, below: seq<Frame>, saved: bool) {
    var f := FramesOf(s, t);
    |f| > |below| && f[..|below|] == below && (f[|below|] == Saved(saved) || f[|below|] == Guard(saved))
  }

  lemma OpenedPersists(s: Core, e: Step, t: nat, below: seq<Frame>, saved: bool)
    requires Enabled(s, e) && Opened(s, t, below, saved) && |FramesOf(Next(s, e), t)| > |below|
    requires s.running !in s.suspended
    ensures Opened(Next(s, e), t, below, saved)
  {
    var f, g := FramesOf(s, t), FramesOf(Next(s, e), t);
    assert |g| <= |f| ==> g[..|g| - 1] == f[..|g| - 1];
    assert |g| > |f| ==> g[..|f|] == f;
  }

  /** From reading the flag until leaving the guard, whatever interrupts and switches come in between, the guard's
      frame keeps the flag read. */
  lemma {:induction false} GuardStaysOpen(states: seq<Core>, steps: seq<Step>, i: nat, k: nat)
    requires IsRun(states, steps) && i < k <= |steps| && steps[i] == SaveFlag
    requires forall m :: i < m <= k ==> |FramesOf(states[m], states[i].running)| > |states[i].context.frames|
    ensures Opened(states[k], states[i].running, states[i].context.frames, states[i].flag)
    decreases k
  {
    assert Moves(states, steps, k - 1);
    if k == i + 1 {
      PushPop(states[i].context, Saved(states[i].flag));
    } else {
      GuardStaysOpen(states, steps, i, k - 1);
      RunKeeps(states, steps, k - 1);
      OpenedPersists(states[k - 1], steps[k - 1], states[i].running, states[i].context.frames, states[i].flag);
    }
  }

  /** Leaving a guard restores the flag found on entry: however many guards were opened and closed inside it, and
      whatever interrupts and switches fell between reading the flag and clearing it. */
  lemma GuardRestoresFlag(states: seq<Core>, steps: seq<Step>, i: nat, k: nat)
    requires IsRun(states, steps) && i < k < |steps| && steps[i] == SaveFlag && steps[k] == ExitGuard
    requires forall m :: i < m <= k ==> |FramesOf(states[m], states[i].running)| > |states[i].context.frames|
    requires states[k].running == states[i].running && |states[k].context.frames| == |states[i].context.frames| + 1
    ensures states[k + 1].flag == states[i].flag
    ensures states[k + 1].running == states[i].running
    ensures states[k + 1].context.frames == states[i].context.frames
  {
    GuardStaysOpen(states, steps, i, k);
    RunKeeps(states, steps, k);
    assert Moves(states, steps, k);
  }

  /** Thread `t` runs inside a guard in force on top of `below`, with no handler above it. */
  ghost predicate InGuard(s: Core, t: nat, below: seq<Frame>) {
    var f := s.context.frames;
    && s.running == t && !s.flag && |f| > |below|
    && f[..|below|] == below && f[|below|].Guard?
    && forall i :: |below| <= i < |f| ==> !f[i].Handler?
  }

  /** Above a guard interrupts are off until a handler's frame, whatever else is open. */
  lemma {:induction false} GuardMasks(c: Context, h: nat)
    requires Sound(c) && h < |c.frames| && c.frames[h].Guard?
    ensures !FlagOf(c)
    decreases |c.frames|
  {
    if h == |c.frames| - 1 {
    } else {
      GuardMasks(Pop(c), h);
    }
  }

  lemma GuardPersists(states: seq<Core>, steps: seq<Step>, k: nat, t: nat, below: seq<Frame>)
    requires IsRun(states, steps) && k < |steps| && InGuard(states[k], t, below)
    requires |FramesOf(states[k + 1], t)| > |below|
    ensures InGuard(states[k + 1], t, below)
  {
    assert Moves(states, steps, k);
    RunKeeps(states, steps, k + 1);
    GuardMasks(states[k + 1].context, |below|);
  }

  lemma GuardInForce(states: seq<Core>, steps: seq<Step>, i: nat)
    requires IsRun(states, steps) && i < |steps| && steps[i] == ClearFlag
    ensures states[i].context.frames != []
    ensures InGuard(states[i + 1], states[i].running, Pop(states[i].context).frames)
  {
    assert Moves(states, steps, i);
    PushPop(Pop(states[i].context), Guard(Top(states[i].context).saved));
  }

  /** From clearing the flag until leaving the guard the thread is neither interrupted nor switched away from. */
  lemma {:induction false} GuardedRegionIsAtomic(states: seq<Core>, steps: seq<Step>, i: nat, k: nat)
    requires IsRun(states, steps) && i < k <= |steps| && steps[i] == ClearFlag && states[i].context.frames != []
    requires forall m :: i < m <= k ==> |FramesOf(states[m], states[i].running)| >= |states[i].context.frames|
    ensures InGuard(states[k], states[i].running, Pop(states[i].context).frames)
    decreases k
  {
    if k == i + 1 {
      GuardInForce(states, steps, i);
    } else {
      GuardedRegionIsAtomic(states, steps, i, k - 1);
      GuardPersists(states, steps, k - 1, states[i].running, Pop(states[i].context).frames);
    }
  }

  // ---- The guard as code ----

  /** Code run by one thread: guards and uses of the scheduler, nested and in sequence. */
  datatype Body = Done | Guarded(inner: Body, rest: Body) | UseScheduler(rest: Body)

  /** How many times the code takes the scheduler's lock. */
  function Uses(body: Body): nat {
    match body
    case Done => 0
    case Guarded(inner, rest) => Uses(inner) + Uses(rest)
    case UseScheduler(rest) => 1 + Uses(rest)
  }

  /** `n` acquisitions, all with interrupts off. */
  function Masked(n: nat): seq<bool> {
    seq(n, _ => false)
  }

  class Cpu {
    var interruptFlag: bool
    var schedulerLocked: bool
    /** The interrupt flag at each acquisition of the scheduler's lock so far. */
    ghost var acquisitions: seq<bool>

    /** Every acquisition inside happens with interrupts off, and the flag comes back as it was. */
    method WithoutInterrupts(body: Body)
      requires !schedulerLocked
      modifies this
      ensures interruptFlag == old(interruptFlag) && !schedulerLocked
      ensures acquisitions == old(acquisitions) + Masked(Uses(body))
      decreases body, 1
    {
      var flags := interruptFlag;
      interruptFlag := false;
      Run(body);
      if flags {
        interruptFlag := true;
      }
    }

    method Run(body: Body)
      requires !interruptFlag && !schedulerLocked
      modifies this
      ensures !interruptFlag && !schedulerLocked
      ensures acquisitions == old(acquisitions) + Masked(Uses(body))
      decreases body, 0
    {
      match body
      case Done =>
      case Guarded(inner, rest) =>
        WithoutInterrupts(inner);
        Run(rest);
        assert Masked(Uses(inner)) + Masked(Uses(rest)) == Masked(Uses(body));
      case UseScheduler(rest) =>
        schedulerLocked := true;
        acquisitions := acquisitions + [interruptFlag];
        schedulerLocked := false;
        Run(rest);
        assert [false] + Masked(Uses(rest)) == Masked(Uses(body));
    }
  }
}
