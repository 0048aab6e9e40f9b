/**
  Theorems over whole runs of the scheduler: what holds after any sequence of
  registrations, timer ticks, sleeps, kills and user faults.  A run is shorter
  than the 2^64 - 2^32 events after which the tick counter could make a deadline wrap.
*/
module SchedulerRuns {
  import opened Wrappers
  import opened Tasks
  import opened SchedulerInvariant
  import opened SchedulerByPid

  ghost predicate Moves(states: seq<Scheduler>, events: seq<Event>, i: nat)
    requires |states| == |events| + 1 && i < |events|
  {
    Step(states[i], events[i]) == Some(states[i + 1])
  }

  ghost predicate IsRun(states: seq<Scheduler>, events: seq<Event>) {
    && |states| == |events| + 1
    && states[0].tickCount + |events| + U32_LIMIT < U64_LIMIT
    && forall i {:trigger Moves(states, events, i)} :: 0 <= i < |events| ==> Moves(states, events, i)
  }

  ghost predicate IsBootRun(states: seq<Scheduler>, events: seq<Event>) {
    IsRun(states, events) && states[0] == BOOT
  }

  lemma MoveKeeps(states: seq<Scheduler>, events: seq<Event>, i: nat)
    requires IsRun(states, events) && i < |events| && Inv(states[i]) && Roomy(states[i])
    ensures Inv(states[i + 1])
    ensures states[i + 1].tickCount == if events[i].TimerTick? then states[i].tickCount + 1 else states[i].tickCount
  {
    assert Moves(states, events, i);
    StepKeeps(states[i], events[i]);
  }

  lemma {:induction false} RunKeeps(states: seq<Scheduler>, events: seq<Event>, k: nat)
    requires IsRun(states, events) && Inv(states[0]) && k <= |events|
    ensures Inv(states[k]) && Roomy(states[k])
    ensures states[0].tickCount <= states[k].tickCount <= states[0].tickCount + k
  {
    if k == 0 {
    } else {
      RunKeeps(states, events, k - 1);
      MoveKeeps(states, events, k - 1);
    }
  }

  /** One move of a run, as seen by one pid. */
  lemma MoveByPid(states: seq<Scheduler>, events: seq<Event>, i: nat, pid: nat)
    requires IsRun(states, events) && Inv(states[0]) && i < |events|
    ensures Inv(states[i]) && Roomy(states[i]) && Inv(states[i + 1])
    ensures states[i + 1].tickCount == if events[i].TimerTick? then states[i].tickCount + 1 else states[i].tickCount
    ensures TaskOf(states[i + 1], pid) == NextByPid(states[i], events[i], pid)
    ensures Issued(states[i], pid) ==> Issued(states[i + 1], pid)
  {
    RunKeeps(states, events, i);
    MoveKeeps(states, events, i);
    assert Moves(states, events, i);
    StepByPid(states[i], events[i], pid);
    if Issued(states[i], pid) {
      StepIssues(states[i], events[i], pid);
    }
  }

  /** Every state of every run satisfies the invariant; no tick in it can panic, and a user fault panics
      exactly when no task is registered or a kernel task is current. */
  lemma ReachableStatesAreSafe(states: seq<Scheduler>, events: seq<Event>, k: nat, esp: nat)
    requires IsBootRun(states, events) && k <= |events|
    ensures Inv(states[k])
    ensures Tick(states[k], esp).Resumed?
    ensures Fault(states[k], esp).Resumed? <==> FaultHandled(states[k])
  {
    RunKeeps(states, events, k);
    TickKeeps(states[k], esp);
    FaultKeeps(states[k], esp);
  }

  // ---- Pids ----

  /** A pid that was issued and is gone stays gone: it is neither reused nor resurrected. */
  lemma {:induction false} PidsAreNeverReused(states: seq<Scheduler>, events: seq<Event>, j: nat, k: nat, pid: nat)
    requires IsRun(states, events) && Inv(states[0]) && j <= k <= |events|
    requires Issued(states[j], pid) && TaskOf(states[j], pid).None?
    ensures Issued(states[k], pid) && TaskOf(states[k], pid).None?
  {
    if j == k {
    } else {
      PidsAreNeverReused(states, events, j, k - 1, pid);
      MoveByPid(states, events, k - 1, pid);
    }
  }

  // ---- Context preservation ----

  /** The stack pointer one event hands over for `pid`: a tick or an accepted sleep while it is current, or its
      initial frame when it is registered. */
  function SavedBy(s: Scheduler, e: Event, pid: nat): Option<nat> {
    match e
    case RegisterTask(_, frame) => if pid == s.nextId then Some(frame) else None
    case TimerTick(esp) => if pid == CurrentPid(s) then Some(esp) else None
    case SleepCall(esp, _) => if SleepHeard(s) && pid == 1 then Some(esp) else None
    case _ => None
  }

  /** The stack pointer last handed over for `pid` before step `k`. */
  ghost function LastSaved(states: seq<Scheduler>, events: seq<Event>, k: nat, pid: nat): Option<nat>
    requires |states| == |events| + 1 && k <= |events|
  {
    if k == 0 then None
    else
      match SavedBy(states[k - 1], events[k - 1], pid)
      case Some(esp) => Some(esp)
      case None => LastSaved(states, events, k - 1, pid)
  }

  /** No event alters the saved stack pointer of a task it does not hand one over for. */
  lemma OthersKeepTheirContext(s: Scheduler, e: Event, pid: nat)
    requires Inv(s) && NextByPid(s, e, pid).Some?
    ensures match SavedBy(s, e, pid)
            case Some(esp) => NextByPid(s, e, pid).value.stackPtr == esp
            case None => TaskOf(s, pid).Some? && NextByPid(s, e, pid).value.stackPtr == TaskOf(s, pid).value.stackPtr
  {
  }

  /** Each live task's saved stack pointer is the one last handed over for it. */
  lemma {:induction false} ContextIsPreserved(states: seq<Scheduler>, events: seq<Event>, k: nat, pid: nat)
    requires IsBootRun(states, events) && k <= |events|
    requires TaskOf(states[k], pid).Some?
    ensures LastSaved(states, events, k, pid) == Some(TaskOf(states[k], pid).value.stackPtr)
  {
    if k == 0 {
    } else {
      MoveByPid(states, events, k - 1, pid);
      OthersKeepTheirContext(states[k - 1], events[k - 1], pid);
      if SavedBy(states[k - 1], events[k - 1], pid).None? {
        ContextIsPreserved(states, events, k - 1, pid);
      }
    }
  }

  /** The outcome of a tick or a fault in state `k` of a run. */
  ghost function Switch(s: Scheduler, e: Event): Outcome
    requires e.TimerTick? || e.UserFault?
  {
    if e.TimerTick? then Tick(s, e.esp) else Fault(s, e.esp)
  }

  lemma SwitchResumesCurrent(s: Scheduler, e: Event)
    requires Inv(s) && Roomy(s) && (e.TimerTick? || e.UserFault?) && Switch(s, e).Resumed?
    requires e.UserFault? || s.tasks != []
    ensures var o := Switch(s, e);
            && Inv(o.state) && o.state.current < |o.state.tasks|
            && TaskOf(o.state, CurrentPid(o.state)) == Some(o.state.tasks[o.state.current])
            && o.state.tasks[o.state.current].state.Ready?
            && o.esp == o.state.tasks[o.state.current].stackPtr
  {
    StepKeeps(s, e);
    if e.UserFault? {
      FaultResumes(s, e.esp);
    } else {
      TickResumes(s, e.esp);
    }
    LookupAt(Switch(s, e).state.tasks, Switch(s, e).state.current);
  }

  /** A context switch resumes a Ready task, exactly where that task was last left. */
  lemma SwitchResumesLastSaved(states: seq<Scheduler>, events: seq<Event>, k: nat)
    requires IsBootRun(states, events) && k < |events|
    requires events[k].TimerTick? || events[k].UserFault?
    ensures var o := Switch(states[k], events[k]);
            && o.Resumed? && o.state == states[k + 1]
            && LastSaved(states, events, k + 1, CurrentPid(states[k + 1])) == Some(o.esp)
  {
    var s, e := states[k], events[k];
    RunKeeps(states, events, k);
    assert Moves(states, events, k);
    assert Switch(s, e).Resumed? && Switch(s, e).state == states[k + 1];
    if e.UserFault? || s.tasks != [] {
      SwitchResumesCurrent(s, e);
      ContextIsPreserved(states, events, k + 1, CurrentPid(states[k + 1]));
    }
  }

  // ---- Sleep calls ----

  /** In every reachable state: a sleep is accepted exactly when some task is registered and pid 1, not killed, is
      running.  Then pid 1 is asleep until the tick asked for, at least one ahead, its stack pointer saved and everybody
      else as before; a refused call changes nothing. */
  lemma SleepCallsAreExact(states: seq<Scheduler>, events: seq<Event>, k: nat, esp: nat, ticks: U32)
    requires IsBootRun(states, events) && k <= |events|
    ensures var s, n := states[k], Sleep(states[k], esp, ticks);
            && (SleepAccepted(s) <==>
                  s.tasks != [] && CurrentPid(s) == 1 && (TaskOf(s, 1).Some? ==> !TaskOf(s, 1).value.state.Terminated?))
            && (SleepAccepted(s) ==>
                  && TaskOf(n, 1).Some? && TaskOf(n, 1).value.stackPtr == esp
                  && TaskOf(n, 1).value.state == Sleeping(s.tickCount + if ticks >= 1 then ticks else 1)
                  && forall pid :: pid != 1 ==> TaskOf(n, pid) == TaskOf(s, pid))
            && (!SleepAccepted(s) ==> n == s)
  {
    RunKeeps(states, events, k);
    var s := states[k];
    SleepVerdict(s);
    if SleepAccepted(s) {
      SleepStepByPid(s, SleepCall(esp, ticks), 1);
      forall pid | pid != 1
        ensures TaskOf(Sleep(s, esp, ticks), pid) == TaskOf(s, pid)
      {
        SleepStepByPid(s, SleepCall(esp, ticks), pid);
      }
    } else if s.tasks != [] {
      assert s.mainTracked;
    }
  }

  // ---- Exact wake-up ----

  /** Events that take a sleeping task out of the scheduler's hands: a kill, its own fault, or a new sleep. */
  predicate Disturbs(s: Scheduler, e: Event, pid: nat) {
    match e
    case KillPid(victim) => victim == pid
    case UserFault(_) => CurrentPid(s) == pid
    case SleepCall(_, _) => CurrentPid(s) == pid
    case _ => false
  }

  /** A sleeper left alone sleeps through every tick before its deadline and is Ready from that very tick on. */
  lemma {:induction false} WakesExactlyOnTime(states: seq<Scheduler>, events: seq<Event>, j: nat, k: nat, pid: nat, wakeAt: nat)
    requires IsRun(states, events) && Inv(states[0]) && j <= k <= |events|
    requires TaskOf(states[j], pid).Some? && TaskOf(states[j], pid).value.state == Sleeping(wakeAt)
    requires forall i :: j <= i < k ==> !Disturbs(states[i], events[i], pid)
    ensures AsleepUntil(states[k], pid, wakeAt)
  {
    RunKeeps(states, events, j);
    if j == k {
      SleeperIsEarly(states[j], pid);
    } else {
      WakesExactlyOnTime(states, events, j, k - 1, pid, wakeAt);
      SleepsOn(states, events, k - 1, pid, wakeAt);
    }
  }

  /** Asleep strictly before tick `wakeAt`, Ready from then on. */
  ghost predicate AsleepUntil(s: Scheduler, pid: nat, wakeAt: nat) {
    && TaskOf(s, pid).Some?
    && TaskOf(s, pid).value.state == if s.tickCount < wakeAt then Sleeping(wakeAt) else Ready
  }

  lemma SleepsThrough(s: Scheduler, e: Event, pid: nat, wakeAt: nat)
    requires Inv(s) && !Disturbs(s, e, pid) && AsleepUntil(s, pid, wakeAt) && (e.UserFault? ==> pid != 1)
    ensures var now := if e.TimerTick? then s.tickCount + 1 else s.tickCount;
            && NextByPid(s, e, pid).Some?
            && NextByPid(s, e, pid).value.state == if now < wakeAt then Sleeping(wakeAt) else Ready
  {
    LiveIsIssued(s, pid);
  }

  lemma SleepsOn(states: seq<Scheduler>, events: seq<Event>, i: nat, pid: nat, wakeAt: nat)
    requires IsRun(states, events) && Inv(states[0]) && i < |events|
    requires !Disturbs(states[i], events[i], pid) && AsleepUntil(states[i], pid, wakeAt)
    ensures AsleepUntil(states[i + 1], pid, wakeAt)
  {
    MoveByPid(states, events, i, pid);
    if events[i].UserFault? {
      assert Moves(states, events, i);
      FaultStepByPid(states[i], events[i].esp, pid);
    }
    SleepsThrough(states[i], events[i], pid, wakeAt);
  }

  /** Between steps a sleeper's deadline is strictly ahead, and no further than the longest sleep. */
  lemma SleeperIsEarly(s: Scheduler, pid: nat)
    requires Inv(s) && TaskOf(s, pid).Some?
    ensures TaskOf(s, pid).value.state.Sleeping? ==>
              s.tickCount < TaskOf(s, pid).value.state.wakeAt <= s.tickCount + (U32_LIMIT - 1)
  {
    var i := Find(s.tasks, pid).value;
    assert StateOk(s.tasks[i], s.tickCount);
  }

  /** No tick before its deadline dispatches a sleeper. */
  lemma NeverDispatchedEarly(states: seq<Scheduler>, events: seq<Event>, i: nat, pid: nat, wakeAt: nat)
    requires IsRun(states, events) && Inv(states[0]) && i < |events| && events[i].TimerTick?
    requires AsleepUntil(states[i + 1], pid, wakeAt) && states[i + 1].tickCount < wakeAt
    ensures CurrentPid(states[i + 1]) != pid
  {
    RunKeeps(states, events, i);
    assert Moves(states, events, i);
    if states[i].tasks != [] {
      SwitchResumesCurrent(states[i], events[i]);
    }
  }
}
