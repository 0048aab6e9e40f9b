/**
  The scheduler seen by pid.  The index arithmetic of the task vector is gone:
  `NextByPid` says what one event does to the task holding a given pid, and
  `StepByPid` proves that the vector operations do exactly that for every pid.
*/
module SchedulerByPid {
  import opened Wrappers
  import opened Tasks
  import opened SchedulerInvariant

  datatype Event =
    | RegisterTask(name: string, frame: nat)
    | TimerTick(esp: nat)
    | SleepCall(esp: nat, ticks: U32)
    | KillPid(pid: nat)
    | UserFault(esp: nat)

  function Survives(o: Outcome): Option<Scheduler> {
    if o.Resumed? then Some(o.state) else None
  }

  /** The state after one event, unless the kernel panics. */
  function Step(s: Scheduler, e: Event): Option<Scheduler> {
    match e
    case RegisterTask(name, frame) => Register(s, name, frame)
    case TimerTick(esp) => Survives(Tick(s, esp))
    case SleepCall(esp, ticks) => Some(Sleep(s, esp, ticks))
    case KillPid(pid) => Some(Kill(s, pid))
    case UserFault(esp) => Survives(Fault(s, esp))
  }

  lemma StepKeeps(s: Scheduler, e: Event)
    requires Inv(s) && Roomy(s) && Step(s, e).Some?
    ensures Inv(Step(s, e).value)
    ensures Step(s, e).value.tickCount == if e.TimerTick? then s.tickCount + 1 else s.tickCount
  {
    match e
    case RegisterTask(name, frame) => RegisterKeeps(s, name, frame);
    case TimerTick(esp) => TickKeeps(s, esp);
    case SleepCall(esp, ticks) => SleepKeeps(s, esp, ticks);
    case KillPid(pid) => KillKeeps(s, pid);
    case UserFault(esp) => FaultKeeps(s, esp);
  }

  // ---- Lookup by pid ----

  function Lookup(tasks: seq<Task>, pid: nat): (r: Option<Task>)
    ensures r.Some? ==> r.value.id == pid
  {
    match Find(tasks, pid)
    case None => None
    case Some(i) => Some(tasks[i])
  }

  function TaskOf(s: Scheduler, pid: nat): Option<Task> {
    Lookup(s.tasks, pid)
  }

  /** The pid whose code is running; before the main thread is tracked that is pid 1. */
  function CurrentPid(s: Scheduler): nat {
    if s.mainTracked && s.current < |s.tasks| then s.tasks[s.current].id else 1
  }

  lemma LookupAt(tasks: seq<Task>, i: nat)
    requires Ordered(tasks) && i < |tasks|
    ensures Find(tasks, tasks[i].id) == Some(i)
    ensures Lookup(tasks, tasks[i].id) == Some(tasks[i])
  {
  }

  function Woken(o: Option<Task>, now: nat): Option<Task> {
    if o.None? then None else Some(WakeTask(o.value, now))
  }

  lemma LookupWake(tasks: seq<Task>, now: nat, pid: nat)
    ensures Lookup(Wake(tasks, now), pid) == Woken(Lookup(tasks, pid), now)
  {
    var w := Wake(tasks, now);
    assert forall i :: 0 <= i < |tasks| ==> w[i].id == tasks[i].id;
    assert Find(w, pid) == Find(tasks, pid);
  }

  lemma LookupUpdate(tasks: seq<Task>, i: nat, t: Task, pid: nat)
    requires Ordered(tasks) && i < |tasks| && t.id == tasks[i].id
    ensures Lookup(tasks[i := t], pid) == if pid == t.id then Some(t) else Lookup(tasks, pid)
  {
    var u := tasks[i := t];
    assert forall k :: 0 <= k < |tasks| ==> u[k].id == tasks[k].id;
    assert Find(u, pid) == Find(tasks, pid);
    LookupAt(tasks, i);
  }

  lemma LookupDropFirst(tasks: seq<Task>, pid: nat)
    requires Ordered(tasks) && tasks != []
    ensures Lookup(tasks[1..], pid) == if pid == tasks[0].id then None else Lookup(tasks, pid)
  {
    var u := tasks[1..];
    assert forall i :: 0 <= i < |u| ==> u[i] == tasks[i + 1];
    if pid != tasks[0].id && Find(tasks, pid).Some? {
      assert u[Find(tasks, pid).value - 1].id == pid;
    }
  }

  lemma LookupAppend(tasks: seq<Task>, t: Task, pid: nat)
    requires Lookup(tasks, t.id).None?
    ensures Lookup(tasks + [t], pid) == if pid == t.id then Some(t) else Lookup(tasks, pid)
  {
    var u := tasks + [t];
    if Find(tasks, pid).Some? {
      assert u[Find(tasks, pid).value].id == pid;
      assert Find(u, pid) == Find(tasks, pid);
    } else if pid == t.id {
      assert u[|tasks|].id == pid;
      assert Find(u, pid) == Some(|tasks|);
    } else {
      assert Find(u, pid).None?;
    }
  }

  lemma LookupPrepend(tasks: seq<Task>, t: Task, pid: nat)
    ensures Lookup([t] + tasks, pid) == if pid == t.id then Some(t) else Lookup(tasks, pid)
  {
    var u := [t] + tasks;
    assert u[0] == t && forall i :: 0 < i < |u| ==> u[i] == tasks[i - 1];
    if pid != t.id && Find(tasks, pid).Some? {
      assert u[Find(tasks, pid).value + 1].id == pid;
    }
  }

  // ---- One event, pid by pid ----

  /** The task a tick or a sleep finds current: the main thread is entered in the table on first sight. */
  function Running(s: Scheduler, esp: nat, pid: nat): Option<Task> {
    if pid == 1 && !s.mainTracked then Some(PlaceholderMain(esp)) else TaskOf(s, pid)
  }

  /** A tick retires the current task if it was Terminated, else saves its stack pointer and charges it. */
  function Settled(o: Option<Task>, esp: nat, isCurrent: bool): Option<Task> {
    if o.None? || !isCurrent then o
    else if o.value.state.Terminated? then None
    else Some(o.value.(stackPtr := esp, runTicks := o.value.runTicks + 1))
  }

  function TickByPid(s: Scheduler, esp: nat, pid: nat): Option<Task> {
    if s.tasks == [] then None
    else Settled(Woken(Running(s, esp, pid), s.tickCount + 1), esp, pid == CurrentPid(s))
  }

  /** A sleep is heard when some task is registered and pid 1 is running, unless pid 1 has been killed. */
  predicate SleepHeard(s: Scheduler) {
    s.tasks != [] && CurrentPid(s) == 1 && (TaskOf(s, 1).Some? ==> !TaskOf(s, 1).value.state.Terminated?)
  }

  function NextByPid(s: Scheduler, e: Event, pid: nat): Option<Task> {
    match e
    case RegisterTask(name, frame) =>
      if pid == s.nextId then Some(KernelTaskAt(pid, name, frame)) else TaskOf(s, pid)
    case TimerTick(esp) => TickByPid(s, esp, pid)
    case SleepCall(esp, ticks) =>
      if SleepHeard(s) && pid == 1 && Running(s, esp, pid).Some? then
        var until := s.tickCount + if ticks == 0 then 1 else ticks;
        Some(Running(s, esp, pid).value.(stackPtr := esp, state := Sleeping(until)))
      else TaskOf(s, pid)
    case KillPid(victim) =>
      if pid != victim || pid != 1 || TaskOf(s, pid).None? then TaskOf(s, pid)
      else if pid == CurrentPid(s) then Some(TaskOf(s, pid).value.(state := Terminated))
      else None
    case UserFault(esp) =>
      if pid == 1 then None else TaskOf(s, pid)
  }

  lemma TrackedLookup(s: Scheduler, esp: nat, pid: nat)
    requires Inv(s)
    ensures TaskOf(TrackMain(s, esp), pid) == Running(s, esp, pid)
    ensures CurrentPid(TrackMain(s, esp)) == CurrentPid(s)
  {
    if !s.mainTracked {
      LookupPrepend(s.tasks, PlaceholderMain(esp), pid);
    }
  }

  lemma DropByPid(s: Scheduler, pid: nat)
    requires Inv(s) && s.mainTracked && s.tasks[s.current].state.Terminated?
    ensures TaskOf(DropCurrent(s), pid) == if pid == s.tasks[s.current].id then None else TaskOf(s, pid)
  {
    DeadIsUser(s, s.current);
    UserIsFirst(s.tasks, s.nextId, s.current);
    DropAtZero(s);
    LookupDropFirst(s.tasks, pid);
  }

  lemma ChargeByPid(s: Scheduler, esp: nat, pid: nat)
    requires Ordered(s.tasks) && s.current < |s.tasks|
    requires TotalRun(s.tasks) < s.tickCount < U64_LIMIT
    ensures var t := s.tasks[s.current];
            TaskOf(ChargeCurrent(s, esp), pid) ==
            if pid == t.id then Some(t.(stackPtr := esp, runTicks := t.runTicks + 1)) else TaskOf(s, pid)
  {
    var t := s.tasks[s.current];
    assert WrappingAdd64(t.runTicks, 1) == t.runTicks + 1 by {
      TotalRunSplit(s.tasks, s.current);
      NoWrap(t.runTicks, 1);
    }
    LookupUpdate(s.tasks, s.current, t.(stackPtr := esp, runTicks := t.runTicks + 1), pid);
  }

  lemma SettleByPid(s: Scheduler, esp: nat, pid: nat)
    requires Inv(s) && s.mainTracked && TotalRun(s.tasks) < s.tickCount < U64_LIMIT
    ensures TaskOf(Settle(s, esp), pid) == Settled(TaskOf(s, pid), esp, pid == CurrentPid(s))
  {
    LookupAt(s.tasks, s.current);
    if s.tasks[s.current].state.Terminated? {
      DropByPid(s, pid);
    } else {
      ChargeByPid(s, esp, pid);
    }
  }

  lemma AdvanceByPid(s: Scheduler, pid: nat)
    requires Inv(s) && Roomy(s)
    ensures TaskOf(Advance(s), pid) == Woken(TaskOf(s, pid), s.tickCount + 1)
    ensures CurrentPid(Advance(s)) == CurrentPid(s)
  {
    AdvanceShape(s);
    LookupWake(s.tasks, s.tickCount + 1, pid);
  }

  lemma AdvanceShape(s: Scheduler)
    requires Roomy(s)
    ensures Advance(s) == s.(tickCount := s.tickCount + 1, tasks := Wake(s.tasks, s.tickCount + 1))
  {
    NoWrap(s.tickCount, 1);
  }

  lemma TickTasks(s: Scheduler, esp: nat)
    requires Inv(s) && Roomy(s) && s.tasks != []
    ensures Tick(s, esp).Resumed?
    ensures Tick(s, esp).state.tasks == Settle(Ticking(s, esp), esp).tasks
  {
    TickSettles(s, esp);
  }

  lemma SettledTicking(s: Scheduler, esp: nat, pid: nat)
    requires Inv(s) && Roomy(s) && s.tasks != []
    ensures Ticking(s, esp).current < |Ticking(s, esp).tasks|
    ensures TaskOf(Settle(Ticking(s, esp), esp), pid) == TickByPid(s, esp, pid)
  {
    TrackMainKeeps(s, esp);
    TrackedLookup(s, esp, pid);
    SettledAdvance(TrackMain(s, esp), esp, pid);
  }

  lemma SettledAdvance(s: Scheduler, esp: nat, pid: nat)
    requires Inv(s) && Roomy(s) && s.mainTracked
    ensures Advance(s).current < |Advance(s).tasks|
    ensures TaskOf(Settle(Advance(s), esp), pid) ==
            Settled(Woken(TaskOf(s, pid), s.tickCount + 1), esp, pid == CurrentPid(s))
  {
    AdvanceKeeps(s);
    AdvanceByPid(s, pid);
    SettledFrom(Advance(s), esp, pid, Woken(TaskOf(s, pid), s.tickCount + 1), CurrentPid(s));
  }

  lemma SettledFrom(a: Scheduler, esp: nat, pid: nat, task: Option<Task>, current: nat)
    requires Inv(a) && a.mainTracked && TotalRun(a.tasks) < a.tickCount < U64_LIMIT
    requires TaskOf(a, pid) == task && CurrentPid(a) == current
    ensures a.current < |a.tasks|
    ensures TaskOf(Settle(a, esp), pid) == Settled(task, esp, pid == current)
  {
    SettleByPid(a, esp, pid);
  }

  lemma TickStepByPid(s: Scheduler, esp: nat, pid: nat)
    requires Inv(s) && Roomy(s) && Tick(s, esp).Resumed?
    ensures TaskOf(Tick(s, esp).state, pid) == TickByPid(s, esp, pid)
  {
    if s.tasks != [] {
      TickTasks(s, esp);
      SettledTicking(s, esp, pid);
    }
  }

  lemma AsleepByPid(s: Scheduler, esp: nat, ticks: U32, pid: nat)
    requires Ordered(s.tasks) && Roomy(s) && s.mainTracked && SleepAccepted(s)
    ensures TaskOf(Sleep(s, esp, ticks), pid) ==
            if pid != s.tasks[s.current].id then TaskOf(s, pid)
            else Some(s.tasks[s.current].(stackPtr := esp, state := Sleeping(s.tickCount + if ticks == 0 then 1 else ticks)))
  {
    NoWrap(s.tickCount, if ticks == 0 then 1 else ticks);
    LookupUpdate(s.tasks, s.current, s.tasks[s.current].(stackPtr := esp, state := Sleeping(Deadline(s.tickCount, ticks))), pid);
  }

  lemma SleepTracks(s: Scheduler, esp: nat, ticks: U32)
    requires s.tasks != []
    ensures Sleep(s, esp, ticks) == Sleep(TrackMain(s, esp), esp, ticks)
    ensures SleepAccepted(s) == SleepAccepted(TrackMain(s, esp))
  {
  }

  /** The verdict on a sleep, found by the checks on the current entry of the list. */
  lemma SleepVerdict(s: Scheduler)
    requires Inv(s)
    ensures SleepAccepted(s) <==> SleepHeard(s)
    ensures SleepAccepted(s) && s.mainTracked ==> s.tasks[s.current].id == 1
  {
    if s.mainTracked {
      assert IdentityOk(s.tasks[s.current], s.nextId);
      LookupAt(s.tasks, s.current);
    }
  }

  lemma SleepStepByPid(s: Scheduler, e: Event, pid: nat)
    requires Inv(s) && Roomy(s) && e.SleepCall?
    ensures TaskOf(Sleep(s, e.esp, e.ticks), pid) == NextByPid(s, e, pid)
  {
    SleepVerdict(s);
    if s.tasks != [] && SleepAccepted(s) {
      var m := TrackMain(s, e.esp);
      TrackMainKeeps(s, e.esp);
      TrackedLookup(s, e.esp, pid);
      SleepTracks(s, e.esp, e.ticks);
      AsleepByPid(m, e.esp, e.ticks, pid);
      LookupAt(m.tasks, m.current);
    }
  }

  lemma KilledByPid(s: Scheduler, victim: nat, pid: nat)
    requires Inv(s) && KillVerdict(s, victim).KilledNow?
    ensures victim == 1 && CurrentPid(s) != 1
    ensures TaskOf(Kill(s, victim), pid) == if pid == victim then None else TaskOf(s, pid)
  {
    KilledIsFirst(s, victim);
    LookupDropFirst(s.tasks, pid);
  }

  lemma MarkedByPid(s: Scheduler, victim: nat, pid: nat)
    requires Inv(s) && KillVerdict(s, victim).MarkedForTermination?
    ensures victim == 1 && CurrentPid(s) == 1 && TaskOf(s, 1).Some?
    ensures TaskOf(Kill(s, victim), pid) ==
            if pid == victim then Some(TaskOf(s, pid).value.(state := Terminated)) else TaskOf(s, pid)
  {
    var i := Find(s.tasks, victim).value;
    UserIsFirst(s.tasks, s.nextId, i);
    LookupUpdate(s.tasks, i, s.tasks[i].(state := Terminated), pid);
  }

  lemma SparedByPid(s: Scheduler, victim: nat)
    requires Inv(s) && !KillVerdict(s, victim).KilledNow? && !KillVerdict(s, victim).MarkedForTermination?
    ensures Kill(s, victim) == s && (victim != 1 || TaskOf(s, victim).None?)
  {
    if Find(s.tasks, victim).Some? {
      UserIsFirst(s.tasks, s.nextId, Find(s.tasks, victim).value);
    }
  }

  lemma KillStepByPid(s: Scheduler, e: Event, pid: nat)
    requires Inv(s) && e.KillPid?
    ensures TaskOf(Kill(s, e.pid), pid) == NextByPid(s, e, pid)
  {
    var v := KillVerdict(s, e.pid);
    if v.KilledNow? {
      KilledByPid(s, e.pid, pid);
    } else if v.MarkedForTermination? {
      MarkedByPid(s, e.pid, pid);
    } else {
      SparedByPid(s, e.pid);
    }
  }

  lemma FaultStepByPid(s: Scheduler, esp: nat, pid: nat)
    requires Inv(s) && Fault(s, esp).Resumed?
    ensures TaskOf(Fault(s, esp).state, pid) == if pid == 1 then None else TaskOf(s, pid)
    ensures CurrentPid(s) == 1
  {
    FaultKeeps(s, esp);
    FaultUnfolds(s, esp);
    TrackedLookup(s, esp, pid);
    var m := TrackMain(s, esp);
    UserIsFirst(m.tasks, m.nextId, 0);
    LookupDropFirst(m.tasks, pid);
  }

  /** A tick with tasks registered resumes a Ready task at its saved stack pointer. */
  lemma TickResumes(s: Scheduler, esp: nat)
    requires Inv(s) && Roomy(s) && s.tasks != []
    ensures Tick(s, esp).Resumed?
    ensures var o := Tick(s, esp);
            && o.state.nextId == s.nextId && o.state.mainTracked && o.state.current < |o.state.tasks|
            && o.state.tasks[o.state.current].state.Ready?
            && o.esp == o.state.tasks[o.state.current].stackPtr
  {
    TickSettles(s, esp);
  }

  lemma FaultResumes(s: Scheduler, esp: nat)
    requires Inv(s) && Fault(s, esp).Resumed?
    ensures var o := Fault(s, esp);
            && o.state.nextId == s.nextId && o.state.mainTracked && o.state.current < |o.state.tasks|
            && o.state.tasks[o.state.current].state.Ready?
            && o.esp == o.state.tasks[o.state.current].stackPtr
  {
    FaultKeeps(s, esp);
    FaultUnfolds(s, esp);
  }

  predicate Issued(s: Scheduler, pid: nat) {
    if pid == 1 then s.mainTracked else 2 <= pid < s.nextId
  }

  lemma LiveIsIssued(s: Scheduler, pid: nat)
    requires Inv(s) && TaskOf(s, pid).Some?
    ensures Issued(s, pid)
  {
    var i := Find(s.tasks, pid).value;
    assert IdentityOk(s.tasks[i], s.nextId);
  }

  lemma StepIssues(s: Scheduler, e: Event, pid: nat)
    requires Inv(s) && Roomy(s) && Step(s, e).Some? && Issued(s, pid)
    ensures Issued(Step(s, e).value, pid)
  {
    match e
    case TimerTick(esp) => if s.tasks != [] { TickResumes(s, esp); }
    case UserFault(esp) => FaultResumes(s, esp);
    case _ =>
  }

  /** Every event does to every pid exactly what `NextByPid` says: the vector surgery never touches the wrong task. */
  lemma StepByPid(s: Scheduler, e: Event, pid: nat)
    requires Inv(s) && Roomy(s) && Step(s, e).Some?
    ensures TaskOf(Step(s, e).value, pid) == NextByPid(s, e, pid)
  {
    match e
    case RegisterTask(name, frame) =>
      assert forall i :: 0 <= i < |s.tasks| ==> IdentityOk(s.tasks[i], s.nextId);
      LookupAppend(s.tasks, KernelTaskAt(s.nextId, name, frame), pid);
    case TimerTick(esp) => TickKeeps(s, esp); TickStepByPid(s, esp, pid);
    case SleepCall(esp, ticks) => SleepStepByPid(s, e, pid);
    case KillPid(_) => KillStepByPid(s, e, pid);
    case UserFault(esp) => FaultStepByPid(s, esp, pid);
  }
}
