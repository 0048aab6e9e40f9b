/**
  What the scheduler tells the shell, in terms of pids and of the events so far:
  the verdicts on kills, the statistics, and the process listing.
*/
module SchedulerReports {
  import opened Wrappers
  import opened Tasks
  import opened SchedulerInvariant
  import opened SchedulerByPid
  import opened SchedulerRuns
  import opened SchedulerAccounting
  import opened SchedulerFairness

  // ---- Kills ----

  /** The verdict on a kill: pid 0 and the kernel tasks are refused, an unknown pid is not found, and the user task is
      marked while it runs and removed at once while it does not. */
  lemma KillVerdictIsExact(s: Scheduler, pid: nat)
    requires Inv(s)
    ensures KillVerdict(s, pid) ==
            if pid == 0 then KernelTask
            else if TaskOf(s, pid).None? then PidNotFound
            else if pid != 1 then KernelTask
            else if CurrentPid(s) == 1 then MarkedForTermination
            else KilledNow
  {
    if Find(s.tasks, pid).Some? {
      var i := Find(s.tasks, pid).value;
      assert IdentityOk(s.tasks[i], s.nextId);
      if s.mainTracked {
        LookupAt(s.tasks, s.current);
      }
    }
  }

  // ---- Faults ----

  /** A fault takes the user task out, dispatches the second of the tasks left, or the only one, and panics when there is
      none or when a kernel task is running. */
  lemma FaultIsExact(s: Scheduler, esp: nat)
    requires Inv(s)
    ensures s.tasks == [] ==> Fault(s, esp) == Panicked(FaultAllTerminated)
    ensures s.tasks != [] && CurrentPid(s) != 1 ==> Fault(s, esp) == Panicked(FaultNotUser)
    ensures s.tasks != [] && CurrentPid(s) == 1 ==>
              var left := if s.mainTracked then s.tasks[1..] else s.tasks;
              var next := if |left| > 1 then 1 else 0;
              && left != []
              && Fault(s, esp) == Resumed(s.(tasks := left, current := next, mainTracked := true), left[next].stackPtr)
  {
    if s.mainTracked {
      assert IdentityOk(s.tasks[s.current], s.nextId);
    }
    if s.tasks != [] && CurrentPid(s) == 1 {
      FaultUnfolds(s, esp);
      var m := TrackMain(s, esp);
      FaultDispatches(m);
      assert m.tasks[1..] == if s.mainTracked then s.tasks[1..] else s.tasks;
    }
  }

  lemma FaultDispatches(m: Scheduler)
    requires Inv(m) && m.mainTracked && m.current == 0 && |m.tasks| > 1 && m.tasks[0].privilege.User?
    ensures var left := m.tasks[1..];
            var next := if |left| > 1 then 1 else 0;
            Dispatch(m.(tasks := left), FaultNoRunnable) == Resumed(m.(tasks := left, current := next), left[next].stackPtr)
  {
    var left := m.tasks[1..];
    forall i | 0 <= i < |left|
      ensures left[i].state.Ready?
    {
      LookupAt(m.tasks, 0);
      LookupAt(m.tasks, i + 1);
      KernelIsReady(m, m.tasks[i + 1].id);
    }
    AllReadyNext(left, 0);
  }

  // ---- The statistics ----

  /** The tick count reported is the number of timer ticks since boot. */
  lemma {:induction false} TicksAreCounted(states: seq<Scheduler>, events: seq<Event>, k: nat)
    requires IsBootRun(states, events) && k <= |events|
    ensures StatsOf(states[k]).totalTicks == TicksIn(events, 0, k)
  {
    if k == 0 {
    } else {
      TicksAreCounted(states, events, k - 1);
      RunKeeps(states, events, k - 1);
      MoveKeeps(states, events, k - 1);
    }
  }

  /** The current pid reported is that of the running task, and 0 while the main thread is not tracked. */
  lemma CurrentIsReported(s: Scheduler)
    requires Inv(s)
    ensures StatsOf(s).currentTaskId == if s.mainTracked then CurrentPid(s) else 0
  {
  }

  // ---- The listing ----

  /** What the listing says of a task. */
  function Entry(s: Scheduler, pid: nat, t: Task): ProcessInfo {
    ProcessInfo(
      pid,
      t.name,
      if t.state.Sleeping? then "sleep"
      else if t.state.Terminated? then "dead"
      else if s.mainTracked && pid == CurrentPid(s) then "running"
      else "ready",
      if pid == 1 then "user" else "kernel",
      t.runTicks)
  }

  lemma DescribedAs(s: Scheduler, i: nat)
    requires Inv(s) && i < |s.tasks|
    ensures Describe(s.tasks[i], s.mainTracked && i == s.current) == Entry(s, s.tasks[i].id, s.tasks[i])
  {
    assert IdentityOk(s.tasks[i], s.nextId);
    LookupAt(s.tasks, i);
    if s.mainTracked {
      LookupAt(s.tasks, s.current);
    }
  }

  /** The listing begins with the idle task, and with the main thread while that is not tracked; then every task of the
      list appears, in order, under its pid, name, state, privilege and run ticks. */
  lemma ListingTells(s: Scheduler)
    requires Inv(s)
    ensures var list := Snapshot(s);
            var h := if s.mainTracked then 1 else 2;
            && |list| == h + |s.tasks|
            && list[0] == ProcessInfo(0, "kernel_idle", "idle", "kernel", 0)
            && (!s.mainTracked ==> list[1] == ProcessInfo(1, "user_main", "running", "user", 0))
            && forall i :: 0 <= i < |s.tasks| ==> list[h + i] == Entry(s, s.tasks[i].id, s.tasks[i])
  {
    var h := if s.mainTracked then 1 else 2;
    forall i | 0 <= i < |s.tasks|
      ensures Snapshot(s)[h + i] == Entry(s, s.tasks[i].id, s.tasks[i])
    {
      assert Snapshot(s)[h + i] == Listing(s)[i];
      DescribedAs(s, i);
    }
  }

  // ---- Names ----

  /** The names given to the registrations among the first `k` events, in order. */
  function RegisteredNames(events: seq<Event>, k: nat): seq<string>
    requires k <= |events|
  {
    if k == 0 then []
    else if events[k - 1].RegisterTask? then RegisteredNames(events, k - 1) + [events[k - 1].name]
    else RegisteredNames(events, k - 1)
  }

  lemma SwitchKeepsNextId(s: Scheduler, esp: nat)
    ensures Tick(s, esp).Resumed? ==> Tick(s, esp).state.nextId == s.nextId
    ensures Fault(s, esp).Resumed? ==> Fault(s, esp).state.nextId == s.nextId
  {
  }

  lemma NextIdMoves(s: Scheduler, e: Event)
    requires Step(s, e).Some?
    ensures Step(s, e).value.nextId == if e.RegisterTask? then s.nextId + 1 else s.nextId
  {
    match e
    case TimerTick(esp) => SwitchKeepsNextId(s, esp);
    case UserFault(esp) => SwitchKeepsNextId(s, esp);
    case _ =>
  }

  /** Pids are issued from 2 on, in the order of registration. */
  lemma {:induction false} PidsAreIssuedInOrder(states: seq<Scheduler>, events: seq<Event>, k: nat)
    requires IsBootRun(states, events) && k <= |events|
    ensures states[k].nextId == 2 + |RegisteredNames(events, k)|
  {
    if k == 0 {
    } else {
      PidsAreIssuedInOrder(states, events, k - 1);
      assert Moves(states, events, k - 1);
      NextIdMoves(states[k - 1], events[k - 1]);
    }
  }

  /** A registration is refused exactly when the pid counter, a 32-bit number, could not be moved on. */
  lemma RegistrationsRunOut(states: seq<Scheduler>, events: seq<Event>, k: nat, name: string, frame: nat)
    requires IsBootRun(states, events) && k <= |events|
    ensures Register(states[k], name, frame).None? <==> |RegisteredNames(events, k)| >= 0xFFFF_FFFD
  {
    PidsAreIssuedInOrder(states, events, k);
  }

  /** The name an event leaves a pid with. */
  lemma NameMoves(s: Scheduler, e: Event, pid: nat)
    requires NextByPid(s, e, pid).Some?
    ensures var name := NextByPid(s, e, pid).value.name;
            || (e.RegisterTask? && pid == s.nextId && name == e.name)
            || (TaskOf(s, pid).Some? && name == TaskOf(s, pid).value.name)
            || (pid == 1 && name == "user_main")
  {
  }

  /** In every run a listed task goes by the name its pid was registered under, and pid 1 by `user_main`. */
  lemma {:induction false} NamesAreKept(states: seq<Scheduler>, events: seq<Event>, k: nat, pid: nat)
    requires IsBootRun(states, events) && k <= |events| && TaskOf(states[k], pid).Some?
    ensures 1 <= pid < 2 + |RegisteredNames(events, k)|
    ensures TaskOf(states[k], pid).value.name == if pid == 1 then "user_main" else RegisteredNames(events, k)[pid - 2]
  {
    if k == 0 {
    } else {
      MoveByPid(states, events, k - 1, pid);
      NameMoves(states[k - 1], events[k - 1], pid);
      PidsAreIssuedInOrder(states, events, k - 1);
      if TaskOf(states[k - 1], pid).Some? {
        NamesAreKept(states, events, k - 1, pid);
      }
    }
  }
}
