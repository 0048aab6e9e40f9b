/**
  The inductive invariant of the scheduler, kept by every operation, and what it
  rules out: no tick panics, and the fault path panics exactly when it has nobody
  to terminate or nobody to run.
*/
module SchedulerInvariant {
  import opened Wrappers
  import opened Tasks
  import opened TaskLemmas

  function TotalRun(tasks: seq<Task>): nat {
    if tasks == [] then 0 else tasks[0].runTicks + TotalRun(tasks[1..])
  }

  ghost predicate Ordered(tasks: seq<Task>) {
    forall i, j :: 0 <= i < j < |tasks| ==> tasks[i].id < tasks[j].id
  }

  predicate IdentityOk(t: Task, nextId: nat) {
    1 <= t.id < nextId && (t.privilege.User? <==> t.id == 1)
  }

  /** Who the tasks are: distinct pids in increasing order, pid 1 the only user task, a kernel task last. */
  ghost predicate Roster(tasks: seq<Task>, nextId: nat) {
    && Ordered(tasks)
    && (forall i :: 0 <= i < |tasks| ==> IdentityOk(tasks[i], nextId))
    && (tasks != [] ==> tasks[|tasks| - 1].privilege.Kernel?)
  }

  /** Kernel tasks are always Ready; a sleeper's deadline lies in the future, within the longest sleep. */
  predicate StateOk(t: Task, now: nat) {
    && (t.privilege.Kernel? ==> t.state.Ready?)
    && (t.state.Sleeping? ==> now < t.state.wakeAt < now + U32_LIMIT)
  }

  ghost predicate Timely(tasks: seq<Task>, now: nat) {
    forall i :: 0 <= i < |tasks| ==> StateOk(tasks[i], now)
  }

  /** Only the current task may be Terminated. */
  ghost predicate DeadIsCurrent(tasks: seq<Task>, current: nat) {
    forall i :: 0 <= i < |tasks| && i != current ==> !tasks[i].state.Terminated?
  }

  ghost predicate AllKernel(tasks: seq<Task>) {
    forall i :: 0 <= i < |tasks| ==> tasks[i].privilege.Kernel?
  }

  ghost predicate Inv(s: Scheduler) {
    && s.nextId >= 2
    && Roster(s.tasks, s.nextId)
    && Timely(s.tasks, s.tickCount)
    && DeadIsCurrent(s.tasks, s.current)
    && (if s.mainTracked then s.current < |s.tasks|
        else s.current == 0 && AllKernel(s.tasks))
    && TotalRun(s.tasks) <= s.tickCount
  }

  /** Far enough from the top of the u64 tick counter that no deadline wraps. */
  predicate Roomy(s: Scheduler) {
    s.tickCount + U32_LIMIT < U64_LIMIT
  }

  // ---- Sums of run ticks ----

  lemma {:induction false} TotalRunConcat(a: seq<Task>, b: seq<Task>)
    ensures TotalRun(a + b) == TotalRun(a) + TotalRun(b)
  {
    if a == [] {
      assert a + b == b;
    } else {
      assert (a + b)[1..] == a[1..] + b;
      TotalRunConcat(a[1..], b);
    }
  }

  lemma TotalRunSplit(a: seq<Task>, i: nat)
    requires i < |a|
    ensures TotalRun(a) == TotalRun(a[..i]) + a[i].runTicks + TotalRun(a[i + 1..])
    ensures TotalRun(RemoveAt(a, i)) == TotalRun(a) - a[i].runTicks
  {
    assert a == a[..i] + a[i..] && a[i..][1..] == a[i + 1..];
    TotalRunConcat(a[..i], a[i..]);
    TotalRunConcat(a[..i], a[i + 1..]);
  }

  lemma TotalRunUpdate(a: seq<Task>, i: nat, t: Task)
    requires i < |a|
    ensures TotalRun(a[i := t]) == TotalRun(a) - a[i].runTicks + t.runTicks
  {
    TotalRunSplit(a, i);
    TotalRunSplit(a[i := t], i);
    assert a[i := t][..i] == a[..i] && a[i := t][i + 1..] == a[i + 1..];
  }

  lemma {:induction false} TotalRunWake(a: seq<Task>, now: nat)
    ensures TotalRun(Wake(a, now)) == TotalRun(a)
  {
    if a == [] {
    } else {
      assert Wake(a, now)[1..] == Wake(a[1..], now);
      TotalRunWake(a[1..], now);
    }
  }

  // ---- Consequences of the invariant ----

  /** In a reachable state the clean-up pass has nothing to remove. */
  lemma SweepIsIdle(s: Scheduler)
    requires DeadIsCurrent(s.tasks, s.current) && s.current < |s.tasks|
    ensures Sweep(s) == s
  {
    SweepEndsInRange(s);
  }

  /** Between ticks nobody is due, so the wake pass in the fault path changes nothing. */
  lemma WakeIsIdle(tasks: seq<Task>, now: nat)
    requires Timely(tasks, now)
    ensures Wake(tasks, now) == tasks
  {
    assert forall i :: 0 <= i < |tasks| ==> StateOk(tasks[i], now);
  }

  /** The user task, while it lives, sits at index 0. */
  lemma UserIsFirst(tasks: seq<Task>, nextId: nat, i: nat)
    requires Roster(tasks, nextId) && i < |tasks|
    ensures tasks[i].privilege.User? <==> tasks[i].id == 1
    ensures tasks[i].privilege.User? ==> i == 0 && |tasks| > 1
  {
    assert IdentityOk(tasks[i], nextId) && IdentityOk(tasks[0], nextId);
  }

  // ---- Preservation ----

  ghost predicate SameIdentity(a: seq<Task>, b: seq<Task>) {
    |a| == |b| && forall i :: 0 <= i < |a| ==> a[i].id == b[i].id && a[i].privilege == b[i].privilege
  }

  lemma RosterSame(a: seq<Task>, b: seq<Task>, nextId: nat)
    requires Roster(a, nextId) && SameIdentity(a, b)
    ensures Roster(b, nextId)
  {
    assert forall i :: 0 <= i < |a| ==> IdentityOk(a[i], nextId);
  }

  lemma RosterDropFirst(tasks: seq<Task>, nextId: nat)
    requires Roster(tasks, nextId) && |tasks| > 1
    ensures Roster(tasks[1..], nextId)
    ensures forall i :: 0 <= i < |tasks| - 1 ==> tasks[1..][i].privilege.Kernel?
  {
    forall i | 1 <= i < |tasks|
      ensures tasks[i].privilege.Kernel? && IdentityOk(tasks[1..][i - 1], nextId)
    {
      assert IdentityOk(tasks[i], nextId) && IdentityOk(tasks[0], nextId) && tasks[0].id < tasks[i].id;
    }
  }

  lemma TrackMainKeeps(s: Scheduler, esp: nat)
    requires Inv(s) && s.tasks != []
    ensures Inv(TrackMain(s, esp))
    ensures TotalRun(TrackMain(s, esp).tasks) == TotalRun(s.tasks)
  {
    if !s.mainTracked {
      var r := TrackMain(s, esp).tasks;
      TotalRunConcat([PlaceholderMain(esp)], s.tasks);
      assert Roster(r, s.nextId) by {
        assert forall i :: 0 <= i < |s.tasks| ==> IdentityOk(s.tasks[i], s.nextId);
        assert forall i :: 0 < i < |r| ==> r[i] == s.tasks[i - 1];
      }
      assert Timely(r, s.tickCount) by {
        assert forall i :: 0 < i < |r| ==> r[i] == s.tasks[i - 1];
      }
    }
  }

  lemma TimelyAdvances(tasks: seq<Task>, now: nat)
    requires Timely(tasks, now)
    ensures Timely(Wake(tasks, now + 1), now + 1)
  {
    assert forall i :: 0 <= i < |tasks| ==> StateOk(tasks[i], now);
  }

  lemma WakeKeeps(tasks: seq<Task>, now: nat, nextId: nat, current: nat)
    requires Roster(tasks, nextId) && DeadIsCurrent(tasks, current)
    ensures Roster(Wake(tasks, now), nextId) && DeadIsCurrent(Wake(tasks, now), current)
    ensures AllKernel(tasks) ==> AllKernel(Wake(tasks, now))
  {
    RosterSame(tasks, Wake(tasks, now), nextId);
  }

  /** The part of the invariant that speaks of the list survives waking at the next tick. */
  lemma WakeNextKeeps(s: Scheduler)
    requires Inv(s)
    ensures Inv(s.(tickCount := s.tickCount + 1, tasks := Wake(s.tasks, s.tickCount + 1)))
    ensures TotalRun(Wake(s.tasks, s.tickCount + 1)) == TotalRun(s.tasks)
  {
    TotalRunWake(s.tasks, s.tickCount + 1);
    WakeKeeps(s.tasks, s.tickCount + 1, s.nextId, s.current);
    TimelyAdvances(s.tasks, s.tickCount);
  }

  lemma AdvanceKeeps(s: Scheduler)
    requires Inv(s) && Roomy(s)
    ensures Advance(s) == s.(tickCount := s.tickCount + 1, tasks := Wake(s.tasks, s.tickCount + 1))
    ensures Inv(Advance(s))
    ensures TotalRun(Advance(s).tasks) == TotalRun(s.tasks)
  {
    NoWrap(s.tickCount, 1);
    WakeNextKeeps(s);
  }

  lemma DeadIsUser(s: Scheduler, i: nat)
    requires Inv(s) && i < |s.tasks| && s.tasks[i].state.Terminated?
    ensures s.tasks[i].privilege.User? && i == s.current
  {
    assert StateOk(s.tasks[i], s.tickCount);
  }

  lemma ChargeCurrentKeeps(s: Scheduler, esp: nat)
    requires Inv(s) && s.mainTracked
    requires TotalRun(s.tasks) < s.tickCount < U64_LIMIT
    ensures Inv(ChargeCurrent(s, esp))
    ensures ChargeCurrent(s, esp).tasks[s.current].runTicks == s.tasks[s.current].runTicks + 1
    ensures TotalRun(ChargeCurrent(s, esp).tasks) == TotalRun(s.tasks) + 1
  {
    var t := s.tasks[s.current];
    ChargeShape(s, esp);
    UpdateKeeps(s, t.(stackPtr := esp, runTicks := t.runTicks + 1));
  }

  /** The charged tick does not wrap: a task's run ticks are part of the total, and that is below the tick count. */
  lemma ChargeShape(s: Scheduler, esp: nat)
    requires s.current < |s.tasks| && TotalRun(s.tasks) < s.tickCount < U64_LIMIT
    ensures var t := s.tasks[s.current];
            ChargeCurrent(s, esp) == s.(tasks := s.tasks[s.current := t.(stackPtr := esp, runTicks := t.runTicks + 1)])
  {
    TotalRunSplit(s.tasks, s.current);
    NoWrap(s.tasks[s.current].runTicks, 1);
  }

  /** Replacing the current task by a version of itself whose state is in order keeps the lists in order. */
  lemma UpdateKeeps(s: Scheduler, t: Task)
    requires Inv(s) && s.current < |s.tasks| && StateOk(t, s.tickCount)
    requires t.id == s.tasks[s.current].id && t.privilege == s.tasks[s.current].privilege
    requires t.runTicks == s.tasks[s.current].runTicks || TotalRun(s.tasks) - s.tasks[s.current].runTicks + t.runTicks <= s.tickCount
    ensures Inv(s.(tasks := s.tasks[s.current := t]))
    ensures TotalRun(s.tasks[s.current := t]) == TotalRun(s.tasks) - s.tasks[s.current].runTicks + t.runTicks
  {
    TotalRunUpdate(s.tasks, s.current, t);
    RosterSame(s.tasks, s.tasks[s.current := t], s.nextId);
  }

  lemma DispatchKeeps(s: Scheduler, why: PanicReason)
    requires Inv(s) && s.mainTracked && DeadIsCurrent(s.tasks, |s.tasks|)
    ensures Dispatch(s, why).Resumed? && Inv(Dispatch(s, why).state)
  {
    assert StateOk(s.tasks[|s.tasks| - 1], s.tickCount);
  }

  lemma SettleKeeps(s: Scheduler, esp: nat)
    requires Inv(s) && s.mainTracked && TotalRun(s.tasks) < s.tickCount < U64_LIMIT
    ensures Inv(Settle(s, esp))
    ensures Settle(s, esp).tasks != [] && DeadIsCurrent(Settle(s, esp).tasks, |Settle(s, esp).tasks|)
  {
    if s.tasks[s.current].state.Terminated? {
      DeadIsUser(s, s.current);
      UserIsFirst(s.tasks, s.nextId, s.current);
      DropAtZero(s);
      DropFirstKeeps(s);
    } else {
      ChargeCurrentKeeps(s, esp);
    }
  }

  /** The state in which a tick settles accounts with the current task. */
  function Ticking(s: Scheduler, esp: nat): Scheduler {
    Advance(TrackMain(s, esp))
  }

  lemma TickingKeeps(s: Scheduler, esp: nat)
    requires Inv(s) && Roomy(s) && s.tasks != []
    ensures Inv(Ticking(s, esp)) && Ticking(s, esp).mainTracked
    ensures Ticking(s, esp).tickCount == s.tickCount + 1
    ensures TotalRun(Ticking(s, esp).tasks) == TotalRun(s.tasks)
    ensures TotalRun(Ticking(s, esp).tasks) < Ticking(s, esp).tickCount < U64_LIMIT
  {
    TrackMainKeeps(s, esp);
    AdvanceKeeps(TrackMain(s, esp));
  }

  /** On reachable states the clean-up passes are idle and the next task is picked from the settled list. */
  lemma TickSettles(s: Scheduler, esp: nat)
    requires Inv(s) && Roomy(s) && s.tasks != []
    ensures Inv(Settle(Ticking(s, esp), esp)) && Settle(Ticking(s, esp), esp).tasks != []
    ensures Tick(s, esp) == Dispatch(Settle(Ticking(s, esp), esp), NoRunnable)
    ensures Tick(s, esp).Resumed? && Inv(Tick(s, esp).state)
  {
    TickingKeeps(s, esp);
    SettledDispatch(Ticking(s, esp), esp);
    TickShape(s, esp);
  }

  /** After the clock has moved on nothing is swept, and the settled list can be dispatched from. */
  lemma SettledDispatch(a: Scheduler, esp: nat)
    requires Inv(a) && a.mainTracked && TotalRun(a.tasks) < a.tickCount < U64_LIMIT
    ensures a.current < |a.tasks| && Sweep(a) == a
    ensures var d := Settle(a, esp);
            && Inv(d) && d.tasks != []
            && Dispatch(d, NoRunnable).Resumed? && Inv(Dispatch(d, NoRunnable).state)
  {
    SweepIsIdle(a);
    SettleKeeps(a, esp);
    DispatchKeeps(Settle(a, esp), NoRunnable);
  }

  /** With nothing to sweep and somebody left, the tick dispatches from the settled list. */
  lemma TickShape(s: Scheduler, esp: nat)
    requires s.tasks != [] && Sweep(Ticking(s, esp)) == Ticking(s, esp)
    requires Ticking(s, esp).current < |Ticking(s, esp).tasks|
    requires Settle(Ticking(s, esp), esp).tasks != []
    ensures Tick(s, esp) == Dispatch(Settle(Ticking(s, esp), esp), NoRunnable)
  {
  }

  /** No tick panics, and every tick keeps the invariant. */
  lemma TickKeeps(s: Scheduler, esp: nat)
    requires Inv(s) && Roomy(s)
    ensures Tick(s, esp).Resumed?
    ensures Inv(Tick(s, esp).state)
    ensures Tick(s, esp).state.tickCount == s.tickCount + 1
  {
    if s.tasks == [] {
      AdvanceKeeps(s);
    } else {
      TickSettles(s, esp);
      TickingKeeps(s, esp);
    }
  }

  lemma RegisterKeeps(s: Scheduler, name: string, frame: nat)
    requires Inv(s) && Register(s, name, frame).Some?
    ensures Inv(Register(s, name, frame).value)
  {
    TotalRunConcat(s.tasks, [KernelTaskAt(s.nextId, name, frame)]);
    assert forall i :: 0 <= i < |s.tasks| ==> IdentityOk(s.tasks[i], s.nextId);
  }

  lemma SleepKeeps(s: Scheduler, esp: nat, ticks: nat)
    requires Inv(s) && Roomy(s) && ticks < U32_LIMIT
    ensures Inv(Sleep(s, esp, ticks))
  {
    if s.tasks != [] {
      TrackMainKeeps(s, esp);
      var m := TrackMain(s, esp);
      if SleepAccepted(m) {
        var wakeAt := Deadline(s.tickCount, ticks);
        assert s.tickCount < wakeAt < s.tickCount + U32_LIMIT;
        UpdateKeeps(m, m.tasks[m.current].(stackPtr := esp, state := Sleeping(wakeAt)));
      }
    }
  }

  lemma DropAtZero(s: Scheduler)
    requires s.current == 0 && |s.tasks| > 1
    ensures DropCurrent(s) == s.(tasks := s.tasks[1..])
  {
    assert RemoveAt(s.tasks, 0) == s.tasks[1..];
  }

  /** The list without its first task, the index following the task it names. */
  lemma DropFirstKeeps(s: Scheduler)
    requires Inv(s) && s.mainTracked && |s.tasks| > 1
    ensures s.current > 0 ==> Inv(s.(tasks := s.tasks[1..], current := s.current - 1))
    ensures s.current == 0 ==> Inv(s.(tasks := s.tasks[1..]))
    ensures TotalRun(s.tasks) == s.tasks[0].runTicks + TotalRun(s.tasks[1..])
    ensures AllKernel(s.tasks[1..]) && DeadIsCurrent(s.tasks[1..], |s.tasks[1..]|)
  {
    RosterDropFirst(s.tasks, s.nextId);
    assert Timely(s.tasks[1..], s.tickCount);
    assert forall i :: 0 <= i < |s.tasks| - 1 ==> StateOk(s.tasks[1..][i], s.tickCount);
  }

  lemma KillKeeps(s: Scheduler, pid: nat)
    requires Inv(s)
    ensures Inv(Kill(s, pid))
  {
    var v := KillVerdict(s, pid);
    if v.MarkedForTermination? {
      UpdateKeeps(s, s.tasks[s.current].(state := Terminated));
    } else if v.KilledNow? {
      KilledIsFirst(s, pid);
      DropFirstKeeps(s);
    }
  }

  lemma KilledIsFirst(s: Scheduler, pid: nat)
    requires Inv(s) && KillVerdict(s, pid).KilledNow?
    ensures pid == 1 && |s.tasks| > 1 && s.tasks[0].id == 1 && s.tasks[0].privilege.User? && s.current > 0 && s.mainTracked
    ensures Kill(s, pid) == s.(tasks := s.tasks[1..], current := s.current - 1)
  {
    var i := Find(s.tasks, pid).value;
    UserIsFirst(s.tasks, s.nextId, i);
    assert RemoveAt(s.tasks, 0) == s.tasks[1..];
  }

  /** When the fault path has a user task to terminate and a kernel task to run. */
  predicate FaultHandled(s: Scheduler) {
    && s.tasks != []
    && (s.mainTracked ==> s.current < |s.tasks| && s.tasks[s.current].privilege.User?)
  }

  /** The fault path drops the user task and dispatches, its wake and clean-up passes having nothing to do. */
  lemma FaultShape(s: Scheduler, esp: nat)
    requires var m := TrackMain(s, esp);
             && m.current == 0 && |m.tasks| > 1 && m.tasks[0].privilege.User?
             && Wake(m.tasks[1..], s.tickCount) == m.tasks[1..]
             && Sweep(m.(tasks := m.tasks[1..])) == m.(tasks := m.tasks[1..])
    ensures var m := TrackMain(s, esp);
            Fault(s, esp) == Dispatch(m.(tasks := m.tasks[1..]), FaultNoRunnable)
  {
    var m := TrackMain(s, esp);
    assert RemoveAt(m.tasks, 0) == m.tasks[1..];
  }

  lemma FaultUnfolds(s: Scheduler, esp: nat)
    requires Inv(s) && FaultHandled(s)
    ensures var m := TrackMain(s, esp);
            && Inv(m) && m.current == 0 && |m.tasks| > 1 && m.mainTracked && m.tasks[0].privilege.User?
            && Fault(s, esp) == Dispatch(m.(tasks := m.tasks[1..]), FaultNoRunnable)
  {
    TrackMainKeeps(s, esp);
    var m := TrackMain(s, esp);
    UserIsFirst(m.tasks, m.nextId, m.current);
    DropFirstKeeps(m);
    var d := m.(tasks := m.tasks[1..]);
    assert Wake(d.tasks, d.tickCount) == d.tasks by {
      WakeIsIdle(d.tasks, d.tickCount);
    }
    assert Sweep(d) == d by {
      SweepIsIdle(d);
    }
    FaultShape(s, esp);
  }

  /** The fault path panics exactly when no task is registered or the current task is not the user task. */
  lemma FaultKeeps(s: Scheduler, esp: nat)
    requires Inv(s)
    ensures Fault(s, esp).Resumed? <==> FaultHandled(s)
    ensures FaultHandled(s) ==> Inv(Fault(s, esp).state) && Fault(s, esp).state.tickCount == s.tickCount
  {
    if FaultHandled(s) {
      FaultUnfolds(s, esp);
      var m := TrackMain(s, esp);
      DropFirstKeeps(m);
      DispatchKeeps(m.(tasks := m.tasks[1..]), FaultNoRunnable);
    } else if s.tasks == [] {
      assert !s.mainTracked;
    }
  }
}
