/**
  The task manager as the kernel runs it: loops that wake, sweep and search a
  task vector updated in place.  Every method is proved to compute the
  corresponding function of module `Tasks`, from every state.
*/
module TaskManagement {
  import opened Wrappers
  import opened Tasks
  import opened TaskLemmas

  class TaskManager {
    var tasks: seq<Task>
    var currentTaskIdx: nat
    var nextTaskId: nat
    var tickCount: nat
    var mainTaskTracked: bool

    function View(): Scheduler
      reads this
    {
      Scheduler(tasks, currentTaskIdx, nextTaskId, tickCount, mainTaskTracked)
    }

    constructor ()
      ensures View() == BOOT
    {
      tasks, currentTaskIdx, nextTaskId, tickCount, mainTaskTracked := [], 0, 2, 0, false;
    }

    method EnsureMainTaskTracked(esp: nat)
      modifies this
      ensures View() == TrackMain(old(View()), esp)
    {
      if !mainTaskTracked {
        tasks := [PlaceholderMain(esp)] + tasks;
        mainTaskTracked := true;
        currentTaskIdx := 0;
      }
    }

    method WakeSleepingTasks()
      modifies this`tasks
      ensures tasks == Wake(old(tasks), tickCount)
    {
      for idx := 0 to |tasks|
        invariant |tasks| == |old(tasks)|
        invariant forall i :: 0 <= i < idx ==> tasks[i] == WakeTask(old(tasks)[i], tickCount)
        invariant forall i :: idx <= i < |tasks| ==> tasks[i] == old(tasks)[i]
      {
        if tasks[idx].state.Sleeping? && tickCount >= tasks[idx].state.wakeAt {
          tasks := tasks[idx := tasks[idx].(state := Ready)];
        }
      }
    }

    /** Take one task that is not current out of the list, the index following the current task. */
    method TakeOut(idx: nat)
      requires idx < |tasks| && idx != currentTaskIdx
      modifies this`tasks, this`currentTaskIdx
      ensures tasks == RemoveAt(old(tasks), idx)
      ensures currentTaskIdx == if idx < old(currentTaskIdx) then old(currentTaskIdx) - 1 else old(currentTaskIdx)
    {
      tasks := tasks[..idx] + tasks[idx + 1..];
      if idx < currentTaskIdx && currentTaskIdx > 0 {
        currentTaskIdx := currentTaskIdx - 1;
      }
    }

    method CleanupTerminatedNonCurrent()
      modifies this`tasks, this`currentTaskIdx
      ensures View() == Sweep(old(View()))
    {
      ghost var before := View();
      var idx := 0;
      while idx < |tasks|
        invariant idx <= |tasks|
        invariant Sweep(View()) == Sweep(before)
        invariant SweptTo(tasks, currentTaskIdx, idx)
        invariant nextTaskId == before.nextId && tickCount == before.tickCount && mainTaskTracked == before.mainTracked
        decreases |tasks| - idx
      {
        if idx == currentTaskIdx {
          idx := idx + 1;
        } else if tasks[idx].state.Terminated? {
          SweepSkips(View(), idx);
          SweptSkips(tasks, currentTaskIdx, idx);
          TakeOut(idx);
        } else {
          idx := idx + 1;
        }
      }
      SweepEnds(View());
      if currentTaskIdx >= |tasks| && |tasks| > 0 {
        currentTaskIdx := 0;
      }
    }

    method FirstReadyIndex() returns (r: Option<nat>)
      ensures r == FirstReady(tasks, 0, |tasks|)
    {
      for idx := 0 to |tasks|
        invariant FirstReady(tasks, 0, |tasks|) == FirstReady(tasks, idx, |tasks|)
      {
        if tasks[idx].state.Ready? {
          return Some(idx);
        }
      }
      return None;
    }

    method NextReadyAfter(start: nat) returns (r: Option<nat>)
      ensures r == ScanFrom(tasks, start)
    {
      if |tasks| == 0 {
        return None;
      }
      var n := |tasks|;
      ghost var from := start % n;
      for offset := 1 to n + 1
        invariant forall k :: 1 <= k < offset ==> !tasks[Wrapped(from, k, n)].state.Ready?
      {
        var idx := (start + offset) % n;
        ModAdd(start, offset, n);
        WrappedIsMod(from, offset, n);
        if tasks[idx].state.Ready? {
          NearestIsNext(tasks, from, offset);
          return Some(idx);
        }
      }
      NoneIsNext(tasks, from);
      return None;
    }

    /** Prefer the next ready task, else the current one if there is one and it is ready, else the first ready one. */
    method ChooseNext() returns (r: Option<nat>)
      ensures r == ScanFrom(tasks, currentTaskIdx)
    {
      ScanFindsAny(tasks, currentTaskIdx);
      r := NextReadyAfter(currentTaskIdx);
      if r.None? && currentTaskIdx < |tasks| && tasks[currentTaskIdx].state.Ready? {
        r := Some(currentTaskIdx);
      }
      if r.None? {
        r := FirstReadyIndex();
      }
    }

    method RegisterNamedTask(name: string, frame: nat) returns (ok: bool)
      modifies this
      ensures Register(old(View()), name, frame) == if ok then Some(View()) else None
    {
      if nextTaskId + 1 >= U32_LIMIT {
        return false;
      }
      var task := KernelTaskAt(nextTaskId, name, frame);
      nextTaskId := nextTaskId + 1;
      tasks := tasks + [task];
      ok := true;
    }

    method RemoveCurrent()
      requires currentTaskIdx < |tasks|
      modifies this`tasks, this`currentTaskIdx
      ensures View() == DropCurrent(old(View()))
    {
      tasks := tasks[..currentTaskIdx] + tasks[currentTaskIdx + 1..];
      if currentTaskIdx >= |tasks| {
        currentTaskIdx := 0;
      }
    }

    /** Drop a Terminated current task, or save its stack pointer and charge it one tick. */
    method SettleCurrent(esp: nat)
      requires currentTaskIdx < |tasks|
      modifies this`tasks, this`currentTaskIdx
      ensures View() == Settle(old(View()), esp)
    {
      if tasks[currentTaskIdx].state.Terminated? {
        RemoveCurrent();
      } else {
        var t := tasks[currentTaskIdx];
        tasks := tasks[currentTaskIdx := t.(stackPtr := esp, runTicks := WrappingAdd64(t.runTicks, 1))];
      }
    }

    method SwitchToNext(stalled: PanicReason) returns (r: Outcome)
      requires currentTaskIdx < |tasks|
      modifies this`currentTaskIdx
      ensures r == Dispatch(old(View()), stalled)
      ensures r.Resumed? ==> r.state == View()
    {
      ScanInRange(tasks, currentTaskIdx);
      var next := ChooseNext();
      if next.None? {
        return Panicked(stalled);
      }
      currentTaskIdx := next.value;
      r := Resumed(View(), tasks[next.value].stackPtr);
    }

    /** Track the main thread, wake the sleepers that are due and clean up. */
    method FreshenList(esp: nat)
      modifies this
      ensures var tracked := TrackMain(old(View()), esp);
              View() == Sweep(tracked.(tasks := Wake(tracked.tasks, tracked.tickCount)))
    {
      EnsureMainTaskTracked(esp);
      WakeSleepingTasks();
      CleanupTerminatedNonCurrent();
    }

    /** The timer interrupt: the returned outcome carries the state the manager is left in. */
    method ScheduleNext(esp: nat) returns (r: Outcome)
      modifies this
      ensures r == Tick(old(View()), esp)
      ensures r.Resumed? ==> r.state == View()
    {
      tickCount := WrappingAdd64(tickCount, 1);
      if |tasks| == 0 {
        return Resumed(View(), esp);
      }
      ghost var listed := TrackMain(View(), esp);
      listed := listed.(tasks := Wake(listed.tasks, listed.tickCount));
      FreshenList(esp);
      if |tasks| == 0 {
        return Panicked(NoTasks);
      }
      // The clean-up pass has left the index in range, so the range check that follows it in the source is idle.
      SweepCleans(listed);
      SettleCurrent(esp);
      if |tasks| == 0 {
        return Panicked(AllTerminated);
      }
      SweepEnds(View());
      CleanupTerminatedNonCurrent();
      r := SwitchToNext(NoRunnable);
    }

    method SleepCurrentTask(esp: nat, ticks: nat) returns (accepted: bool)
      modifies this
      ensures View() == Sleep(old(View()), esp, ticks)
      ensures accepted == SleepAccepted(old(View()))
    {
      if |tasks| == 0 {
        return false;
      }
      EnsureMainTaskTracked(esp);
      if currentTaskIdx >= |tasks| {
        return false;
      }
      var current := tasks[currentTaskIdx];
      if !current.privilege.User? {
        return false;
      }
      if current.state.Terminated? {
        return false;
      }
      var sleepTicks := if ticks < 1 then 1 else ticks;
      tasks := tasks[currentTaskIdx :=
        current.(stackPtr := esp, state := Sleeping(WrappingAdd64(tickCount, sleepTicks)))];
      accepted := true;
    }

    method PositionOf(pid: nat) returns (r: Option<nat>)
      ensures r == Find(tasks, pid)
    {
      for idx := 0 to |tasks|
        invariant forall i :: 0 <= i < idx ==> tasks[i].id != pid
      {
        if tasks[idx].id == pid {
          return Some(idx);
        }
      }
      return None;
    }

    method KillTaskByPid(pid: nat) returns (r: KillResult)
      modifies this
      ensures View() == Kill(old(View()), pid)
      ensures r == KillVerdict(old(View()), pid)
    {
      if pid == 0 {
        return KernelTask;
      }
      var position := PositionOf(pid);
      if position.None? {
        return PidNotFound;
      }
      var idx := position.value;
      if !tasks[idx].privilege.User? {
        return KernelTask;
      }
      if idx == currentTaskIdx {
        tasks := tasks[idx := tasks[idx].(state := Terminated)];
        return MarkedForTermination;
      }
      TakeOut(idx);
      if currentTaskIdx >= |tasks| && |tasks| > 0 {
        currentTaskIdx := 0;
      }
      r := KilledNow;
    }

    method TerminateCurrentUserTaskFromFault(esp: nat) returns (r: Outcome)
      modifies this
      ensures r == Fault(old(View()), esp)
      ensures r.Resumed? ==> r.state == View()
    {
      EnsureMainTaskTracked(esp);
      if |tasks| == 0 {
        return Panicked(FaultNoTasks);
      }
      if currentTaskIdx >= |tasks| {
        currentTaskIdx := 0;
      }
      if !tasks[currentTaskIdx].privilege.User? {
        return Panicked(FaultNotUser);
      }
      RemoveCurrent();
      if |tasks| == 0 {
        return Panicked(FaultAllTerminated);
      }
      WakeSleepingTasks();
      CleanupTerminatedNonCurrent();
      r := SwitchToNext(FaultNoRunnable);
    }

    method SchedulerStats() returns (r: Stats)
      ensures r == StatsOf(View())
    {
      var total := if mainTaskTracked then |tasks| + 1 else |tasks| + 2;
      var id := 0;
      if mainTaskTracked && currentTaskIdx < |tasks| {
        id := tasks[currentTaskIdx].id;
      }
      r := Stats(tickCount, total, id);
    }

    method ProcessSnapshot() returns (list: seq<ProcessInfo>)
      ensures list == Snapshot(View())
    {
      list := [IDLE];
      if mainTaskTracked {
        for idx := 0 to |tasks|
          invariant list == [IDLE] + Listing(View())[..idx]
        {
          list := list + [Describe(tasks[idx], idx == currentTaskIdx)];
        }
      } else {
        list := list + [PENDING_MAIN];
        for idx := 0 to |tasks|
          invariant list == [IDLE, PENDING_MAIN] + Listing(View())[..idx]
        {
          list := list + [Describe(tasks[idx], false)];
        }
      }
    }
  }
}
