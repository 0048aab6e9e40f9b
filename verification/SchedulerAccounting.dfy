/**
  Where the ticks go: every tick is charged to a task that is live, was charged
  to one that is gone, or was charged to nobody.  The figures the shell prints
  follow from it.
*/
module SchedulerAccounting {
  import opened Wrappers
  import opened Tasks
  import opened SchedulerInvariant
  import opened SchedulerByPid
  import opened SchedulerRuns

  /** The run ticks of the tasks of `a` whose pid is absent from `b`. */
  function Gone(a: seq<Task>, b: seq<Task>): nat {
    if a == [] then 0
    else (if Lookup(b, a[0].id).None? then a[0].runTicks else 0) + Gone(a[1..], b)
  }

  /** A tick nobody pays for: no task is registered yet, or the current task is being buried. */
  predicate Uncharged(s: Scheduler, e: Event) {
    e.TimerTick? && (s.tasks == [] || (s.mainTracked && s.current < |s.tasks| && s.tasks[s.current].state.Terminated?))
  }

  ghost function RetiredTicks(states: seq<Scheduler>, k: nat): nat
    requires k < |states|
  {
    if k == 0 then 0 else RetiredTicks(states, k - 1) + Gone(states[k - 1].tasks, states[k].tasks)
  }

  ghost function UnchargedTicks(states: seq<Scheduler>, events: seq<Event>, k: nat): nat
    requires |states| == |events| + 1 && k <= |events|
  {
    if k == 0 then 0
    else UnchargedTicks(states, events, k - 1) + if Uncharged(states[k - 1], events[k - 1]) then 1 else 0
  }

  lemma {:induction false} GoneNone(a: seq<Task>, b: seq<Task>)
    requires forall i :: 0 <= i < |a| ==> Lookup(b, a[i].id).Some?
    ensures Gone(a, b) == 0
  {
    if a == [] {
    } else {
      GoneNone(a[1..], b);
    }
  }

  /** The event removes the user task, which sits first in the list. */
  predicate Buries(s: Scheduler, e: Event) {
    s.tasks != [] && s.tasks[0].id == 1 && NextByPid(s, e, 1).None?
  }

  lemma KernelSurvives(s: Scheduler, e: Event, pid: nat)
    requires Inv(s) && Roomy(s) && Step(s, e).Some?
    requires TaskOf(s, pid).Some? && pid != 1
    ensures NextByPid(s, e, pid).Some? && NextByPid(s, e, pid).value.privilege.Kernel?
    ensures NextByPid(s, e, pid).value.state.Ready?
  {
    StepByPid(s, e, pid);
    StepKeeps(s, e);
    KernelIsReady(Step(s, e).value, pid);
    KernelIsReady(s, pid);
  }

  lemma KernelIsReady(s: Scheduler, pid: nat)
    requires Inv(s) && pid != 1
    ensures TaskOf(s, pid).Some? ==> TaskOf(s, pid).value.privilege.Kernel? && TaskOf(s, pid).value.state.Ready?
  {
    if TaskOf(s, pid).Some? {
      var i := Find(s.tasks, pid).value;
      assert IdentityOk(s.tasks[i], s.nextId) && StateOk(s.tasks[i], s.tickCount);
    }
  }

  lemma StaysListed(s: Scheduler, e: Event, i: nat)
    requires Inv(s) && Roomy(s) && Step(s, e).Some? && i < |s.tasks|
    ensures Lookup(Step(s, e).value.tasks, s.tasks[i].id).Some? <==> !(i == 0 && Buries(s, e))
  {
    var pid := s.tasks[i].id;
    LookupAt(s.tasks, i);
    UserIsFirst(s.tasks, s.nextId, i);
    StepByPid(s, e, pid);
    if pid != 1 {
      KernelSurvives(s, e, pid);
    }
  }

  lemma GoneIsFirst(s: Scheduler, e: Event)
    requires Inv(s) && Roomy(s) && Step(s, e).Some?
    ensures Gone(s.tasks, Step(s, e).value.tasks) == if Buries(s, e) then s.tasks[0].runTicks else 0
  {
    var b := Step(s, e).value.tasks;
    forall i | 0 <= i < |s.tasks|
      ensures Lookup(b, s.tasks[i].id).Some? <==> !(i == 0 && Buries(s, e))
    {
      StaysListed(s, e, i);
    }
    GoneNone(if Buries(s, e) then s.tasks[1..] else s.tasks, b);
  }

  lemma SettleTotals(s: Scheduler, esp: nat)
    requires Inv(s) && s.mainTracked && TotalRun(s.tasks) < s.tickCount < U64_LIMIT
    ensures TotalRun(Settle(s, esp).tasks) ==
            if s.tasks[s.current].state.Terminated? then TotalRun(s.tasks) - s.tasks[0].runTicks else TotalRun(s.tasks) + 1
    ensures s.tasks[s.current].state.Terminated? ==> s.current == 0 && s.tasks[0].id == 1
  {
    if s.tasks[s.current].state.Terminated? {
      DeadIsUser(s, s.current);
      UserIsFirst(s.tasks, s.nextId, s.current);
      DropAtZero(s);
      DropFirstKeeps(s);
    } else {
      ChargeCurrentKeeps(s, esp);
    }
  }

  lemma TickTotals(s: Scheduler, e: Event)
    requires Inv(s) && Roomy(s) && e.TimerTick? && s.tasks != []
    ensures Tick(s, e.esp).Resumed?
    ensures TotalRun(Tick(s, e.esp).state.tasks) ==
            if Uncharged(s, e) then TotalRun(s.tasks) - s.tasks[0].runTicks else TotalRun(s.tasks) + 1
    ensures Uncharged(s, e) ==> s.current == 0 && s.tasks[0].id == 1
  {
    TickTasks(s, e.esp);
    TickingKeeps(s, e.esp);
    TickingTotals(s, e);
    SettleTotals(Ticking(s, e.esp), e.esp);
  }

  /** Until the current task is settled, a tick leaves its fate and the first task's run ticks alone. */
  lemma TickingTotals(s: Scheduler, e: Event)
    requires Inv(s) && e.TimerTick? && s.tasks != []
    ensures var a := Ticking(s, e.esp);
            && a.current < |a.tasks|
            && (a.tasks[a.current].state.Terminated? <==> Uncharged(s, e))
            && (Uncharged(s, e) ==> a.current == s.current && a.tasks[0].id == s.tasks[0].id
                                    && a.tasks[0].runTicks == s.tasks[0].runTicks)
  {
  }

  lemma TickConserves(s: Scheduler, e: Event)
    requires Inv(s) && Roomy(s) && e.TimerTick? && Tick(s, e.esp).Resumed?
    ensures TotalRun(Tick(s, e.esp).state.tasks) + (if Buries(s, e) then s.tasks[0].runTicks else 0)
            + (if Uncharged(s, e) then 1 else 0) == TotalRun(s.tasks) + 1
  {
    if s.tasks != [] {
      TickTotals(s, e);
      LookupAt(s.tasks, 0);
    }
  }

  lemma SleepConserves(s: Scheduler, e: Event)
    requires Inv(s) && e.SleepCall?
    ensures TotalRun(Sleep(s, e.esp, e.ticks).tasks) == TotalRun(s.tasks)
    ensures !Buries(s, e)
  {
    if s.tasks != [] {
      TrackMainKeeps(s, e.esp);
      var m := TrackMain(s, e.esp);
      LookupAt(s.tasks, 0);
      if SleepAccepted(m) {
        TotalRunUpdate(m.tasks, m.current,
                       m.tasks[m.current].(stackPtr := e.esp, state := Sleeping(Deadline(s.tickCount, e.ticks))));
      }
    }
  }

  lemma KillBuries(s: Scheduler, e: Event)
    requires Inv(s) && e.KillPid?
    ensures Buries(s, e) <==> KillVerdict(s, e.pid).KilledNow?
  {
    if s.tasks != [] {
      LookupAt(s.tasks, 0);
      UserIsFirst(s.tasks, s.nextId, 0);
    }
    if Find(s.tasks, e.pid).Some? {
      UserIsFirst(s.tasks, s.nextId, Find(s.tasks, e.pid).value);
    }
    if KillVerdict(s, e.pid).KilledNow? {
      KilledIsFirst(s, e.pid);
    }
  }

  lemma MarkedTotals(s: Scheduler, victim: nat)
    requires KillVerdict(s, victim).MarkedForTermination?
    ensures TotalRun(Kill(s, victim).tasks) == TotalRun(s.tasks)
  {
    var i := Find(s.tasks, victim).value;
    TotalRunUpdate(s.tasks, i, s.tasks[i].(state := Terminated));
  }

  lemma KillConserves(s: Scheduler, e: Event)
    requires Inv(s) && e.KillPid?
    ensures TotalRun(Kill(s, e.pid).tasks) + (if Buries(s, e) then s.tasks[0].runTicks else 0) == TotalRun(s.tasks)
  {
    KillBuries(s, e);
    var v := KillVerdict(s, e.pid);
    if v.KilledNow? {
      KilledIsFirst(s, e.pid);
    } else if v.MarkedForTermination? {
      MarkedTotals(s, e.pid);
    } else {
      SparedByPid(s, e.pid);
    }
  }

  lemma FaultConserves(s: Scheduler, e: Event)
    requires Inv(s) && e.UserFault? && Fault(s, e.esp).Resumed?
    ensures TotalRun(Fault(s, e.esp).state.tasks) + (if Buries(s, e) then s.tasks[0].runTicks else 0) == TotalRun(s.tasks)
  {
    FaultKeeps(s, e.esp);
    FaultUnfolds(s, e.esp);
    if s.mainTracked {
      UserIsFirst(s.tasks, s.nextId, 0);
    } else {
      assert TrackMain(s, e.esp).tasks[1..] == s.tasks;
      UserIsFirst(s.tasks, s.nextId, 0);
    }
  }

  lemma StepConserves(s: Scheduler, e: Event)
    requires Inv(s) && Roomy(s) && Step(s, e).Some?
    ensures TotalRun(Step(s, e).value.tasks) + (if Buries(s, e) then s.tasks[0].runTicks else 0)
            + (if Uncharged(s, e) then 1 else 0) == TotalRun(s.tasks) + (if e.TimerTick? then 1 else 0)
  {
    match e
    case RegisterTask(name, frame) =>
      TotalRunConcat(s.tasks, [KernelTaskAt(s.nextId, name, frame)]);
      if s.tasks != [] { LookupAt(s.tasks, 0); }
    case TimerTick(_) => TickConserves(s, e);
    case SleepCall(_, _) => SleepConserves(s, e);
    case KillPid(_) => KillConserves(s, e);
    case UserFault(_) => FaultConserves(s, e);
  }

  lemma MoveConserves(states: seq<Scheduler>, events: seq<Event>, i: nat)
    requires IsRun(states, events) && Inv(states[0]) && i < |events|
    ensures TotalRun(states[i + 1].tasks) + Gone(states[i].tasks, states[i + 1].tasks)
            + (if Uncharged(states[i], events[i]) then 1 else 0) + states[i].tickCount
         == TotalRun(states[i].tasks) + states[i + 1].tickCount
  {
    RunKeeps(states, events, i);
    MoveKeeps(states, events, i);
    assert Moves(states, events, i);
    StepConserves(states[i], events[i]);
    GoneIsFirst(states[i], events[i]);
  }

  /** The tick counter is the run ticks of the living, plus those of the gone, plus the ticks nobody paid for. */
  lemma {:induction false} TicksAreConserved(states: seq<Scheduler>, events: seq<Event>, k: nat)
    requires IsBootRun(states, events) && k <= |events|
    ensures states[k].tickCount ==
            TotalRun(states[k].tasks) + RetiredTicks(states, k) + UnchargedTicks(states, events, k)
  {
    if k == 0 {
    } else {
      TicksAreConserved(states, events, k - 1);
      MoveConserves(states, events, k - 1);
    }
  }

  // ---- What the shell prints ----

  function ListedRun(list: seq<ProcessInfo>): nat {
    if list == [] then 0 else list[0].runTicks + ListedRun(list[1..])
  }

  /** The CPU share that `top` prints for one process. */
  function CpuPercent(runTicks: nat, totalTicks: nat): nat {
    if totalTicks == 0 then 0 else Saturate(runTicks * 100, U64_LIMIT) / totalTicks
  }

  function PercentSum(list: seq<ProcessInfo>, totalTicks: nat): nat {
    if list == [] then 0 else CpuPercent(list[0].runTicks, totalTicks) + PercentSum(list[1..], totalTicks)
  }

  lemma CpuPercentBound(runTicks: nat, totalTicks: nat)
    ensures CpuPercent(runTicks, totalTicks) * totalTicks <= 100 * runTicks
  {
    if totalTicks > 0 {
      var x := Saturate(runTicks * 100, U64_LIMIT);
      assert x == totalTicks * (x / totalTicks) + x % totalTicks;
    }
  }

  lemma Distribute(a: nat, b: nat, t: nat)
    ensures (a + b) * t == a * t + b * t
  {
  }

  lemma {:induction false} PercentSumBound(list: seq<ProcessInfo>, totalTicks: nat)
    ensures PercentSum(list, totalTicks) * totalTicks <= 100 * ListedRun(list)
  {
    if list == [] {
    } else {
      CpuPercentBound(list[0].runTicks, totalTicks);
      PercentSumBound(list[1..], totalTicks);
      Distribute(CpuPercent(list[0].runTicks, totalTicks), PercentSum(list[1..], totalTicks), totalTicks);
    }
  }

  lemma {:induction false} ListingRun(list: seq<ProcessInfo>, tasks: seq<Task>)
    requires |list| == |tasks| && forall i :: 0 <= i < |list| ==> list[i].runTicks == tasks[i].runTicks
    ensures ListedRun(list) == TotalRun(tasks)
  {
    if list == [] {
    } else {
      ListingRun(list[1..], tasks[1..]);
    }
  }

  lemma SnapshotRun(s: Scheduler)
    ensures ListedRun(Snapshot(s)) == TotalRun(s.tasks)
  {
    var l := Listing(s);
    ListingRun(l, s.tasks);
    assert ([IDLE] + l)[1..] == l;
    assert ([IDLE, PENDING_MAIN] + l)[1..] == [PENDING_MAIN] + l && ([PENDING_MAIN] + l)[1..] == l;
  }

  /** The percentages `top` prints: read at tick T of a listing taken at tick T', they sum to at most 100 T' / T, and so
      to at most 100 while T' is less than one hundredth past T. */
  lemma TopPercentages(states: seq<Scheduler>, events: seq<Event>, j: nat, k: nat)
    requires IsBootRun(states, events) && j <= k <= |events|
    ensures var t, u := StatsOf(states[j]).totalTicks, StatsOf(states[k]).totalTicks;
            && PercentSum(Snapshot(states[k]), t) * t <= 100 * u
            && (t == 0 || 100 * u < 101 * t ==> PercentSum(Snapshot(states[k]), t) <= 100)
  {
    var t, u := states[j].tickCount, states[k].tickCount;
    RunKeeps(states, events, k);
    SnapshotRun(states[k]);
    PercentSumBound(Snapshot(states[k]), t);
    if t == 0 {
      NoPercent(Snapshot(states[k]));
    } else if 100 * u < 101 * t {
      LessFactor(PercentSum(Snapshot(states[k]), t), 101, t);
    }
  }

  lemma {:induction false} NoPercent(list: seq<ProcessInfo>)
    ensures PercentSum(list, 0) == 0
  {
    if list == [] {
    } else {
      NoPercent(list[1..]);
    }
  }

  lemma LessFactor(a: nat, b: nat, t: nat)
    requires a * t < b * t
    ensures a < b
  {
    assert a >= b ==> a * t >= b * t;
  }

  /** The statistics and the listing agree: distinct pids, as many as counted, one running at most, and it is the current one. */
  lemma SnapshotIsConsistent(s: Scheduler)
    requires Inv(s)
    ensures |Snapshot(s)| == StatsOf(s).totalTasks
    ensures forall i, j :: 0 <= i < j < |Snapshot(s)| ==> Snapshot(s)[i].id != Snapshot(s)[j].id
    ensures forall i :: 0 <= i < |Snapshot(s)| && Snapshot(s)[i].state == "running" ==>
              Snapshot(s)[i].id == if s.mainTracked then StatsOf(s).currentTaskId else 1
    ensures forall i, j :: 0 <= i < j < |Snapshot(s)| ==> !(Snapshot(s)[i].state == "running" && Snapshot(s)[j].state == "running")
  {
    var list := Snapshot(s);
    var h := if s.mainTracked then 1 else 2;
    forall i | h <= i < |list|
      ensures list[i] == Describe(s.tasks[i - h], s.mainTracked && i - h == s.current)
      ensures list[i].id >= 1 && (!s.mainTracked ==> list[i].id >= 2)
    {
      assert list[i] == Listing(s)[i - h];
      assert IdentityOk(s.tasks[i - h], s.nextId);
    }
  }
}
