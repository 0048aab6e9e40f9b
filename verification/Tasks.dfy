/**
  The scheduler as a value: what each operation of the task manager does to the
  task list, the current index, the tick counter and the pid counter.  The class
  `TaskManager` is proved to compute these functions; the run theorems are proved
  about them.
*/
module Tasks {
  import opened Wrappers

  datatype Privilege = Kernel | User

  datatype TaskState = Ready | Sleeping(wakeAt: nat) | Terminated

  datatype Task = Task(
    id: nat,
    name: string,
    privilege: Privilege,
    state: TaskState,
    stackPtr: nat,
    runTicks: nat)

  datatype Scheduler = Scheduler(
    tasks: seq<Task>,
    current: nat,
    nextId: nat,
    tickCount: nat,
    mainTracked: bool)

  datatype PanicReason =
    | PidOverflow
    | NoTasks
    | AllTerminated
    | NoRunnable
    | FaultNoTasks
    | FaultNotUser
    | FaultAllTerminated
    | FaultNoRunnable

  /** A context switch to the task whose saved stack pointer is `esp`, or a kernel panic. */
  datatype Outcome = Resumed(state: Scheduler, esp: nat) | Panicked(reason: PanicReason)

  datatype KillResult = KilledNow | MarkedForTermination | PidNotFound | KernelTask

  const BOOT := Scheduler([], 0, 2, 0, false)

  function KernelTaskAt(id: nat, name: string, frame: nat): Task {
    Task(id, name, Kernel, Ready, frame, 0)
  }

  function PlaceholderMain(esp: nat): Task {
    Task(1, "user_main", User, Ready, esp, 0)
  }

  function RemoveAt<T>(s: seq<T>, i: nat): (r: seq<T>)
    requires i < |s|
    ensures |r| == |s| - 1
    ensures forall k :: 0 <= k < i ==> r[k] == s[k]
    ensures forall k :: i <= k < |r| ==> r[k] == s[k + 1]
  {
    s[..i] + s[i + 1..]
  }

  // ---- The passes over the task list ----

  function TrackMain(s: Scheduler, esp: nat): Scheduler {
    if s.mainTracked then s
    else s.(tasks := [PlaceholderMain(esp)] + s.tasks, current := 0, mainTracked := true)
  }

  function WakeTask(t: Task, now: nat): Task {
    if t.state.Sleeping? && now >= t.state.wakeAt then t.(state := Ready) else t
  }

  function Wake(tasks: seq<Task>, now: nat): (r: seq<Task>)
    ensures |r| == |tasks|
    ensures forall i :: 0 <= i < |r| ==> r[i] == WakeTask(tasks[i], now)
  {
    seq(|tasks|, i requires 0 <= i < |tasks| => WakeTask(tasks[i], now))
  }

  /** The tasks that are not Terminated, in order. */
  function Survivors(tasks: seq<Task>): (r: seq<Task>)
    ensures |r| <= |tasks|
  {
    if tasks == [] then []
    else if tasks[0].state.Terminated? then Survivors(tasks[1..])
    else [tasks[0]] + Survivors(tasks[1..])
  }

  /** Drop every Terminated task other than the current one, and keep the current one current. */
  function Sweep(s: Scheduler): (r: Scheduler)
    ensures r.tasks != [] ==> r.current < |r.tasks|
  {
    if s.current < |s.tasks| then
      var before := Survivors(s.tasks[..s.current]);
      var after := Survivors(s.tasks[s.current + 1..]);
      s.(tasks := before + [s.tasks[s.current]] + after, current := |before|)
    else
      var rest := Survivors(s.tasks);
      s.(tasks := rest, current := if rest == [] then s.current - |s.tasks| else 0)
  }

  /** The least Ready index in `lo..hi`. */
  function FirstReady(tasks: seq<Task>, lo: nat, hi: nat): (r: Option<nat>)
    requires lo <= hi <= |tasks|
    ensures r.Some? ==> lo <= r.value < hi && tasks[r.value].state.Ready?
    ensures r.Some? ==> forall i :: lo <= i < r.value ==> !tasks[i].state.Ready?
    ensures r.None? ==> forall i :: lo <= i < hi ==> !tasks[i].state.Ready?
    decreases hi - lo
  {
    if lo == hi then None
    else if tasks[lo].state.Ready? then Some(lo)
    else FirstReady(tasks, lo + 1, hi)
  }

  /** The first Ready index met going round the list from just after `start`, `start` itself last. */
  function NextReady(tasks: seq<Task>, start: nat): (r: Option<nat>)
    requires start < |tasks|
    ensures r.Some? ==> r.value < |tasks| && tasks[r.value].state.Ready?
  {
    var ahead := FirstReady(tasks, start + 1, |tasks|);
    if ahead.Some? then ahead else FirstReady(tasks, 0, start + 1)
  }

  /** The scan from any starting index: it wraps round, and an empty list has nothing to find. */
  function ScanFrom(tasks: seq<Task>, start: nat): (r: Option<nat>)
    ensures r.Some? ==> r.value < |tasks| && tasks[r.value].state.Ready?
  {
    if tasks == [] then None else NextReady(tasks, start % |tasks|)
  }

  function Dispatch(s: Scheduler, stalled: PanicReason): Outcome
    requires s.current < |s.tasks|
  {
    match NextReady(s.tasks, s.current)
    case None => Panicked(stalled)
    case Some(i) => Resumed(s.(current := i), s.tasks[i].stackPtr)
  }

  function DropCurrent(s: Scheduler): (r: Scheduler)
    requires s.current < |s.tasks|
    ensures r.tasks == [] || r.current < |r.tasks|
  {
    var rest := RemoveAt(s.tasks, s.current);
    s.(tasks := rest, current := if s.current < |rest| then s.current else 0)
  }

  function ChargeCurrent(s: Scheduler, esp: nat): Scheduler
    requires s.current < |s.tasks|
  {
    var t := s.tasks[s.current];
    s.(tasks := s.tasks[s.current := t.(stackPtr := esp, runTicks := WrappingAdd64(t.runTicks, 1))])
  }

  // ---- The operations ----

  function Register(s: Scheduler, name: string, frame: nat): Option<Scheduler> {
    if s.nextId + 1 >= U32_LIMIT then None
    else Some(s.(tasks := s.tasks + [KernelTaskAt(s.nextId, name, frame)], nextId := s.nextId + 1))
  }

  /** Advance the clock by one tick and wake whoever is due. */
  function Advance(s: Scheduler): Scheduler {
    var now := WrappingAdd64(s.tickCount, 1);
    s.(tickCount := now, tasks := Wake(s.tasks, now))
  }

  /** Drop a Terminated current task, or save its stack pointer and charge it one tick. */
  function Settle(s: Scheduler, esp: nat): (r: Scheduler)
    requires s.current < |s.tasks|
    ensures r.tasks == [] || r.current < |r.tasks|
  {
    if s.tasks[s.current].state.Terminated? then DropCurrent(s) else ChargeCurrent(s, esp)
  }

  function SettleAndDispatch(s: Scheduler, esp: nat): Outcome
    requires s.tasks == [] || s.current < |s.tasks|
  {
    if s.tasks == [] then Panicked(NoTasks)
    else if Settle(s, esp).tasks == [] then Panicked(AllTerminated)
    else Dispatch(Settle(s, esp), NoRunnable)
  }

  function Tick(s: Scheduler, esp: nat): Outcome {
    if s.tasks == [] then Resumed(Advance(s), esp)
    else SettleAndDispatch(Sweep(Advance(TrackMain(s, esp))), esp)
  }

  /** A sleep lasts at least one tick. */
  function Deadline(now: nat, ticks: nat): nat {
    WrappingAdd64(now, if ticks < 1 then 1 else ticks)
  }

  predicate SleepAccepted(s: Scheduler) {
    && s.tasks != []
    && (s.mainTracked ==>
          && s.current < |s.tasks|
          && s.tasks[s.current].privilege.User?
          && !s.tasks[s.current].state.Terminated?)
  }

  function Sleep(s: Scheduler, esp: nat, ticks: nat): Scheduler {
    if s.tasks == [] then s
    else
      var tracked := TrackMain(s, esp);
      if !SleepAccepted(tracked) then tracked
      else
        var t := tracked.tasks[tracked.current];
        var asleep := t.(stackPtr := esp, state := Sleeping(Deadline(s.tickCount, ticks)));
        tracked.(tasks := tracked.tasks[tracked.current := asleep])
  }

  /** The least index from `lo` on that holds `pid`. */
  function FindFrom(tasks: seq<Task>, pid: nat, lo: nat): (r: Option<nat>)
    requires lo <= |tasks|
    ensures r.Some? ==> lo <= r.value < |tasks| && tasks[r.value].id == pid
    ensures r.Some? ==> forall i :: lo <= i < r.value ==> tasks[i].id != pid
    ensures r.None? ==> forall i :: lo <= i < |tasks| ==> tasks[i].id != pid
    decreases |tasks| - lo
  {
    if lo == |tasks| then None
    else if tasks[lo].id == pid then Some(lo)
    else FindFrom(tasks, pid, lo + 1)
  }

  function Find(tasks: seq<Task>, pid: nat): Option<nat> {
    FindFrom(tasks, pid, 0)
  }

  function KillVerdict(s: Scheduler, pid: nat): KillResult {
    if pid == 0 then KernelTask
    else
      match Find(s.tasks, pid)
      case None => PidNotFound
      case Some(i) =>
        if !s.tasks[i].privilege.User? then KernelTask
        else if i == s.current then MarkedForTermination
        else KilledNow
  }

  function Kill(s: Scheduler, pid: nat): Scheduler {
    match KillVerdict(s, pid)
    case PidNotFound => s
    case KernelTask => s
    case MarkedForTermination =>
      s.(tasks := s.tasks[s.current := s.tasks[s.current].(state := Terminated)])
    case KilledNow =>
      var i := Find(s.tasks, pid).value;
      var rest := RemoveAt(s.tasks, i);
      var shifted := if i < s.current then s.current - 1 else s.current;
      s.(tasks := rest, current := if shifted >= |rest| && rest != [] then 0 else shifted)
  }

  function Fault(s: Scheduler, esp: nat): Outcome {
    var tracked := TrackMain(s, esp);
    if tracked.tasks == [] then Panicked(FaultNoTasks)
    else
      var inRange := if tracked.current < |tracked.tasks| then tracked else tracked.(current := 0);
      if !inRange.tasks[inRange.current].privilege.User? then Panicked(FaultNotUser)
      else
        var dropped := DropCurrent(inRange);
        if dropped.tasks == [] then Panicked(FaultAllTerminated)
        else Dispatch(Sweep(dropped.(tasks := Wake(dropped.tasks, s.tickCount))), FaultNoRunnable)
  }

  // ---- What the shell may ask ----

  datatype Stats = Stats(totalTicks: nat, totalTasks: nat, currentTaskId: nat)

  datatype ProcessInfo = ProcessInfo(id: nat, name: string, state: string, privilege: string, runTicks: nat)

  function PrivilegeLabel(p: Privilege): string {
    if p.Kernel? then "kernel" else "user"
  }

  function StateLabel(t: Task, isCurrent: bool): string {
    match t.state
    case Ready => if isCurrent then "running" else "ready"
    case Sleeping(_) => "sleep"
    case Terminated => "dead"
  }

  function Describe(t: Task, isCurrent: bool): ProcessInfo {
    ProcessInfo(t.id, t.name, StateLabel(t, isCurrent), PrivilegeLabel(t.privilege), t.runTicks)
  }

  const IDLE := ProcessInfo(0, "kernel_idle", "idle", "kernel", 0)
  const PENDING_MAIN := ProcessInfo(1, "user_main", "running", "user", 0)

  function StatsOf(s: Scheduler): Stats {
    Stats(
      s.tickCount,
      if s.mainTracked then |s.tasks| + 1 else |s.tasks| + 2,
      if s.mainTracked && s.current < |s.tasks| then s.tasks[s.current].id else 0)
  }

  function Listing(s: Scheduler): seq<ProcessInfo> {
    seq(|s.tasks|, i requires 0 <= i < |s.tasks| => Describe(s.tasks[i], s.mainTracked && i == s.current))
  }

  function Snapshot(s: Scheduler): seq<ProcessInfo> {
    (if s.mainTracked then [IDLE] else [IDLE, PENDING_MAIN]) + Listing(s)
  }
}
