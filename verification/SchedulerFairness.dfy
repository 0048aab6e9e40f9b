/**
  Bounded waiting: the round-robin scan never passes over a Ready task more than
  once round the list.  The measure is the number of places from the current task
  round to the waiting one.
*/
module SchedulerFairness {
  import opened Wrappers
  import opened Tasks
  import opened TaskLemmas
  import opened SchedulerInvariant
  import opened SchedulerByPid
  import opened SchedulerRuns
  import opened SchedulerAccounting

  /** How many steps round a list of `n` lead from just before `from + 1` to `to`; a full turn back to `from`. */
  function Distance(n: nat, from: nat, to: nat): (d: nat)
    requires from < n && to < n
    ensures 1 <= d <= n
  {
    if to > from then to - from else to + n - from
  }

  /** The scan picks the nearest Ready index, and picks nothing exactly when nothing is Ready. */
  lemma NextReadyIsNearest(tasks: seq<Task>, start: nat)
    requires start < |tasks|
    ensures NextReady(tasks, start).None? <==> forall i :: 0 <= i < |tasks| ==> !tasks[i].state.Ready?
    ensures NextReady(tasks, start).Some? ==>
              forall i :: 0 <= i < |tasks| && tasks[i].state.Ready? ==>
                Distance(|tasks|, start, NextReady(tasks, start).value) <= Distance(|tasks|, start, i)
  {
  }

  /** The two fallbacks after the scan (the current task, then the first Ready task) never change its answer. */
  lemma FallbackIsIdle(tasks: seq<Task>, start: nat)
    requires start < |tasks|
    ensures var scan := NextReady(tasks, start);
            var orCurrent := if scan.None? && tasks[start].state.Ready? then Some(start) else scan;
            (if orCurrent.None? then FirstReady(tasks, 0, |tasks|) else orCurrent) == scan
  {
    NextReadyIsNearest(tasks, start);
  }

  /** How far the current task is from `pid`, going round. */
  function Wait(s: Scheduler, pid: nat): nat
    requires s.current < |s.tasks| && Find(s.tasks, pid).Some?
  {
    Distance(|s.tasks|, s.current, Find(s.tasks, pid).value)
  }

  /** The main thread is tracked and the current task is not waiting to be buried. */
  ghost predicate Rotating(s: Scheduler) {
    Inv(s) && s.mainTracked && !s.tasks[s.current].state.Terminated?
  }

  ghost predicate ReadyAt(s: Scheduler, pid: nat) {
    TaskOf(s, pid).Some? && TaskOf(s, pid).value.state.Ready?
  }

  /** Ticks, sleeps, and kills that do not hit the current task. */
  predicate Gentle(s: Scheduler, e: Event) {
    e.TimerTick? || e.SleepCall? || (e.KillPid? && !KillVerdict(s, e.pid).MarkedForTermination?)
  }

  /** Turning from `c` past `i` towards `p` brings `p` nearer by the places turned. */
  lemma TurnShortens(n: nat, c: nat, i: nat, p: nat)
    requires c < n && i < n && p < n && i != p
    requires Distance(n, c, i) <= Distance(n, c, p)
    ensures Distance(n, i, p) == Distance(n, c, p) - Distance(n, c, i)
  {
  }

  lemma SameFind(a: seq<Task>, b: seq<Task>, pid: nat)
    requires |a| == |b| && forall i :: 0 <= i < |a| ==> a[i].id == b[i].id
    ensures Find(a, pid) == Find(b, pid)
  {
  }

  /** The same tasks in the same places, whoever was Ready still Ready. */
  ghost predicate SamePlaces(a: Scheduler, b: Scheduler) {
    && a.current == b.current && |a.tasks| == |b.tasks|
    && forall i :: 0 <= i < |a.tasks| ==>
         a.tasks[i].id == b.tasks[i].id && (a.tasks[i].state.Ready? ==> b.tasks[i].state.Ready?)
  }

  lemma SettleKeepsPlaces(s: Scheduler, esp: nat)
    requires s.current < |s.tasks| && !s.tasks[s.current].state.Terminated?
    ensures SamePlaces(s, Settle(s, esp))
  {
  }

  lemma AdvanceKeepsPlaces(s: Scheduler)
    ensures SamePlaces(s, Advance(s))
    ensures forall i :: 0 <= i < |s.tasks| && !s.tasks[i].state.Terminated? ==> !Advance(s).tasks[i].state.Terminated?
  {
  }

  /** Away from a burial, the list a tick dispatches from differs from the old one in states and accounts only. */
  lemma RotatingTick(s: Scheduler, esp: nat)
    requires Rotating(s)
    ensures Ticking(s, esp).current < |Ticking(s, esp).tasks|
    ensures SamePlaces(s, Settle(Ticking(s, esp), esp))
  {
    assert Ticking(s, esp) == Advance(s);
    AdvanceKeepsPlaces(s);
    SettleKeepsPlaces(Advance(s), esp);
  }

  lemma TickApproaches(s: Scheduler, esp: nat, pid: nat)
    requires Rotating(s) && Roomy(s) && ReadyAt(s, pid)
    ensures Tick(s, esp).Resumed?
    ensures var n := Tick(s, esp).state;
            && n.current < |n.tasks| && Find(n.tasks, pid).Some?
            && (n.tasks[n.current].id == pid || Wait(n, pid) + 1 <= Wait(s, pid))
  {
    RotatingTick(s, esp);
    TickSettles(s, esp);
    var t := Settle(Ticking(s, esp), esp);
    var n := Tick(s, esp).state;
    SameFind(s.tasks, t.tasks, pid);
    var p := Find(t.tasks, pid).value;
    NextReadyIsNearest(t.tasks, t.current);
    if n.current != p {
      TurnShortens(|t.tasks|, t.current, n.current, p);
    }
  }

  // ---- Burials ----

  lemma SettleBuries(s: Scheduler, esp: nat)
    requires Inv(s) && s.mainTracked && s.tasks[s.current].state.Terminated?
    ensures s.current == 0 && |s.tasks| > 1
    ensures Settle(s, esp) == s.(tasks := s.tasks[1..])
    ensures forall i :: 0 <= i < |s.tasks| - 1 ==> s.tasks[1..][i].state.Ready?
  {
    DeadIsUser(s, s.current);
    UserIsFirst(s.tasks, s.nextId, s.current);
    DropAtZero(s);
    RosterDropFirst(s.tasks, s.nextId);
    assert forall i :: 0 <= i < |s.tasks| ==> StateOk(s.tasks[i], s.tickCount);
  }

  lemma AllReadyNext(tasks: seq<Task>, start: nat)
    requires start < |tasks| && forall i :: 0 <= i < |tasks| ==> tasks[i].state.Ready?
    ensures NextReady(tasks, start) == Some(if start + 1 < |tasks| then start + 1 else 0)
  {
  }

  /** A list whose current task is Terminated, settled: everybody else one place down, and Ready. */
  lemma BurialPlaces(s: Scheduler, a: Scheduler, esp: nat)
    requires SamePlaces(s, a) && Inv(a) && a.mainTracked && a.tasks[a.current].state.Terminated?
    ensures var d := Settle(a, esp);
            && s.current == 0 && |s.tasks| > 1
            && d.current == 0 && |d.tasks| == |s.tasks| - 1
            && forall i :: 0 <= i < |d.tasks| ==> d.tasks[i].state.Ready? && d.tasks[i].id == s.tasks[i + 1].id
  {
    SettleBuries(a, esp);
  }

  /** The list from which a burying tick dispatches: the old one without its first task, everybody Ready. */
  lemma BurialList(s: Scheduler, esp: nat)
    requires Inv(s) && Roomy(s) && s.mainTracked && s.tasks[s.current].state.Terminated?
    ensures s.current == 0 && |s.tasks| > 1
    ensures Ticking(s, esp).current < |Ticking(s, esp).tasks|
    ensures var d := Settle(Ticking(s, esp), esp);
            && d.current == 0 && |d.tasks| == |s.tasks| - 1
            && forall i :: 0 <= i < |d.tasks| ==> d.tasks[i].state.Ready? && d.tasks[i].id == s.tasks[i + 1].id
  {
    TickingKeeps(s, esp);
    AdvanceKeepsPlaces(s);
    var a := Ticking(s, esp);
    assert a == Advance(s) && a.tasks[a.current].state.Terminated?;
    BurialPlaces(s, a, esp);
  }

  /** The tick that buries the current task: every other task moves down a place, and the scan starts beyond the
      first of them. */
  lemma BurialTick(s: Scheduler, esp: nat)
    requires Inv(s) && Roomy(s) && s.mainTracked && s.tasks[s.current].state.Terminated?
    ensures s.current == 0 && |s.tasks| > 1 && Tick(s, esp).Resumed?
    ensures var n := Tick(s, esp).state;
            && |n.tasks| == |s.tasks| - 1
            && (forall i :: 0 <= i < |n.tasks| ==> n.tasks[i].id == s.tasks[i + 1].id)
            && n.current == if |s.tasks| > 2 then 1 else 0
  {
    BurialList(s, esp);
    TickSettles(s, esp);
    AllReadyNext(Settle(Ticking(s, esp), esp).tasks, 0);
  }

  /** Where a surviving pid ends up when the first task goes. */
  lemma MovedDown(a: seq<Task>, b: seq<Task>, pid: nat)
    requires |b| == |a| - 1 && (forall i :: 0 <= i < |b| ==> b[i].id == a[i + 1].id)
    requires Find(a, pid).Some? && a[0].id != pid
    ensures Find(b, pid) == Some(Find(a, pid).value - 1)
  {
    var p := Find(a, pid).value;
    assert b[p - 1].id == pid;
    assert forall i :: 0 <= i < p - 1 ==> b[i].id == a[i + 1].id;
  }

  lemma BurialWait(s: Scheduler, esp: nat, pid: nat)
    requires Inv(s) && Roomy(s) && s.mainTracked && s.tasks[s.current].state.Terminated? && ReadyAt(s, pid)
    ensures Tick(s, esp).Resumed?
    ensures var n := Tick(s, esp).state;
            var p := Find(s.tasks, pid).value;
            && p >= 1 && Wait(s, pid) == p && Find(n.tasks, pid) == Some(p - 1)
            && n.current < |n.tasks| && n.current == (if |s.tasks| > 2 then 1 else 0) && |n.tasks| == |s.tasks| - 1
            && n.tasks[n.current].id == s.tasks[n.current + 1].id
  {
    BurialTick(s, esp);
    MovedDown(s.tasks, Tick(s, esp).state.tasks, pid);
  }

  /** A tick dispatches a Ready task or brings it nearer, except in exactly one case: the tick buries the current
      task, two or more tasks remain, and the Ready task is the buried one's successor. */
  lemma TickShortensExactly(s: Scheduler, esp: nat, pid: nat)
    requires Inv(s) && Roomy(s) && s.mainTracked && ReadyAt(s, pid)
    ensures Tick(s, esp).Resumed?
    ensures var n := Tick(s, esp).state;
            && n.current < |n.tasks| && Find(n.tasks, pid).Some?
            && (n.tasks[n.current].id == pid || Wait(n, pid) < Wait(s, pid)
                <==> !(s.tasks[s.current].state.Terminated? && |s.tasks| > 2 && pid == s.tasks[1].id))
  {
    if s.tasks[s.current].state.Terminated? {
      BurialWait(s, esp, pid);
      LookupAt(s.tasks, 1);
      if |s.tasks| > 2 {
        LookupAt(s.tasks, 2);
      }
    } else {
      TickApproaches(s, esp, pid);
    }
  }

  // ---- Windows without a burial on the way ----

  /** Removing the first task, which is not the current one, brings nobody further away. */
  lemma RemovalApproaches(s: Scheduler, n: Scheduler, pid: nat)
    requires 0 < s.current < |s.tasks| && n.tasks == s.tasks[1..] && n.current == s.current - 1
    requires Find(s.tasks, pid).Some? && s.tasks[0].id != pid
    ensures Find(n.tasks, pid).Some? && Wait(n, pid) <= Wait(s, pid)
    ensures TaskOf(n, pid).Some? && n.tasks[n.current] == s.tasks[s.current]
  {
    MovedDown(s.tasks, n.tasks, pid);
  }

  lemma KilledApproaches(s: Scheduler, victim: nat, pid: nat)
    requires Inv(s) && KillVerdict(s, victim).KilledNow? && TaskOf(s, pid).Some? && pid != 1
    ensures var n := Kill(s, victim);
            && n.current < |n.tasks| <= |s.tasks| && n.tasks[n.current] == s.tasks[s.current]
            && TaskOf(n, pid).Some? && Wait(n, pid) <= Wait(s, pid)
  {
    KilledIsFirst(s, victim);
    var n := s.(tasks := s.tasks[1..], current := s.current - 1);
    RemovalApproaches(s, n, pid);
    assert Kill(s, victim) == n;
  }

  lemma KillApproaches(s: Scheduler, victim: nat, pid: nat)
    requires Inv(s) && s.mainTracked && !KillVerdict(s, victim).MarkedForTermination?
    requires TaskOf(s, pid).Some? && TaskOf(Kill(s, victim), pid).Some?
    ensures var n := Kill(s, victim);
            && n.current < |n.tasks| <= |s.tasks| && Wait(n, pid) <= Wait(s, pid)
            && n.tasks[n.current] == s.tasks[s.current]
  {
    if KillVerdict(s, victim).KilledNow? {
      KilledByPid(s, victim, pid);
      KilledApproaches(s, victim, pid);
    } else {
      SparedByPid(s, victim);
    }
  }

  lemma SleepApproaches(s: Scheduler, e: Event, pid: nat)
    requires Inv(s) && s.mainTracked && e.SleepCall? && TaskOf(s, pid).Some?
    ensures var n := Sleep(s, e.esp, e.ticks);
            && n.current < |n.tasks| == |s.tasks| && Find(n.tasks, pid).Some? && Wait(n, pid) == Wait(s, pid)
            && n.tasks[n.current].state.Terminated? == s.tasks[s.current].state.Terminated?
  {
    SameFind(s.tasks, Sleep(s, e.esp, e.ticks).tasks, pid);
  }

  ghost predicate Tracked(s: Scheduler) {
    Inv(s) && s.mainTracked
  }

  /** How many ticks `pid` may still have to wait: its distance, or a whole turn while the current task is to be buried. */
  function Budget(s: Scheduler, pid: nat): nat
    requires s.current < |s.tasks| && Find(s.tasks, pid).Some?
  {
    if s.tasks[s.current].state.Terminated? then |s.tasks| else Wait(s, pid)
  }

  /** After a gentle move, `pid` has just been dispatched or has no longer to wait, and less if the move was a tick. */
  ghost predicate Closer(s: Scheduler, n: Scheduler, e: Event, pid: nat)
    requires Tracked(s) && Tracked(n) && TaskOf(s, pid).Some? && TaskOf(n, pid).Some?
  {
    || (e.TimerTick? && CurrentPid(n) == pid)
    || Budget(n, pid) + (if e.TimerTick? then 1 else 0) <= Budget(s, pid)
  }

  lemma TickCloser(s: Scheduler, e: Event, pid: nat)
    requires Tracked(s) && Roomy(s) && e.TimerTick? && ReadyAt(s, pid)
    ensures Tick(s, e.esp).Resumed? && Tracked(Tick(s, e.esp).state) && TaskOf(Tick(s, e.esp).state, pid).Some?
    ensures Closer(s, Tick(s, e.esp).state, e, pid)
  {
    TickKeeps(s, e.esp);
    TickResumes(s, e.esp);
    if s.tasks[s.current].state.Terminated? {
      BurialWait(s, e.esp, pid);
    } else {
      TickApproaches(s, e.esp, pid);
    }
  }

  lemma MoveApproaches(states: seq<Scheduler>, events: seq<Event>, i: nat, pid: nat)
    requires IsRun(states, events) && Inv(states[0]) && i < |events|
    requires Tracked(states[i]) && Gentle(states[i], events[i])
    requires ReadyAt(states[i], pid) && TaskOf(states[i + 1], pid).Some?
    ensures Tracked(states[i + 1])
    ensures Closer(states[i], states[i + 1], events[i], pid)
  {
    RunKeeps(states, events, i);
    MoveKeeps(states, events, i);
    assert Moves(states, events, i);
    GentleCloser(states[i], states[i + 1], events[i], pid);
  }

  lemma GentleCloser(s: Scheduler, n: Scheduler, e: Event, pid: nat)
    requires Tracked(s) && Roomy(s) && Gentle(s, e) && Step(s, e) == Some(n) && Inv(n)
    requires ReadyAt(s, pid) && TaskOf(n, pid).Some?
    ensures Tracked(n) && Closer(s, n, e, pid)
  {
    match e
    case TimerTick(esp) => TickCloser(s, e, pid);
    case SleepCall(_, _) => SleepApproaches(s, e, pid);
    case KillPid(victim) => KillApproaches(s, victim, pid);
    case _ =>
  }

  function TicksIn(events: seq<Event>, j: nat, k: nat): nat
    requires j <= k <= |events|
  {
    if j == k then 0 else TicksIn(events, j, k - 1) + if events[k - 1].TimerTick? then 1 else 0
  }

  ghost predicate DispatchedIn(states: seq<Scheduler>, events: seq<Event>, j: nat, k: nat, pid: nat)
    requires |states| == |events| + 1 && j <= k <= |events|
  {
    exists i :: j <= i < k && events[i].TimerTick? && CurrentPid(states[i + 1]) == pid
  }

  /** A window of a run in which every move is gentle and `pid` stays Ready. */
  ghost predicate Window(states: seq<Scheduler>, events: seq<Event>, j: nat, k: nat, pid: nat)
    requires |states| == |events| + 1
  {
    && IsRun(states, events) && Inv(states[0]) && j <= k <= |events|
    && states[j].mainTracked
    && (forall i :: j <= i < k ==> Gentle(states[i], events[i]))
    && (forall i :: j <= i <= k ==> ReadyAt(states[i], pid))
  }

  lemma DispatchedByThen(states: seq<Scheduler>, events: seq<Event>, j: nat, k: nat, pid: nat)
    requires |states| == |events| + 1 && j < k <= |events|
    requires DispatchedIn(states, events, j, k - 1, pid) || (events[k - 1].TimerTick? && CurrentPid(states[k]) == pid)
    ensures DispatchedIn(states, events, j, k, pid)
  {
    if DispatchedIn(states, events, j, k - 1, pid) {
      var i :| j <= i < k - 1 && events[i].TimerTick? && CurrentPid(states[i + 1]) == pid;
      assert j <= i < k;
    } else {
      assert CurrentPid(states[(k - 1) + 1]) == pid;
    }
  }

  /** `pid` was dispatched in the window, or has come nearer by a place a tick. */
  ghost predicate Approached(states: seq<Scheduler>, events: seq<Event>, j: nat, k: nat, pid: nat)
    requires |states| == |events| + 1 && j <= k <= |events|
  {
    || DispatchedIn(states, events, j, k, pid)
    || (&& Tracked(states[j]) && TaskOf(states[j], pid).Some?
        && Tracked(states[k]) && TaskOf(states[k], pid).Some?
        && Budget(states[k], pid) + TicksIn(events, j, k) <= Budget(states[j], pid))
  }

  lemma ApproachOnce(states: seq<Scheduler>, events: seq<Event>, j: nat, k: nat, pid: nat)
    requires |states| == |events| + 1 && j < k <= |events|
    requires Approached(states, events, j, k - 1, pid)
    requires Tracked(states[k - 1]) && Tracked(states[k]) && TaskOf(states[k - 1], pid).Some? && TaskOf(states[k], pid).Some?
    requires Closer(states[k - 1], states[k], events[k - 1], pid)
    ensures Approached(states, events, j, k, pid)
  {
    if DispatchedIn(states, events, j, k - 1, pid) || (events[k - 1].TimerTick? && CurrentPid(states[k]) == pid) {
      DispatchedByThen(states, events, j, k, pid);
    }
  }

  lemma {:induction false} WindowApproaches(states: seq<Scheduler>, events: seq<Event>, j: nat, k: nat, pid: nat)
    requires |states| == |events| + 1 && Window(states, events, j, k, pid)
    ensures Tracked(states[k])
    ensures Approached(states, events, j, k, pid)
  {
    assert ReadyAt(states[k], pid);
    if j == k {
      RunKeeps(states, events, k);
    } else {
      WindowApproaches(states, events, j, k - 1, pid);
      assert ReadyAt(states[k - 1], pid) && Gentle(states[k - 1], events[k - 1]);
      MoveApproaches(states, events, k - 1, pid);
      ApproachOnce(states, events, j, k, pid);
    }
  }

  /** Bounded waiting: a task that stays Ready is dispatched within as many ticks as there were tasks at the start. */
  lemma BoundedWaiting(states: seq<Scheduler>, events: seq<Event>, j: nat, k: nat, pid: nat)
    requires |states| == |events| + 1 && Window(states, events, j, k, pid)
    requires TicksIn(events, j, k) >= |states[j].tasks|
    ensures DispatchedIn(states, events, j, k, pid)
  {
    assert ReadyAt(states[k], pid) && ReadyAt(states[j], pid);
    WindowApproaches(states, events, j, k, pid);
  }

  lemma MoveKeepsKernel(states: seq<Scheduler>, events: seq<Event>, i: nat, pid: nat)
    requires IsRun(states, events) && Inv(states[0]) && i < |events|
    requires TaskOf(states[i], pid).Some? && pid != 1
    ensures TaskOf(states[i + 1], pid).Some?
  {
    MoveByPid(states, events, i, pid);
    assert Moves(states, events, i);
    KernelSurvives(states[i], events[i], pid);
  }

  lemma {:induction false} KernelStaysReady(states: seq<Scheduler>, events: seq<Event>, j: nat, k: nat, pid: nat)
    requires IsRun(states, events) && Inv(states[0]) && j <= k <= |events|
    requires TaskOf(states[j], pid).Some? && pid != 1
    ensures ReadyAt(states[k], pid)
  {
    if j == k {
    } else {
      KernelStaysReady(states, events, j, k - 1, pid);
      MoveKeepsKernel(states, events, k - 1, pid);
    }
    RunKeeps(states, events, k);
    KernelIsReady(states[k], pid);
  }

  /** Kernel tasks need no proviso: they are always Ready and nothing removes them. */
  lemma KernelTasksNeverStarve(states: seq<Scheduler>, events: seq<Event>, j: nat, k: nat, pid: nat)
    requires IsRun(states, events) && Inv(states[0]) && j <= k <= |events|
    requires states[j].mainTracked && forall i :: j <= i < k ==> Gentle(states[i], events[i])
    requires TaskOf(states[j], pid).Some? && pid != 1
    requires TicksIn(events, j, k) >= |states[j].tasks|
    ensures DispatchedIn(states, events, j, k, pid)
  {
    forall i | j <= i <= k
      ensures ReadyAt(states[i], pid)
    {
      KernelStaysReady(states, events, j, i, pid);
    }
    BoundedWaiting(states, events, j, k, pid);
  }

  // ---- No kernel task starves, whatever happens ----

  /** The wait, plus one more turn round the list while the user task is still there to be buried. */
  function Patience(s: Scheduler, pid: nat): nat
    requires s.current < |s.tasks| && Find(s.tasks, pid).Some?
  {
    Wait(s, pid) + if TaskOf(s, 1).Some? then |s.tasks| else 0
  }

  /** A tracked state with kernel task `pid` in it. */
  ghost predicate Serves(s: Scheduler, pid: nat) {
    Inv(s) && s.mainTracked && TaskOf(s, pid).Some? && pid != 1
  }

  /** How much more waiting an event may cause: none but for a registration, and a tick shortens it. */
  ghost predicate Bears(s: Scheduler, e: Event, n: Scheduler, pid: nat)
    requires Serves(s, pid) && Serves(n, pid)
  {
    || (e.TimerTick? && CurrentPid(n) == pid)
    || Patience(n, pid) + (if e.TimerTick? then 1 else 0) <= Patience(s, pid) + (if e.RegisterTask? then 2 else 0)
  }

  lemma RegisterBears(s: Scheduler, e: Event, n: Scheduler, pid: nat)
    requires Serves(s, pid) && Serves(n, pid) && e.RegisterTask? && Step(s, e) == Some(n)
    ensures Bears(s, e, n, pid)
  {
    var p := Find(s.tasks, pid).value;
    assert n.tasks[p] == s.tasks[p];
    LookupAt(n.tasks, p);
    if TaskOf(n, 1).Some? {
      var q := Find(n.tasks, 1).value;
      UserIsFirst(n.tasks, n.nextId, q);
      LookupAt(s.tasks, 0);
    }
  }

  lemma SleepBears(s: Scheduler, e: Event, n: Scheduler, pid: nat)
    requires Serves(s, pid) && Serves(n, pid) && e.SleepCall? && Step(s, e) == Some(n)
    ensures Bears(s, e, n, pid)
  {
    SameFind(s.tasks, n.tasks, pid);
    SameFind(s.tasks, n.tasks, 1);
  }

  lemma RemovalBears(s: Scheduler, victim: nat, pid: nat)
    requires Serves(s, pid) && KillVerdict(s, victim).KilledNow? && TaskOf(Kill(s, victim), pid).Some?
    ensures var n := Kill(s, victim);
            n.current < |n.tasks| && Patience(n, pid) <= Patience(s, pid)
  {
    KillApproaches(s, victim, pid);
    NoUserAfterKill(s, victim);
  }

  lemma NoUserAfterKill(s: Scheduler, victim: nat)
    requires Inv(s) && KillVerdict(s, victim).KilledNow?
    ensures TaskOf(Kill(s, victim), 1).None?
  {
    KilledIsFirst(s, victim);
    LookupDropFirst(s.tasks, 1);
  }

  lemma MarkingBears(s: Scheduler, victim: nat, pid: nat)
    requires Serves(s, pid) && KillVerdict(s, victim).MarkedForTermination?
    ensures var n := Kill(s, victim);
            n.current < |n.tasks| && Find(n.tasks, pid).Some? && Patience(n, pid) == Patience(s, pid)
  {
    SameFind(s.tasks, Kill(s, victim).tasks, pid);
    SameFind(s.tasks, Kill(s, victim).tasks, 1);
  }

  lemma KillBears(s: Scheduler, e: Event, n: Scheduler, pid: nat)
    requires Serves(s, pid) && Serves(n, pid) && e.KillPid? && Step(s, e) == Some(n)
    ensures Bears(s, e, n, pid)
  {
    match KillVerdict(s, e.pid)
    case MarkedForTermination => MarkingBears(s, e.pid, pid);
    case KilledNow => RemovalBears(s, e.pid, pid);
    case _ =>
  }

  lemma FaultBears(s: Scheduler, e: Event, n: Scheduler, pid: nat)
    requires Serves(s, pid) && Serves(n, pid) && e.UserFault? && Step(s, e) == Some(n)
    ensures Bears(s, e, n, pid)
  {
    FaultStepByPid(s, e.esp, 1);
    FaultKeeps(s, e.esp);
    FaultUnfolds(s, e.esp);
    LookupAt(s.tasks, s.current);
    assert |n.tasks| == |s.tasks| - 1;
  }

  lemma BurialBears(s: Scheduler, e: Event, n: Scheduler, pid: nat)
    requires Serves(s, pid) && Serves(n, pid) && Roomy(s) && e.TimerTick? && Step(s, e) == Some(n)
    requires s.tasks[s.current].state.Terminated?
    ensures Bears(s, e, n, pid)
  {
    DeadIsUser(s, s.current);
    UserIsFirst(s.tasks, s.nextId, s.current);
    LookupAt(s.tasks, s.current);
    TickStepByPid(s, e.esp, 1);
    BurialTick(s, e.esp);
  }

  lemma RotationKeepsList(s: Scheduler, esp: nat)
    requires Rotating(s) && Roomy(s)
    ensures Tick(s, esp).Resumed?
    ensures |Tick(s, esp).state.tasks| == |s.tasks| && Find(Tick(s, esp).state.tasks, 1) == Find(s.tasks, 1)
  {
    RotatingTick(s, esp);
    TickTasks(s, esp);
    SameFind(s.tasks, Tick(s, esp).state.tasks, 1);
  }

  lemma RotationBears(s: Scheduler, e: Event, n: Scheduler, pid: nat)
    requires Serves(s, pid) && Serves(n, pid) && Roomy(s) && e.TimerTick? && Step(s, e) == Some(n)
    requires !s.tasks[s.current].state.Terminated?
    ensures Bears(s, e, n, pid)
  {
    KernelIsReady(s, pid);
    TickApproaches(s, e.esp, pid);
    RotationKeepsList(s, e.esp);
  }

  lemma TickBears(s: Scheduler, e: Event, n: Scheduler, pid: nat)
    requires Serves(s, pid) && Serves(n, pid) && Roomy(s) && e.TimerTick? && Step(s, e) == Some(n)
    ensures Bears(s, e, n, pid)
  {
    if s.tasks[s.current].state.Terminated? {
      BurialBears(s, e, n, pid);
    } else {
      RotationBears(s, e, n, pid);
    }
  }

  lemma MoveBears(states: seq<Scheduler>, events: seq<Event>, i: nat, pid: nat)
    requires IsRun(states, events) && Inv(states[0]) && i < |events| && Serves(states[i], pid)
    ensures Serves(states[i + 1], pid)
    ensures Bears(states[i], events[i], states[i + 1], pid)
  {
    MoveByPid(states, events, i, 1);
    MoveKeepsKernel(states, events, i, pid);
    assert Moves(states, events, i);
    var s, e, n := states[i], events[i], states[i + 1];
    match e
    case RegisterTask(_, _) => RegisterBears(s, e, n, pid);
    case TimerTick(_) => TickBears(s, e, n, pid);
    case SleepCall(_, _) => SleepBears(s, e, n, pid);
    case KillPid(_) => KillBears(s, e, n, pid);
    case UserFault(_) => FaultBears(s, e, n, pid);
  }

  function RegistrationsIn(events: seq<Event>, j: nat, k: nat): nat
    requires j <= k <= |events|
  {
    if j == k then 0 else RegistrationsIn(events, j, k - 1) + if events[k - 1].RegisterTask? then 1 else 0
  }

  ghost predicate Endured(states: seq<Scheduler>, events: seq<Event>, j: nat, k: nat, pid: nat)
    requires |states| == |events| + 1 && j <= k <= |events|
    requires Serves(states[j], pid) && Serves(states[k], pid)
  {
    || DispatchedIn(states, events, j, k, pid)
    || Patience(states[k], pid) + TicksIn(events, j, k) <= Patience(states[j], pid) + 2 * RegistrationsIn(events, j, k)
  }

  lemma EnduredOnce(states: seq<Scheduler>, events: seq<Event>, j: nat, k: nat, pid: nat)
    requires |states| == |events| + 1 && j < k <= |events|
    requires Serves(states[j], pid) && Serves(states[k - 1], pid) && Serves(states[k], pid)
    requires Endured(states, events, j, k - 1, pid) && Bears(states[k - 1], events[k - 1], states[k], pid)
    ensures Endured(states, events, j, k, pid)
  {
    if DispatchedIn(states, events, j, k - 1, pid) || (events[k - 1].TimerTick? && CurrentPid(states[k]) == pid) {
      DispatchedByThen(states, events, j, k, pid);
    }
  }

  lemma {:induction false} RunEndures(states: seq<Scheduler>, events: seq<Event>, j: nat, k: nat, pid: nat)
    requires IsRun(states, events) && Inv(states[0]) && j <= k <= |events| && Serves(states[j], pid)
    ensures Serves(states[k], pid)
    ensures Endured(states, events, j, k, pid)
  {
    if j == k {
    } else {
      RunEndures(states, events, j, k - 1, pid);
      MoveBears(states, events, k - 1, pid);
      EnduredOnce(states, events, j, k, pid);
    }
  }

  /** In every run whatsoever, with sleeps, kills, faults, burials and registrations anywhere, a kernel task is
      dispatched within twice as many ticks as there were tasks at the start and registrations since. */
  lemma NoKernelTaskStarves(states: seq<Scheduler>, events: seq<Event>, j: nat, k: nat, pid: nat)
    requires IsRun(states, events) && Inv(states[0]) && j <= k <= |events|
    requires states[j].mainTracked && TaskOf(states[j], pid).Some? && pid != 1
    requires TicksIn(events, j, k) >= 2 * (|states[j].tasks| + RegistrationsIn(events, j, k))
    ensures DispatchedIn(states, events, j, k, pid)
  {
    RunKeeps(states, events, j);
    RunEndures(states, events, j, k, pid);
  }
}
