/**
  Round robin, exactly: over ticks, sleeps and kills of tasks that are not current, two
  tasks that stay Ready take turns.  Which of the two comes first going round from the
  current task accounts for the whole difference between their numbers of dispatches.
*/
module SchedulerRoundRobin {
  import opened Wrappers
  import opened Tasks
  import opened TaskLemmas
  import opened SchedulerInvariant
  import opened SchedulerByPid
  import opened SchedulerRuns
  import opened SchedulerAccounting
  import opened SchedulerFairness

  /** 1 if `p` is nearer than `q` going round from the current task, else 0. */
  function Nearer(s: Scheduler, p: nat, q: nat): nat
    requires s.current < |s.tasks| && Find(s.tasks, p).Some? && Find(s.tasks, q).Some?
  {
    if Wait(s, p) < Wait(s, q) then 1 else 0
  }

  /** When `pid` has its turn if everybody is Ready: at its distance from the current task, or last if it is passed over
      because it is right behind a current task about to be buried. */
  function Turn(s: Scheduler, pid: nat): nat
    requires s.current < |s.tasks| && Find(s.tasks, pid).Some?
  {
    if s.tasks[s.current].state.Terminated? && Find(s.tasks, pid) == Some(1) then |s.tasks| else Wait(s, pid)
  }

  /** 1 if `p` has its turn before `q`, else 0. */
  function Ahead(s: Scheduler, p: nat, q: nat): nat
    requires s.current < |s.tasks| && Find(s.tasks, p).Some? && Find(s.tasks, q).Some?
  {
    if Turn(s, p) < Turn(s, q) then 1 else 0
  }

  function Bit(b: bool): nat {
    if b then 1 else 0
  }

  /** Turning to the nearest of the Ready places, `x` and `y` among them: whichever is reached goes last, and otherwise
      their order stays. */
  lemma TurnKeepsOrder(n: nat, c: nat, i: nat, x: nat, y: nat)
    requires c < n && i < n && x < n && y < n && x != y
    requires Distance(n, c, i) <= Distance(n, c, x) && Distance(n, c, i) <= Distance(n, c, y)
    ensures Bit(i == x) + Bit(Distance(n, i, x) < Distance(n, i, y))
         == Bit(i == y) + Bit(Distance(n, c, x) < Distance(n, c, y))
  {
    if i == x {
      TurnShortens(n, c, i, y);
    } else if i == y {
      TurnShortens(n, c, i, x);
    } else {
      TurnShortens(n, c, i, x);
      TurnShortens(n, c, i, y);
    }
  }

  lemma FoundApart(tasks: seq<Task>, p: nat, q: nat)
    requires Find(tasks, p).Some? && Find(tasks, q).Some? && p != q
    ensures Find(tasks, p).value != Find(tasks, q).value
  {
  }

  lemma CurrentFound(tasks: seq<Task>, i: nat, p: nat)
    requires Ordered(tasks) && i < |tasks| && Find(tasks, p).Some?
    ensures tasks[i].id == p <==> i == Find(tasks, p).value
  {
    LookupAt(tasks, i);
  }

  /** The order of two pids in a state, told by their places. */
  lemma NearerByPlace(s: Scheduler, p: nat, q: nat)
    requires s.current < |s.tasks| && Find(s.tasks, p).Some? && Find(s.tasks, q).Some?
    ensures var n, c := |s.tasks|, s.current;
            Nearer(s, p, q) == Bit(Distance(n, c, Find(s.tasks, p).value) < Distance(n, c, Find(s.tasks, q).value))
  {
  }

  /** Dispatching from a list in which `p` and `q` are Ready. */
  lemma DispatchKeepsOrder(t: Scheduler, n: Scheduler, p: nat, q: nat)
    requires t.current < |t.tasks| && Ordered(t.tasks) && p != q
    requires Find(t.tasks, p).Some? && t.tasks[Find(t.tasks, p).value].state.Ready?
    requires Find(t.tasks, q).Some? && t.tasks[Find(t.tasks, q).value].state.Ready?
    requires n.tasks == t.tasks && NextReady(t.tasks, t.current) == Some(n.current)
    ensures Bit(n.tasks[n.current].id == p) + Nearer(n, p, q) == Bit(n.tasks[n.current].id == q) + Nearer(t, p, q)
  {
    NextReadyIsNearest(t.tasks, t.current);
    FoundApart(t.tasks, p, q);
    CurrentFound(t.tasks, n.current, p);
    CurrentFound(t.tasks, n.current, q);
    NearerByPlace(t, p, q);
    NearerByPlace(n, p, q);
    TurnKeepsOrder(|t.tasks|, t.current, n.current, Find(t.tasks, p).value, Find(t.tasks, q).value);
  }

  /** One move: who was dispatched and who comes first now, against who came first before. */
  ghost predicate Balanced(s: Scheduler, n: Scheduler, e: Event, p: nat, q: nat)
    requires Tracked(s) && Tracked(n)
    requires TaskOf(s, p).Some? && TaskOf(s, q).Some? && TaskOf(n, p).Some? && TaskOf(n, q).Some?
  {
    Bit(e.TimerTick? && CurrentPid(n) == p) + Ahead(n, p, q) == Bit(e.TimerTick? && CurrentPid(n) == q) + Ahead(s, p, q)
  }

  lemma SettledPlaces(s: Scheduler, esp: nat, pid: nat)
    requires Rotating(s) && Roomy(s) && ReadyAt(s, pid)
    ensures var t := Settle(Ticking(s, esp), esp);
            && t.current == s.current < |t.tasks| == |s.tasks|
            && Find(t.tasks, pid) == Find(s.tasks, pid) && t.tasks[Find(t.tasks, pid).value].state.Ready?
  {
    RotatingTick(s, esp);
    SameFind(s.tasks, Settle(Ticking(s, esp), esp).tasks, pid);
  }

  lemma TickDispatches(s: Scheduler, esp: nat)
    requires Rotating(s) && Roomy(s)
    ensures Tick(s, esp).Resumed? && Rotating(Tick(s, esp).state)
    ensures Ticking(s, esp).current < |Ticking(s, esp).tasks|
    ensures var t, n := Settle(Ticking(s, esp), esp), Tick(s, esp).state;
            && t.current < |t.tasks| && Ordered(t.tasks)
            && n.tasks == t.tasks && NextReady(t.tasks, t.current) == Some(n.current)
  {
    RotatingTick(s, esp);
    TickSettles(s, esp);
    TickResumes(s, esp);
  }

  lemma RotatingBalances(s: Scheduler, e: Event, p: nat, q: nat)
    requires Rotating(s) && Roomy(s) && e.TimerTick? && ReadyAt(s, p) && ReadyAt(s, q) && p != q
    ensures Tick(s, e.esp).Resumed?
    ensures var n := Tick(s, e.esp).state;
            Rotating(n) && TaskOf(n, p).Some? && TaskOf(n, q).Some? && Balanced(s, n, e, p, q)
  {
    SettledPlaces(s, e.esp, p);
    SettledPlaces(s, e.esp, q);
    TickDispatches(s, e.esp);
    DispatchKeepsOrder(Settle(Ticking(s, e.esp), e.esp), Tick(s, e.esp).state, p, q);
  }

  /** Places around a burial: everybody moves down one, and the second of those left is dispatched. */
  lemma BurialKeepsOrder(m: nat, x: nat, y: nat)
    requires 1 <= x <= m && 1 <= y <= m && x != y
    ensures Bit(x == 2) + Bit(Distance(m, 1, x - 1) < Distance(m, 1, y - 1))
         == Bit(y == 2) + Bit((if x == 1 then m + 1 else x) < (if y == 1 then m + 1 else y))
  {
  }

  /** The same for pids, in the states before and after. */
  lemma BurialTurns(s: Scheduler, n: Scheduler, p: nat, q: nat)
    requires s.current == 0 && |s.tasks| > 1 && s.tasks[0].state.Terminated? && Ordered(s.tasks) && p != q
    requires Find(s.tasks, p).Some? && Find(s.tasks, p).value >= 1 && Find(s.tasks, q).Some? && Find(s.tasks, q).value >= 1
    requires |n.tasks| == |s.tasks| - 1 && n.current == (if |s.tasks| > 2 then 1 else 0)
    requires n.tasks[n.current].id == s.tasks[n.current + 1].id && !n.tasks[n.current].state.Terminated?
    requires Find(n.tasks, p) == Some(Find(s.tasks, p).value - 1) && Find(n.tasks, q) == Some(Find(s.tasks, q).value - 1)
    ensures Bit(n.tasks[n.current].id == p) + Ahead(n, p, q) == Bit(n.tasks[n.current].id == q) + Ahead(s, p, q)
  {
    FoundApart(s.tasks, p, q);
    CurrentFound(s.tasks, 2, p);
    CurrentFound(s.tasks, 2, q);
    BurialKeepsOrder(|s.tasks| - 1, Find(s.tasks, p).value, Find(s.tasks, q).value);
  }

  lemma BurialBalances(s: Scheduler, e: Event, p: nat, q: nat)
    requires Tracked(s) && Roomy(s) && s.tasks[s.current].state.Terminated?
    requires e.TimerTick? && ReadyAt(s, p) && ReadyAt(s, q) && p != q
    ensures Tick(s, e.esp).Resumed?
    ensures var n := Tick(s, e.esp).state;
            Tracked(n) && TaskOf(n, p).Some? && TaskOf(n, q).Some? && Balanced(s, n, e, p, q)
  {
    TickKeeps(s, e.esp);
    TickResumes(s, e.esp);
    BurialTick(s, e.esp);
    BurialWait(s, e.esp, p);
    BurialWait(s, e.esp, q);
    BurialTurns(s, Tick(s, e.esp).state, p, q);
  }

  lemma TickBalances(s: Scheduler, e: Event, p: nat, q: nat)
    requires Tracked(s) && Roomy(s) && e.TimerTick? && ReadyAt(s, p) && ReadyAt(s, q) && p != q
    ensures Tick(s, e.esp).Resumed?
    ensures var n := Tick(s, e.esp).state;
            Tracked(n) && TaskOf(n, p).Some? && TaskOf(n, q).Some? && Balanced(s, n, e, p, q)
  {
    if s.tasks[s.current].state.Terminated? {
      BurialBalances(s, e, p, q);
    } else {
      RotatingBalances(s, e, p, q);
    }
  }

  /** Removing the first task, neither current nor one of the two, keeps their order. */
  lemma RemovalKeepsOrder(s: Scheduler, n: Scheduler, p: nat, q: nat)
    requires 0 < s.current < |s.tasks| && n.tasks == s.tasks[1..] && n.current == s.current - 1
    requires Find(s.tasks, p).Some? && Find(s.tasks, q).Some? && s.tasks[0].id != p && s.tasks[0].id != q && p != q
    ensures Find(n.tasks, p).Some? && Find(n.tasks, q).Some? && Nearer(n, p, q) == Nearer(s, p, q)
  {
    MovedDown(s.tasks, n.tasks, p);
    MovedDown(s.tasks, n.tasks, q);
    FoundApart(s.tasks, p, q);
  }

  lemma KillKeepsOrder(s: Scheduler, victim: nat, p: nat, q: nat)
    requires Tracked(s) && KillVerdict(s, victim).KilledNow? && p != q
    requires TaskOf(s, p).Some? && TaskOf(s, q).Some?
    requires TaskOf(Kill(s, victim), p).Some? && TaskOf(Kill(s, victim), q).Some?
    ensures Kill(s, victim).current < |Kill(s, victim).tasks| && Nearer(Kill(s, victim), p, q) == Nearer(s, p, q)
  {
    KilledByPid(s, victim, p);
    KilledByPid(s, victim, q);
    KilledIsFirst(s, victim);
    RemovalKeepsOrder(s, s.(tasks := s.tasks[1..], current := s.current - 1), p, q);
  }

  /** Nobody is taken out of the list while the current task waits to be buried. */
  lemma KilledWhileRotating(s: Scheduler, victim: nat)
    requires Inv(s) && KillVerdict(s, victim).KilledNow?
    ensures var n := Kill(s, victim);
            && s.current < |s.tasks| && n.current < |n.tasks|
            && !s.tasks[s.current].state.Terminated? && n.tasks[n.current] == s.tasks[s.current]
  {
    KilledIsFirst(s, victim);
    if s.tasks[s.current].state.Terminated? {
      DeadIsUser(s, s.current);
      UserIsFirst(s.tasks, s.nextId, s.current);
    }
  }

  lemma KillBalances(s: Scheduler, e: Event, p: nat, q: nat)
    requires Tracked(s) && e.KillPid? && !KillVerdict(s, e.pid).MarkedForTermination? && p != q
    requires TaskOf(s, p).Some? && TaskOf(s, q).Some?
    requires TaskOf(Kill(s, e.pid), p).Some? && TaskOf(Kill(s, e.pid), q).Some?
    ensures Tracked(Kill(s, e.pid)) && Balanced(s, Kill(s, e.pid), e, p, q)
  {
    KillKeeps(s, e.pid);
    if KillVerdict(s, e.pid).KilledNow? {
      KillKeepsOrder(s, e.pid, p, q);
      KilledWhileRotating(s, e.pid);
    } else {
      SparedByPid(s, e.pid);
    }
  }

  lemma SleepBalances(s: Scheduler, e: Event, p: nat, q: nat)
    requires Tracked(s) && Roomy(s) && e.SleepCall? && TaskOf(s, p).Some? && TaskOf(s, q).Some?
    ensures var n := Sleep(s, e.esp, e.ticks);
            Tracked(n) && TaskOf(n, p).Some? && TaskOf(n, q).Some? && Balanced(s, n, e, p, q)
  {
    SleepKeeps(s, e.esp, e.ticks);
    SleepKeepsTurn(s, e, p);
    SleepKeepsTurn(s, e, q);
  }

  lemma SleepKeepsTurn(s: Scheduler, e: Event, pid: nat)
    requires Tracked(s) && e.SleepCall? && TaskOf(s, pid).Some?
    ensures var n := Sleep(s, e.esp, e.ticks);
            n.current < |n.tasks| && Find(n.tasks, pid).Some? && Turn(n, pid) == Turn(s, pid)
  {
    SleepApproaches(s, e, pid);
    SameFind(s.tasks, Sleep(s, e.esp, e.ticks).tasks, pid);
  }

  lemma GentleBalances(s: Scheduler, n: Scheduler, e: Event, p: nat, q: nat)
    requires Tracked(s) && Roomy(s) && Gentle(s, e) && Step(s, e) == Some(n) && p != q
    requires ReadyAt(s, p) && ReadyAt(s, q) && TaskOf(n, p).Some? && TaskOf(n, q).Some?
    ensures Tracked(n) && Balanced(s, n, e, p, q)
  {
    match e
    case TimerTick(_) => TickBalances(s, e, p, q);
    case SleepCall(_, _) => SleepBalances(s, e, p, q);
    case KillPid(_) => KillBalances(s, e, p, q);
    case _ =>
  }

  lemma MoveBalances(states: seq<Scheduler>, events: seq<Event>, i: nat, p: nat, q: nat)
    requires IsRun(states, events) && Inv(states[0]) && i < |events|
    requires Tracked(states[i]) && Gentle(states[i], events[i]) && p != q
    requires ReadyAt(states[i], p) && ReadyAt(states[i], q)
    requires TaskOf(states[i + 1], p).Some? && TaskOf(states[i + 1], q).Some?
    ensures Tracked(states[i + 1]) && Balanced(states[i], states[i + 1], events[i], p, q)
  {
    RunKeeps(states, events, i);
    assert Moves(states, events, i);
    GentleBalances(states[i], states[i + 1], events[i], p, q);
  }

  /** How many ticks in the window dispatched `pid`. */
  function Dispatches(states: seq<Scheduler>, events: seq<Event>, j: nat, k: nat, pid: nat): nat
    requires |states| == |events| + 1 && j <= k <= |events|
  {
    if j == k then 0
    else Dispatches(states, events, j, k - 1, pid) + Bit(events[k - 1].TimerTick? && CurrentPid(states[k]) == pid)
  }

  /** The difference between the numbers of dispatches is the change in which of the two has its turn first. */
  ghost predicate Shared(states: seq<Scheduler>, events: seq<Event>, j: nat, k: nat, p: nat, q: nat)
    requires |states| == |events| + 1 && j <= k <= |events|
  {
    && Tracked(states[j]) && TaskOf(states[j], p).Some? && TaskOf(states[j], q).Some?
    && Tracked(states[k]) && TaskOf(states[k], p).Some? && TaskOf(states[k], q).Some?
    && Dispatches(states, events, j, k, p) + Ahead(states[k], p, q)
    == Dispatches(states, events, j, k, q) + Ahead(states[j], p, q)
  }

  lemma SharedGrows(states: seq<Scheduler>, events: seq<Event>, j: nat, k: nat, p: nat, q: nat)
    requires |states| == |events| + 1 && j < k <= |events| && Shared(states, events, j, k - 1, p, q)
    requires Tracked(states[k]) && TaskOf(states[k], p).Some? && TaskOf(states[k], q).Some?
    requires Balanced(states[k - 1], states[k], events[k - 1], p, q)
    ensures Shared(states, events, j, k, p, q)
  {
  }

  lemma SharedMoves(states: seq<Scheduler>, events: seq<Event>, j: nat, k: nat, p: nat, q: nat)
    requires IsRun(states, events) && Inv(states[0]) && j < k <= |events| && p != q
    requires Shared(states, events, j, k - 1, p, q) && Gentle(states[k - 1], events[k - 1])
    requires ReadyAt(states[k - 1], p) && ReadyAt(states[k - 1], q)
    requires TaskOf(states[k], p).Some? && TaskOf(states[k], q).Some?
    ensures Shared(states, events, j, k, p, q)
  {
    MoveBalances(states, events, k - 1, p, q);
    SharedGrows(states, events, j, k, p, q);
  }

  lemma SharedStarts(states: seq<Scheduler>, events: seq<Event>, j: nat, p: nat, q: nat)
    requires |states| == |events| + 1
    requires Window(states, events, j, j, p) && Window(states, events, j, j, q)
    ensures Shared(states, events, j, j, p, q)
  {
    RunKeeps(states, events, j);
  }

  lemma WindowShrinks(states: seq<Scheduler>, events: seq<Event>, j: nat, k: nat, pid: nat)
    requires |states| == |events| + 1 && j < k && Window(states, events, j, k, pid)
    ensures Window(states, events, j, k - 1, pid) && Gentle(states[k - 1], events[k - 1])
    ensures ReadyAt(states[k - 1], pid) && ReadyAt(states[k], pid)
  {
  }

  lemma {:induction false} WindowShares(states: seq<Scheduler>, events: seq<Event>, j: nat, k: nat, p: nat, q: nat)
    requires |states| == |events| + 1 && p != q
    requires Window(states, events, j, k, p) && Window(states, events, j, k, q)
    ensures Shared(states, events, j, k, p, q)
    decreases k
  {
    if j == k {
      SharedStarts(states, events, j, p, q);
    } else {
      WindowShrinks(states, events, j, k, p);
      WindowShrinks(states, events, j, k, q);
      WindowShares(states, events, j, k - 1, p, q);
      SharedMoves(states, events, j, k, p, q);
    }
  }

  /** Two tasks that stay Ready take turns: their numbers of dispatches differ by at most one. */
  lemma TurnsAreShared(states: seq<Scheduler>, events: seq<Event>, j: nat, k: nat, p: nat, q: nat)
    requires |states| == |events| + 1 && p != q
    requires Window(states, events, j, k, p) && Window(states, events, j, k, q)
    ensures Shared(states, events, j, k, p, q)
    ensures -1 <= Dispatches(states, events, j, k, p) - Dispatches(states, events, j, k, q) <= 1
  {
    WindowShares(states, events, j, k, p, q);
  }
}
