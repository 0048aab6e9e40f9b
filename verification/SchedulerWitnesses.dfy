/**
  Runs that show where two tempting properties of the scheduler fail, and the exact
  condition under which the percentages printed by `top` stay within 100.
*/
module SchedulerWitnesses {
  import opened Wrappers
  import opened Tasks
  import opened TaskLemmas
  import opened SchedulerInvariant
  import opened SchedulerByPid
  import opened SchedulerRuns
  import opened SchedulerAccounting
  import opened SchedulerFairness

  // ---- Ticks with everybody Ready ----

  /** The state after a tick when every task is Ready: the current task charged, the next one current. */
  function Rotated(s: Scheduler, esp: nat): Scheduler
    requires s.current < |s.tasks|
  {
    var t := s.tasks[s.current];
    s.(tickCount := s.tickCount + 1,
       tasks := s.tasks[s.current := t.(stackPtr := esp, runTicks := t.runTicks + 1)],
       current := if s.current + 1 < |s.tasks| then s.current + 1 else 0)
  }

  ghost predicate AllReady(s: Scheduler) {
    && s.mainTracked && s.current < |s.tasks|
    && (forall i :: 0 <= i < |s.tasks| ==> s.tasks[i].state.Ready?)
    && s.tickCount + 1 < U64_LIMIT && s.tasks[s.current].runTicks + 1 < U64_LIMIT
  }

  lemma AllReadySweep(s: Scheduler)
    requires AllReady(s)
    ensures Sweep(Advance(s)) == s.(tickCount := s.tickCount + 1)
  {
    NoWrap(s.tickCount, 1);
    assert Wake(s.tasks, s.tickCount + 1) == s.tasks;
    SweepEnds(Advance(s));
  }

  lemma AllReadyTick(s: Scheduler, esp: nat)
    requires AllReady(s)
    ensures Survives(Tick(s, esp)) == Some(Rotated(s, esp))
  {
    AllReadySweep(s);
    NoWrap(s.tasks[s.current].runTicks, 1);
    AllReadyNext(Rotated(s, esp).tasks, s.current);
  }

  lemma TickTracks(s: Scheduler, esp: nat)
    requires s.tasks != []
    ensures Tick(s, esp) == Tick(TrackMain(s, esp), esp)
  {
  }

  // ---- One turn is not always enough ----

  function Kernel(id: nat, ticks: nat): Task {
    KernelTaskAt(id, "background_thread", 0).(runTicks := ticks)
  }

  function User(ticks: nat): Task {
    PlaceholderMain(0).(runTicks := ticks)
  }

  const REG := RegisterTask("background_thread", 0)
  const TICK := TimerTick(0)

  /** The first `r` of three kernel tasks registered. */
  function Registered(r: nat): Scheduler
    requires r <= 3
  {
    BOOT.(tasks := [Kernel(2, 0), Kernel(3, 0), Kernel(4, 0)][..r], nextId := r + 2)
  }

  /** All three registered and the first `r` of the four tasks charged once, in list order. */
  function Turned(r: nat): Scheduler
    requires 1 <= r <= 4
  {
    Scheduler(
      [User(1), Kernel(2, if r >= 2 then 1 else 0), Kernel(3, if r >= 3 then 1 else 0), Kernel(4, if r >= 4 then 1 else 0)],
      if r < 4 then r else 0, 5, r, true)
  }

  /** The user task, current again after a full turn, has just been killed. */
  function Killed(): Scheduler {
    Scheduler([User(1).(state := Terminated), Kernel(2, 1), Kernel(3, 1), Kernel(4, 1)], 0, 5, 4, true)
  }

  lemma RegisterOne(r: nat)
    requires r < 3
    ensures Step(Registered(r), REG) == Some(Registered(r + 1))
  {
    var all := [Kernel(2, 0), Kernel(3, 0), Kernel(4, 0)];
    assert all[r] == Kernel(r + 2, 0);
    assert all[..r + 1] == all[..r] + [all[r]];
  }

  /** The three registered tasks behind the main thread, which the first tick enters. */
  function Entered(): Scheduler {
    Scheduler([User(0), Kernel(2, 0), Kernel(3, 0), Kernel(4, 0)], 0, 5, 0, true)
  }

  lemma MainEntered()
    ensures TrackMain(Registered(3), 0) == Entered()
  {
  }

  lemma FirstTick()
    ensures Step(Registered(3), TICK) == Some(Turned(1))
  {
    MainEntered();
    TickTracks(Registered(3), 0);
    AllReadyTick(Entered(), 0);
    EnteredTurns();
  }

  lemma EnteredTurns()
    ensures Rotated(Entered(), 0) == Turned(1)
  {
    assert Rotated(Entered(), 0).tasks == Turned(1).tasks;
  }

  lemma TurnedTurns(r: nat)
    requires 1 <= r < 4
    ensures Rotated(Turned(r), 0) == Turned(r + 1)
  {
    assert Rotated(Turned(r), 0).tasks == Turned(r + 1).tasks;
  }

  lemma NextTick(r: nat)
    requires 1 <= r < 4
    ensures Step(Turned(r), TICK) == Some(Turned(r + 1))
  {
    AllReadyTick(Turned(r), 0);
    TurnedTurns(r);
  }

  lemma KillStep()
    ensures Step(Turned(4), KillPid(1)) == Some(Killed())
  {
    assert Find(Turned(4).tasks, 1) == Some(0);
    assert Kill(Turned(4), 1).tasks == Killed().tasks;
  }

  /** The run up to the kill: three registrations, four ticks, and the kill. */
  function TurnState(k: nat): Scheduler
    requires k <= 8
  {
    if k <= 3 then Registered(k) else if k <= 7 then Turned(k - 3) else Killed()
  }

  function TurnEvent(k: nat): Event {
    if k < 3 then REG else if k < 7 then TICK else KillPid(1)
  }

  lemma TurnStep(k: nat)
    requires k < 8
    ensures Step(TurnState(k), TurnEvent(k)) == Some(TurnState(k + 1))
  {
    if k < 3 {
      RegisterOne(k);
    } else if k == 3 {
      FirstTick();
    } else if k < 7 {
      NextTick(k - 3);
    } else {
      KillStep();
    }
  }

  function TurnStates(k: nat): seq<Scheduler>
    requires k <= 8
  {
    seq(k + 1, i requires 0 <= i <= k => TurnState(i))
  }

  function TurnEvents(k: nat): seq<Event> {
    seq(k, i requires 0 <= i => TurnEvent(i))
  }

  /** A run grows by one event at a time. */
  lemma RunGrows(states: seq<Scheduler>, events: seq<Event>, e: Event, n: Scheduler)
    requires IsBootRun(states, events) && |events| + 1 + U32_LIMIT < U64_LIMIT
    requires Step(states[|events|], e) == Some(n)
    ensures IsBootRun(states + [n], events + [e])
  {
    forall i | 0 <= i <= |events|
      ensures Moves(states + [n], events + [e], i)
    {
      if i < |events| {
        assert Moves(states, events, i);
      }
    }
  }

  lemma {:induction false} TurnRun(k: nat)
    requires k <= 8
    ensures IsBootRun(TurnStates(k), TurnEvents(k))
  {
    if k == 0 {
    } else {
      TurnRun(k - 1);
      TurnStep(k - 1);
      RunGrows(TurnStates(k - 1), TurnEvents(k - 1), TurnEvent(k - 1), TurnState(k));
      assert TurnStates(k) == TurnStates(k - 1) + [TurnState(k)];
      assert TurnEvents(k) == TurnEvents(k - 1) + [TurnEvent(k - 1)];
    }
  }

  /** From the first tick on pid 2 sits at index 1, Ready; after that tick it is not current again. */
  lemma SecondTask(k: nat)
    requires 4 <= k <= 8
    ensures ReadyAt(TurnState(k), 2)
    ensures k > 4 ==> CurrentPid(TurnState(k)) != 2
  {
    var s := TurnState(k);
    assert s.tasks[0].id == 1 && s.tasks[1].id == 2;
    assert Find(s.tasks, 2) == Some(1);
  }

  lemma KilledTick()
    ensures Tick(Killed(), 0).Resumed? && CurrentPid(Tick(Killed(), 0).state) == 3
    ensures ReadyAt(Tick(Killed(), 0).state, 2)
  {
    TurnRun(8);
    RunKeeps(TurnStates(8), TurnEvents(8), 8);
    BurialTick(Killed(), 0);
    TickKeeps(Killed(), 0);
    TickResumes(Killed(), 0);
    var n := Tick(Killed(), 0).state;
    assert n.tasks[0].id == 2;
    LookupAt(n.tasks, 0);
    KernelIsReady(n, 2);
  }

  lemma {:induction false} TurnTicks(k: nat)
    requires 4 <= k <= 8
    ensures TicksIn(TurnEvents(8) + [TICK], 4, k) == if k <= 7 then k - 4 else 3
  {
    if k == 4 {
    } else {
      TurnTicks(k - 1);
    }
  }

  /** The run with its last tick: pid 2 is Ready in every state and dispatched by none of the events. */
  lemma TurnPassesOver(states: seq<Scheduler>, events: seq<Event>)
    requires states == TurnStates(8) + [Tick(Killed(), 0).state] && events == TurnEvents(8) + [TICK]
    ensures forall i :: 4 <= i <= 9 ==> ReadyAt(states[i], 2)
    ensures !DispatchedIn(states, events, 4, 9, 2)
  {
    KilledTick();
    forall i | 4 <= i <= 9
      ensures ReadyAt(states[i], 2) && (i > 4 ==> CurrentPid(states[i]) != 2)
    {
      if i <= 8 {
        SecondTask(i);
        assert states[i] == TurnState(i);
      }
    }
  }

  /** With a burial in between, one turn need not be enough: here pid 2 stays Ready and is current at the start, four
      tasks are listed, and the four ticks that follow dispatch pids 3, 4, 1 and 3. */
  lemma OneTurnIsNotAlwaysEnough() returns (states: seq<Scheduler>, events: seq<Event>)
    ensures IsBootRun(states, events) && |events| == 9
    ensures states[4].mainTracked && forall i :: 4 <= i <= 9 ==> ReadyAt(states[i], 2)
    ensures TicksIn(events, 4, 9) == |states[4].tasks| == 4
    ensures !DispatchedIn(states, events, 4, 9, 2)
  {
    states, events := TurnStates(8) + [Tick(Killed(), 0).state], TurnEvents(8) + [TICK];
    assert IsBootRun(states, events) by {
      TurnRun(8);
      KilledTick();
      RunGrows(TurnStates(8), TurnEvents(8), TICK, Tick(Killed(), 0).state);
    }
    TurnPassesOver(states, events);
    TurnTicks(8);
    assert states[4] == Turned(1);
  }

  // ---- When the percentages of `top` stay within 100 ----

  /** One kernel task alone after the user task faulted at once, charged every tick since. */
  function Lone(t: nat): Scheduler {
    Scheduler([Kernel(2, t)], 0, 3, t, true)
  }

  function LoneStates(n: nat): seq<Scheduler> {
    [BOOT, Registered(1)] + seq(n + 1, i requires 0 <= i => Lone(i))
  }

  function LoneEvents(n: nat): seq<Event> {
    [REG, UserFault(0)] + seq(n, _ => TICK)
  }

  lemma LoneFault()
    ensures Step(Registered(1), UserFault(0)) == Some(Lone(0))
  {
    var m := TrackMain(Registered(1), 0);
    assert m == Scheduler([User(0), Kernel(2, 0)], 0, 3, 0, true);
    assert RemoveAt(m.tasks, 0) == [Kernel(2, 0)];
    assert DropCurrent(m) == Lone(0);
    assert Wake(Lone(0).tasks, 0) == Lone(0).tasks;
    SweepEnds(Lone(0));
    AllReadyNext(Lone(0).tasks, 0);
  }

  lemma LoneTick(t: nat)
    requires t + 1 < U64_LIMIT
    ensures Step(Lone(t), TICK) == Some(Lone(t + 1))
  {
    AllReadyTick(Lone(t), 0);
    assert Rotated(Lone(t), 0).tasks == Lone(t + 1).tasks;
  }

  lemma {:induction false} LoneRun(n: nat)
    requires n + 2 + U32_LIMIT < U64_LIMIT
    ensures IsBootRun(LoneStates(n), LoneEvents(n))
  {
    if n == 0 {
      LoneStart();
    } else {
      LoneRun(n - 1);
      LoneTick(n - 1);
      RunGrows(LoneStates(n - 1), LoneEvents(n - 1), TICK, Lone(n));
      assert LoneStates(n) == LoneStates(n - 1) + [Lone(n)];
      assert LoneEvents(n) == LoneEvents(n - 1) + [TICK];
    }
  }

  lemma LoneStart()
    ensures IsBootRun(LoneStates(0), LoneEvents(0))
  {
    TurnRun(1);
    LoneFault();
    assert TurnStates(1) == [BOOT, Registered(1)] && TurnEvents(1) == [REG];
    RunGrows(TurnStates(1), TurnEvents(1), UserFault(0), Lone(0));
    assert LoneStates(0) == TurnStates(1) + [Lone(0)] && LoneEvents(0) == TurnEvents(1) + [UserFault(0)];
  }

  lemma LonePercent(t: nat, u: nat)
    requires t > 0 && 100 * u < U64_LIMIT
    ensures PercentSum(Snapshot(Lone(u)), t) == 100 * u / t
  {
    var shot := Snapshot(Lone(u));
    assert shot == [IDLE, Describe(Kernel(2, u), true)];
    assert shot[1..] == [shot[1]] && shot[1..][1..] == [];
    assert PercentSum(shot[1..], t) == CpuPercent(u, t);
    assert 0 / t == 0;
  }

  lemma QuotientAtLeast(x: nat, t: nat, q: nat)
    requires t > 0 && x >= q * t
    ensures x / t >= q
  {
    assert x == t * (x / t) + x % t;
    MultipleGrows(t, q - x / t);
    assert t * (q - x / t) == q * t - t * (x / t);
  }

  /** Whenever `top` reads tick count `t` and then a listing taken at tick count `u`, its percentages sum to at most 100. */
  ghost predicate TopStaysWithin(t: nat, u: nat) {
    forall states: seq<Scheduler>, events: seq<Event>, j: nat, k: nat {:trigger states[j], states[k], IsBootRun(states, events)} ::
      IsBootRun(states, events) && j <= k <= |events|
      && StatsOf(states[j]).totalTicks == t && StatsOf(states[k]).totalTicks == u ==>
        PercentSum(Snapshot(states[k]), t) <= 100
  }

  /** Exactly when they do: while the listing is taken less than one hundredth of the time later.  (Past 2^64 / 100
      ticks the saturating product would start to clip.) */
  lemma TopIsExact(t: nat, u: nat)
    requires 1 <= t <= u && 100 * u < U64_LIMIT
    ensures TopStaysWithin(t, u) <==> 100 * u < 101 * t
  {
    if 100 * u < 101 * t {
      forall states: seq<Scheduler>, events: seq<Event>, j: nat, k: nat
        | IsBootRun(states, events) && j <= k <= |events| && states[j].tickCount == t && states[k].tickCount == u
        ensures PercentSum(Snapshot(states[k]), t) <= 100
      {
        TopPercentages(states, events, j, k);
      }
    } else {
      LoneRun(u);
      LonePercent(t, u);
      QuotientAtLeast(100 * u, t, 101);
      var states := LoneStates(u);
      assert states[t + 2] == Lone(t) && states[u + 2] == Lone(u);
      assert IsBootRun(states, LoneEvents(u)) && PercentSum(Snapshot(states[u + 2]), states[t + 2].tickCount) > 100;
    }
  }

  /** One tick between the two reads, at the very start, makes `top` print 200 percent. */
  lemma TopCanExceedAHundred()
    ensures IsBootRun(LoneStates(2), LoneEvents(2))
    ensures StatsOf(LoneStates(2)[3]).totalTicks == 1 && PercentSum(Snapshot(LoneStates(2)[4]), 1) == 200
  {
    LoneRun(2);
    LonePercent(1, 2);
    assert LoneStates(2)[1 + 2] == Lone(1) && LoneStates(2)[2 + 2] == Lone(2);
  }
}
