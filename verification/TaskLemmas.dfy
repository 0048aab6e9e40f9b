/** Facts about the passes over the task list, from every state. */
module TaskLemmas {
  import opened Wrappers
  import opened Tasks

  lemma {:induction false} SurvivorsConcat(a: seq<Task>, b: seq<Task>)
    ensures Survivors(a + b) == Survivors(a) + Survivors(b)
  {
    if a == [] {
      assert a + b == b;
    } else {
      assert (a + b)[1..] == a[1..] + b;
      SurvivorsConcat(a[1..], b);
    }
  }

  lemma {:induction false} SurvivorsAll(a: seq<Task>)
    requires forall i :: 0 <= i < |a| ==> !a[i].state.Terminated?
    ensures Survivors(a) == a
  {
    if a == [] {
    } else {
      SurvivorsAll(a[1..]);
    }
  }

  lemma {:induction false} SurvivorsLive(a: seq<Task>)
    ensures forall i :: 0 <= i < |Survivors(a)| ==> !Survivors(a)[i].state.Terminated?
  {
    if a == [] {
    } else {
      SurvivorsLive(a[1..]);
    }
  }

  /** After a sweep nobody but the current task is Terminated. */
  lemma SweepCleans(s: Scheduler)
    ensures var r := Sweep(s);
            forall i :: 0 <= i < |r.tasks| && i != r.current ==> !r.tasks[i].state.Terminated?
  {
    if s.current < |s.tasks| {
      SurvivorsLive(s.tasks[..s.current]);
      SurvivorsLive(s.tasks[s.current + 1..]);
    } else {
      SurvivorsLive(s.tasks);
    }
  }

  lemma SurvivorsSkip(a: seq<Task>, i: nat)
    requires i < |a| && a[i].state.Terminated?
    ensures Survivors(RemoveAt(a, i)) == Survivors(a)
  {
    assert a == a[..i] + ([a[i]] + a[i + 1..]);
    SurvivorsConcat(a[..i], [a[i]] + a[i + 1..]);
    SurvivorsConcat(a[..i], a[i + 1..]);
    assert ([a[i]] + a[i + 1..])[1..] == a[i + 1..];
  }

  /** Removing one Terminated task that is not current, and shifting the index, leaves the sweep's result alone. */
  lemma SweepSkips(s: Scheduler, i: nat)
    requires i < |s.tasks| && i != s.current && s.tasks[i].state.Terminated?
    ensures Sweep(s.(tasks := RemoveAt(s.tasks, i), current := if i < s.current then s.current - 1 else s.current))
         == Sweep(s)
  {
    var t, c := s.tasks, s.current;
    var t' := RemoveAt(t, i);
    if c >= |t| {
      SurvivorsSkip(t, i);
    } else if i < c {
      assert t'[..c - 1] == RemoveAt(t[..c], i) && t'[c..] == t[c + 1..];
      SurvivorsSkip(t[..c], i);
    } else {
      assert t'[..c] == t[..c] && t'[c + 1..] == RemoveAt(t[c + 1..], i - c - 1);
      SurvivorsSkip(t[c + 1..], i - c - 1);
    }
  }

  /** No task before `idx` is Terminated, the current one apart. */
  ghost predicate SweptTo(tasks: seq<Task>, current: nat, idx: nat) {
    idx <= |tasks| && forall i :: 0 <= i < idx && i != current ==> !tasks[i].state.Terminated?
  }

  lemma SweptSkips(tasks: seq<Task>, current: nat, idx: nat)
    requires idx < |tasks| && SweptTo(tasks, current, idx)
    ensures SweptTo(RemoveAt(tasks, idx), if idx < current then current - 1 else current, idx)
  {
  }

  lemma SweepEndsInRange(s: Scheduler)
    requires s.current < |s.tasks|
    requires forall i :: 0 <= i < |s.tasks| && i != s.current ==> !s.tasks[i].state.Terminated?
    ensures Sweep(s) == s
  {
    var t, c := s.tasks, s.current;
    SurvivorsAll(t[..c]);
    SurvivorsAll(t[c + 1..]);
    assert t[..c] + [t[c]] + t[c + 1..] == t;
  }

  /** With no Terminated task left besides the current one, the sweep only repairs an index out of range. */
  lemma SweepEnds(s: Scheduler)
    requires forall i :: 0 <= i < |s.tasks| && i != s.current ==> !s.tasks[i].state.Terminated?
    ensures Sweep(s) == s.(current := if s.current >= |s.tasks| > 0 then 0 else s.current)
  {
    if s.current < |s.tasks| {
      SweepEndsInRange(s);
    } else {
      SurvivorsAll(s.tasks);
    }
  }

  /** From every state: a kill of another task removes that one task and leaves the current task current;
      any other kill leaves the list's length and the index alone. */
  lemma KillKeepsCurrent(s: Scheduler, pid: nat)
    requires s.current < |s.tasks|
    ensures var r := Kill(s, pid);
            && r.current < |r.tasks|
            && r.tasks[r.current].id == s.tasks[s.current].id
            && (!KillVerdict(s, pid).MarkedForTermination? ==> r.tasks[r.current] == s.tasks[s.current])
            && (if KillVerdict(s, pid).KilledNow? then r.tasks == RemoveAt(s.tasks, Find(s.tasks, pid).value)
                else |r.tasks| == |s.tasks| && r.current == s.current)
  {
  }

  /** The index `offset` places after `start`, going round a list of length `n`. */
  function Wrapped(start: nat, offset: nat, n: nat): nat
    requires start < n && offset <= n
  {
    if start + offset < n then start + offset else start + offset - n
  }

  lemma WrappedIsMod(start: nat, offset: nat, n: nat)
    requires start < n && offset <= n
    ensures (start + offset) % n == Wrapped(start, offset, n)
  {
    if start + offset >= n {
      ModOnce(start + offset, n);
    } else {
      ModSmall(start + offset, n);
    }
  }

  /** The Ready index reached with the fewest steps round the list is the one `NextReady` names. */
  lemma NearestIsNext(tasks: seq<Task>, start: nat, offset: nat)
    requires start < |tasks| && 1 <= offset <= |tasks|
    requires tasks[Wrapped(start, offset, |tasks|)].state.Ready?
    requires forall k :: 1 <= k < offset ==> !tasks[Wrapped(start, k, |tasks|)].state.Ready?
    ensures NextReady(tasks, start) == Some(Wrapped(start, offset, |tasks|))
  {
    var n := |tasks|;
    forall i | start < i < n && i - start < offset
      ensures !tasks[i].state.Ready?
    {
      assert Wrapped(start, i - start, n) == i;
    }
    forall i | 0 <= i <= start && i + n - start < offset
      ensures !tasks[i].state.Ready?
    {
      assert Wrapped(start, i + n - start, n) == i;
    }
  }

  lemma NoneIsNext(tasks: seq<Task>, start: nat)
    requires start < |tasks|
    requires forall k :: 1 <= k <= |tasks| ==> !tasks[Wrapped(start, k, |tasks|)].state.Ready?
    ensures NextReady(tasks, start) == None
    ensures forall i :: 0 <= i < |tasks| ==> !tasks[i].state.Ready?
  {
    var n := |tasks|;
    forall i | 0 <= i < n
      ensures !tasks[i].state.Ready?
    {
      assert Wrapped(start, if i > start then i - start else i + n - start, n) == i;
    }
  }

  lemma ScanFindsAny(tasks: seq<Task>, start: nat)
    ensures ScanFrom(tasks, start).None? <==> forall i :: 0 <= i < |tasks| ==> !tasks[i].state.Ready?
  {
  }

  lemma ScanInRange(tasks: seq<Task>, start: nat)
    requires start < |tasks|
    ensures ScanFrom(tasks, start) == NextReady(tasks, start)
  {
    ModSmall(start, |tasks|);
  }
}
