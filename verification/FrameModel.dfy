/**
  Physical frames: which frames of a Multiboot memory map are free for the taking,
  and the resumable walk that hands them out.
*/
module FrameModel {
  import opened Wrappers

  const PAGE: nat := 4096
  const FLOOR: nat := 0x0010_0000
  /** The last page-aligned u32 address; its frame ends just past the u32 range. */
  const LAST_PAGE: nat := 0xFFFF_F000

  /** One entry of the memory map (section 3.3 of the Multiboot Specification 0.6.96). */
  datatype Entry = Entry(
    size: U32,
    baseLow: U32,
    baseHigh: U32,
    lengthLow: U32,
    lengthHigh: U32,
    kind: U32)

  /** The kernel image occupies the addresses from `start` up to, not including, `end`. */
  datatype Image = Image(start: U32, end: U32)

  function RegionStart(e: Entry): nat {
    e.baseLow + U32_LIMIT * e.baseHigh
  }

  function RegionEnd(e: Entry): nat {
    Saturate(RegionStart(e) + (e.lengthLow + U32_LIMIT * e.lengthHigh), U64_LIMIT)
  }

  predicate Available(e: Entry) {
    e.kind == 1
  }

  function AllocationFloor(e: Entry): nat {
    if RegionStart(e) > FLOOR then RegionStart(e) else FLOOR
  }

  function AlignUp(value: nat): (r: nat)
    ensures r % PAGE == 0 && value <= r < value + PAGE
  {
    if value % PAGE == 0 then value else value + PAGE - value % PAGE
  }

  // ---- Which frames are free ----

  predicate Overlaps(image: Image, f: nat) {
    f < image.end && image.start < f + PAGE
  }

  /** The frame at `f` is free in the region of `e`, in terms of the entry's fields: the entry is of kind 1, its halves
      make a base and a length, and the page lies between them, from 1 MiB to 4 GiB, clear of the kernel. */
  predicate FreeIn(image: Image, e: Entry, f: nat) {
    && e.kind == 1
    && f % 4096 == 0
    && 0x10_0000 <= f && f + 4096 <= 0x1_0000_0000
    && e.baseLow + 0x1_0000_0000 * e.baseHigh <= f
    && f + 4096 <= e.baseLow + 0x1_0000_0000 * e.baseHigh + e.lengthLow + 0x1_0000_0000 * e.lengthHigh
    && (image.end <= f || f + 4096 <= image.start)
  }

  /** The frames from `f` up to `end` that the kernel does not occupy, one page after another. */
  function FramesFrom(image: Image, f: nat, end: nat): seq<nat>
    decreases end - f
  {
    if f + PAGE > end then []
    else (if Overlaps(image, f) then [] else [f]) + FramesFrom(image, f + PAGE, end)
  }

  function Cap(end: nat): nat {
    if end < U32_LIMIT then end else U32_LIMIT
  }

  function FramesOf(image: Image, e: Entry): seq<nat> {
    if Available(e) then FramesFrom(image, AlignUp(AllocationFloor(e)), Cap(RegionEnd(e))) else []
  }

  /** All free frames, entry by entry in map order. */
  function AllFrames(image: Image, entries: seq<Entry>): seq<nat> {
    if entries == [] then [] else FramesOf(image, entries[0]) + AllFrames(image, entries[1..])
  }

  lemma {:induction false} FramesFromMembers(image: Image, f: nat, end: nat, x: nat)
    requires f % PAGE == 0
    ensures x in FramesFrom(image, f, end) <==> x % PAGE == 0 && f <= x && x + PAGE <= end && !Overlaps(image, x)
    decreases end - f
  {
    if f + PAGE > end {
    } else {
      FramesFromMembers(image, f + PAGE, end, x);
      assert x % PAGE == 0 && f < x ==> f + PAGE <= x;
    }
  }

  /** The walk over one entry lists exactly the free frames of its region. */
  lemma FramesOfMembers(image: Image, e: Entry, x: nat)
    ensures x in FramesOf(image, e) <==> FreeIn(image, e, x)
  {
    var floor := AllocationFloor(e);
    FramesFromMembers(image, AlignUp(floor), Cap(RegionEnd(e)), x);
    assert x % PAGE == 0 ==> (x >= floor <==> x >= AlignUp(floor));
  }

  /** A frame is listed exactly when some available region holds it and nothing else claims it. */
  lemma {:induction false} AllFramesMembers(image: Image, entries: seq<Entry>, x: nat)
    ensures x in AllFrames(image, entries) <==> exists i :: 0 <= i < |entries| && FreeIn(image, entries[i], x)
  {
    if entries == [] {
    } else {
      FramesOfMembers(image, entries[0], x);
      AllFramesMembers(image, entries[1..], x);
      if exists i :: 0 <= i < |entries[1..]| && FreeIn(image, entries[1..][i], x) {
        var i :| 0 <= i < |entries[1..]| && FreeIn(image, entries[1..][i], x);
        assert FreeIn(image, entries[i + 1], x);
      }
    }
  }

  ghost predicate Distinct(s: seq<nat>) {
    forall i, j :: 0 <= i < j < |s| ==> s[i] != s[j]
  }

  lemma {:induction false} FramesFromAscend(image: Image, f: nat, end: nat)
    ensures forall i :: 0 <= i < |FramesFrom(image, f, end)| ==> f <= FramesFrom(image, f, end)[i]
    ensures forall i, j :: 0 <= i < j < |FramesFrom(image, f, end)| ==>
              FramesFrom(image, f, end)[i] < FramesFrom(image, f, end)[j]
    decreases end - f
  {
    if f + PAGE > end {
    } else {
      FramesFromAscend(image, f + PAGE, end);
    }
  }

  ghost predicate DisjointRegions(entries: seq<Entry>) {
    forall i, j :: 0 <= i < j < |entries| && Available(entries[i]) && Available(entries[j]) ==>
      RegionEnd(entries[i]) <= RegionStart(entries[j]) || RegionEnd(entries[j]) <= RegionStart(entries[i])
  }

  /** With disjoint regions no frame is listed twice. */
  lemma {:induction false} AllFramesDistinct(image: Image, entries: seq<Entry>)
    requires DisjointRegions(entries)
    ensures Distinct(AllFrames(image, entries))
  {
    if entries == [] {
    } else {
      var a, b := FramesOf(image, entries[0]), AllFrames(image, entries[1..]);
      AllFramesDistinct(image, entries[1..]);
      assert Distinct(a) by {
        FramesFromAscend(image, AlignUp(AllocationFloor(entries[0])), Cap(RegionEnd(entries[0])));
      }
      forall i | 0 <= i < |a|
        ensures a[i] !in b
      {
        FramesOfMembers(image, entries[0], a[i]);
        forall k | 0 <= k < |entries[1..]|
          ensures !FreeIn(image, entries[1..][k], a[i])
        {
          assert entries[1..][k] == entries[k + 1];
        }
        AllFramesMembers(image, entries[1..], a[i]);
      }
    }
  }

  // ---- The walk that hands them out ----

  /** The entry being walked and, once it has been entered, the next address to try in it. */
  datatype Cursor = Cursor(index: nat, next: Option<nat>)

  /** A frame, no memory left, or a u32 addition that overflows and panics. */
  datatype Answer = Frame(start: nat, cursor: Cursor) | OutOfMemory(cursor: Cursor) | Overflow

  const START := Cursor(0, None)

  /** The region has room above low memory and below 4 GiB, so the walk enters it. */
  predicate Entered(e: Entry) {
    Available(e) && AllocationFloor(e) < RegionEnd(e) && AllocationFloor(e) < U32_LIMIT
  }

  /** Jump over the kernel image if the page at `f` touches it. */
  function PastKernel(image: Image, f: nat): nat {
    if f < AlignUp(image.end) && Saturate(f + PAGE, U32_LIMIT) > image.start then AlignUp(image.end) else f
  }

  /** One call.  The first address tried in a region is truncated to 32 bits, as the source's cast does. */
  function Allocate(image: Image, entries: seq<Entry>, c: Cursor): Answer
    decreases |entries| - c.index
  {
    if c.index >= |entries| then OutOfMemory(c)
    else
      var e := entries[c.index];
      if !Entered(e) then Allocate(image, entries, Cursor(c.index + 1, None))
      else if AlignUp(image.end) >= U32_LIMIT then Overflow
      else
        var first := if c.next.Some? then c.next.value else AlignUp(AllocationFloor(e)) % U32_LIMIT;
        var f := PastKernel(image, first);
        var frameEnd := Saturate(f + PAGE, U32_LIMIT);
        if frameEnd <= RegionEnd(e) && frameEnd > f then
          if f + PAGE >= U32_LIMIT then Overflow else Frame(f, Cursor(c.index, Some(f + PAGE)))
        else Allocate(image, entries, Cursor(c.index + 1, None))
  }

  /** The answer to the call after `n` earlier ones. */
  function Nth(image: Image, entries: seq<Entry>, c: Cursor, n: nat): Answer
    decreases n
  {
    var a := Allocate(image, entries, c);
    if n == 0 || a.Overflow? then a else Nth(image, entries, a.cursor, n - 1)
  }

  // ---- Maps the walk handles ----

  /** An entered region starts no later than the last page and stops short of the last u32 address. */
  predicate Benign(e: Entry) {
    Entered(e) ==> AllocationFloor(e) <= LAST_PAGE && RegionEnd(e) < U32_LIMIT - 1
  }

  /** The same in terms of the entry's fields. */
  lemma BenignByFields(e: Entry)
    ensures Benign(e) <==>
            var base, length := e.baseLow + 0x1_0000_0000 * e.baseHigh, e.lengthLow + 0x1_0000_0000 * e.lengthHigh;
            || e.kind != 1
            || base + length <= 0x10_0000 || length == 0
            || base >= 0x1_0000_0000
            || (base <= 0xFFFF_F000 && base + length < 0xFFFF_FFFF)
  {
  }

  ghost predicate BenignMap(entries: seq<Entry>) {
    forall i :: 0 <= i < |entries| ==> Benign(entries[i])
  }

  predicate CursorOk(entries: seq<Entry>, c: Cursor) {
    c.next.Some? ==>
      && c.index < |entries| && Entered(entries[c.index])
      && c.next.value % PAGE == 0 && c.next.value <= LAST_PAGE
  }

  /** The frames still to come from the region being walked. */
  function InRegion(image: Image, e: Entry, next: Option<nat>): seq<nat> {
    if next.None? then FramesOf(image, e) else FramesFrom(image, next.value, Cap(RegionEnd(e)))
  }

  /** The frames still to come. */
  function Pending(image: Image, entries: seq<Entry>, c: Cursor): seq<nat> {
    if c.index >= |entries| then []
    else InRegion(image, entries[c.index], c.next) + AllFrames(image, entries[c.index + 1..])
  }

  lemma {:induction false} KernelSkipped(image: Image, f: nat, end: nat)
    requires f % PAGE == 0 && Overlaps(image, f)
    ensures FramesFrom(image, f, end) == FramesFrom(image, AlignUp(image.end), end)
    decreases image.end - f
  {
    if f + PAGE <= end && f + PAGE < image.end {
      KernelSkipped(image, f + PAGE, end);
    } else {
      assert AlignUp(image.end) >= f + PAGE;
      if f + PAGE <= end {
        assert AlignUp(image.end) == f + PAGE;
      }
    }
  }

  /** Jumping over the kernel loses no frame and lands clear of it. */
  lemma PastKernelKeeps(image: Image, f: nat, end: nat)
    requires f % PAGE == 0 && f <= LAST_PAGE && image.end <= LAST_PAGE
    ensures FramesFrom(image, f, end) == FramesFrom(image, PastKernel(image, f), end)
    ensures PastKernel(image, f) % PAGE == 0 && f <= PastKernel(image, f) <= LAST_PAGE
    ensures !Overlaps(image, PastKernel(image, f))
  {
    if f < AlignUp(image.end) && Saturate(f + PAGE, U32_LIMIT) > image.start {
      KernelSkipped(image, f, end);
    }
  }

  lemma NotEnteredIsEmpty(image: Image, e: Entry)
    requires !Entered(e)
    ensures FramesOf(image, e) == []
  {
  }

  /** The page the walk tries next in the region it is in. */
  function Candidate(image: Image, entries: seq<Entry>, c: Cursor): nat
    requires c.index < |entries|
  {
    PastKernel(image, if c.next.Some? then c.next.value else AlignUp(AllocationFloor(entries[c.index])))
  }

  lemma LastPage(x: nat)
    requires x % PAGE == 0 && x < U32_LIMIT
    ensures x <= LAST_PAGE
    ensures (x + PAGE) % PAGE == 0
  {
  }

  lemma CandidateBounds(image: Image, entries: seq<Entry>, c: Cursor)
    requires c.index < |entries| && CursorOk(entries, c) && AllocationFloor(entries[c.index]) <= LAST_PAGE
    requires image.end <= LAST_PAGE
    ensures var f := Candidate(image, entries, c);
            f % PAGE == 0 && f <= LAST_PAGE && (c.next.Some? ==> c.next.value <= f)
    ensures AlignUp(AllocationFloor(entries[c.index])) <= LAST_PAGE && AlignUp(image.end) <= LAST_PAGE
  {
    var first := if c.next.Some? then c.next.value else AlignUp(AllocationFloor(entries[c.index]));
    PastKernelKeeps(image, first, RegionEnd(entries[c.index]));
  }

  /** Below the last page nothing is truncated, and the call turns on the candidate alone. */
  lemma AllocateTriesCandidate(image: Image, entries: seq<Entry>, c: Cursor)
    requires c.index < |entries| && Entered(entries[c.index])
    requires AlignUp(AllocationFloor(entries[c.index])) <= LAST_PAGE && AlignUp(image.end) <= LAST_PAGE
    ensures var f := Candidate(image, entries, c);
            var frameEnd := Saturate(f + PAGE, U32_LIMIT);
            Allocate(image, entries, c) ==
            if !(f < frameEnd <= RegionEnd(entries[c.index])) then Allocate(image, entries, Cursor(c.index + 1, None))
            else if f + PAGE >= U32_LIMIT then Overflow
            else Frame(f, Cursor(c.index, Some(f + PAGE)))
  {
  }

  lemma AllocateInRegion(image: Image, entries: seq<Entry>, c: Cursor)
    requires c.index < |entries| && Entered(entries[c.index]) && Benign(entries[c.index])
    requires image.end <= LAST_PAGE && CursorOk(entries, c)
    ensures var f := Candidate(image, entries, c);
            Allocate(image, entries, c) ==
            if f + PAGE <= RegionEnd(entries[c.index]) then Frame(f, Cursor(c.index, Some(f + PAGE)))
            else Allocate(image, entries, Cursor(c.index + 1, None))
  {
    CandidateBounds(image, entries, c);
    AllocateTriesCandidate(image, entries, c);
  }

  lemma FramesAhead(image: Image, first: nat, end: nat)
    requires first % PAGE == 0 && first <= LAST_PAGE && image.end <= LAST_PAGE
    ensures var f := PastKernel(image, first);
            FramesFrom(image, first, end) == if f + PAGE <= end then [f] + FramesFrom(image, f + PAGE, end) else []
  {
    PastKernelKeeps(image, first, end);
  }

  lemma InRegionAhead(image: Image, entries: seq<Entry>, c: Cursor)
    requires c.index < |entries| && Entered(entries[c.index]) && Benign(entries[c.index])
    requires image.end <= LAST_PAGE && CursorOk(entries, c)
    ensures var e := entries[c.index];
            var f := Candidate(image, entries, c);
            InRegion(image, e, c.next) == if f + PAGE <= RegionEnd(e) then [f] + InRegion(image, e, Some(f + PAGE)) else []
  {
    var e := entries[c.index];
    CandidateBounds(image, entries, c);
    FramesAhead(image, if c.next.Some? then c.next.value else AlignUp(AllocationFloor(e)), RegionEnd(e));
  }

  lemma FirstOfJoined(f: nat, rest: seq<nat>, later: seq<nat>)
    ensures ([f] + rest) + later == [f] + (rest + later)
  {
  }

  lemma PendingGoesOn(image: Image, entries: seq<Entry>, c: Cursor, f: nat, next: Option<nat>)
    requires c.index < |entries|
    requires InRegion(image, entries[c.index], c.next) == [f] + InRegion(image, entries[c.index], next)
    ensures Pending(image, entries, c) == [f] + Pending(image, entries, Cursor(c.index, next))
  {
    FirstOfJoined(f, InRegion(image, entries[c.index], next), AllFrames(image, entries[c.index + 1..]));
  }

  lemma PendingMovesOn(image: Image, entries: seq<Entry>, c: Cursor)
    requires c.index < |entries| && InRegion(image, entries[c.index], c.next) == []
    ensures Pending(image, entries, c) == Pending(image, entries, Cursor(c.index + 1, None))
  {
    PendingSkips(image, entries, c.index);
    assert [] + AllFrames(image, entries[c.index + 1..]) == AllFrames(image, entries[c.index + 1..]);
  }

  lemma PendingInRegion(image: Image, entries: seq<Entry>, c: Cursor)
    requires c.index < |entries| && Entered(entries[c.index]) && Benign(entries[c.index])
    requires image.end <= LAST_PAGE && CursorOk(entries, c)
    ensures var f := Candidate(image, entries, c);
            Pending(image, entries, c) ==
            if f + PAGE <= RegionEnd(entries[c.index]) then [f] + Pending(image, entries, Cursor(c.index, Some(f + PAGE)))
            else Pending(image, entries, Cursor(c.index + 1, None))
  {
    var f := Candidate(image, entries, c);
    InRegionAhead(image, entries, c);
    if f + PAGE <= RegionEnd(entries[c.index]) {
      PendingGoesOn(image, entries, c, f, Some(f + PAGE));
    } else {
      PendingMovesOn(image, entries, c);
    }
  }

  lemma CandidateOk(image: Image, entries: seq<Entry>, c: Cursor)
    requires c.index < |entries| && Entered(entries[c.index]) && Benign(entries[c.index])
    requires image.end <= LAST_PAGE && CursorOk(entries, c)
    ensures var f := Candidate(image, entries, c);
            f + PAGE <= RegionEnd(entries[c.index]) ==> CursorOk(entries, Cursor(c.index, Some(f + PAGE)))
  {
    CandidateBounds(image, entries, c);
    var f := Candidate(image, entries, c);
    LastPage(f);
    if f + PAGE <= RegionEnd(entries[c.index]) {
      LastPage(f + PAGE);
    }
  }

  lemma PendingSkips(image: Image, entries: seq<Entry>, i: nat)
    requires i < |entries|
    ensures Pending(image, entries, Cursor(i + 1, None)) == AllFrames(image, entries[i + 1..])
  {
    if i + 1 < |entries| {
      assert entries[i + 1..][1..] == entries[i + 1 + 1..];
    }
  }

  /** The call hands out the first of the frames pending before it, or reports that there was none. */
  ghost predicate TakesFirst(image: Image, entries: seq<Entry>, pending: seq<nat>, a: Answer) {
    && !a.Overflow? && CursorOk(entries, a.cursor)
    && if pending == [] then a.OutOfMemory? && Pending(image, entries, a.cursor) == []
       else a.Frame? && pending == [a.start] + Pending(image, entries, a.cursor)
  }

  lemma {:induction false} AllocateTakesFirst(image: Image, entries: seq<Entry>, c: Cursor)
    requires BenignMap(entries) && image.end <= LAST_PAGE && CursorOk(entries, c)
    ensures TakesFirst(image, entries, Pending(image, entries, c), Allocate(image, entries, c))
    decreases |entries| - c.index
  {
    if c.index >= |entries| {
    } else {
      var e := entries[c.index];
      assert Benign(e);
      AllocateTakesFirst(image, entries, Cursor(c.index + 1, None));
      if Entered(e) {
        AllocateInRegion(image, entries, c);
        PendingInRegion(image, entries, c);
        CandidateOk(image, entries, c);
      } else {
        NotEnteredIsEmpty(image, e);
        PendingSkips(image, entries, c.index);
      }
    }
  }

  // ---- Whole runs of calls ----

  /** What the call after `n` earlier ones should answer. */
  ghost predicate Expected(frames: seq<nat>, n: nat, a: Answer) {
    if n < |frames| then a.Frame? && a.start == frames[n] else a.OutOfMemory?
  }

  lemma ExpectedLater(image: Image, entries: seq<Entry>, pending: seq<nat>, a: Answer, n: nat, later: Answer)
    requires n > 0 && TakesFirst(image, entries, pending, a)
    requires Expected(Pending(image, entries, a.cursor), n - 1, later)
    ensures Expected(pending, n, later)
  {
    var rest := Pending(image, entries, a.cursor);
    assert pending == [] || pending == [a.start] + rest;
  }

  lemma NthLater(image: Image, entries: seq<Entry>, c: Cursor, n: nat)
    requires n > 0 && !Allocate(image, entries, c).Overflow?
    ensures Nth(image, entries, c, n) == Nth(image, entries, Allocate(image, entries, c).cursor, n - 1)
  {
  }

  lemma {:induction false} DrainsPending(image: Image, entries: seq<Entry>, c: Cursor, n: nat)
    requires BenignMap(entries) && image.end <= LAST_PAGE && CursorOk(entries, c)
    ensures Expected(Pending(image, entries, c), n, Nth(image, entries, c, n))
    decreases n
  {
    AllocateTakesFirst(image, entries, c);
    if n == 0 {
    } else {
      NthLater(image, entries, c, n);
      DrainsLater(image, entries, Pending(image, entries, c), Allocate(image, entries, c), n);
    }
  }

  /** The calls after an answer that took the first pending frame. */
  lemma {:induction false} DrainsLater(image: Image, entries: seq<Entry>, pending: seq<nat>, a: Answer, n: nat)
    requires BenignMap(entries) && image.end <= LAST_PAGE && n > 0
    requires TakesFirst(image, entries, pending, a)
    ensures Expected(pending, n, Nth(image, entries, a.cursor, n - 1))
    decreases n, 0
  {
    DrainsPending(image, entries, a.cursor, n - 1);
    ExpectedLater(image, entries, pending, a, n, Nth(image, entries, a.cursor, n - 1));
  }

  lemma PendingAtStart(image: Image, entries: seq<Entry>)
    ensures Pending(image, entries, START) == AllFrames(image, entries)
  {
  }

  // ---- Maps the walk does not handle ----

  /** Starting above the last page, the first address rounds up to 4 GiB and is truncated to 0. */
  lemma HighRegionGivesZero(image: Image, entries: seq<Entry>, i: nat)
    requires i < |entries| && Entered(entries[i]) && AllocationFloor(entries[i]) > LAST_PAGE
    requires PAGE <= image.start && image.end <= LAST_PAGE
    ensures Allocate(image, entries, Cursor(i, None)) == Frame(0, Cursor(i, Some(PAGE)))
  {
    assert AlignUp(AllocationFloor(entries[i])) == U32_LIMIT;
  }

  /** Reaching the last u32 address, the walk steps up page by page until the step past the last page overflows. */
  lemma LongRegionClimbs(image: Image, entries: seq<Entry>, c: Cursor)
    requires c.index < |entries| && Entered(entries[c.index]) && CursorOk(entries, c)
    requires AllocationFloor(entries[c.index]) <= LAST_PAGE && RegionEnd(entries[c.index]) >= U32_LIMIT - 1
    requires image.end <= LAST_PAGE
    ensures var f := Candidate(image, entries, c);
            && f % PAGE == 0 && f <= LAST_PAGE && (c.next.Some? ==> c.next.value <= f)
            && Allocate(image, entries, c) == if f == LAST_PAGE then Overflow else Frame(f, Cursor(c.index, Some(f + PAGE)))
  {
    CandidateBounds(image, entries, c);
    AllocateTriesCandidate(image, entries, c);
    BelowLastPage(Candidate(image, entries, c));
  }

  lemma BelowLastPage(f: nat)
    requires f % PAGE == 0 && f <= LAST_PAGE
    ensures f == LAST_PAGE || f + PAGE <= LAST_PAGE
  {
  }

  /** A wrong answer: a panic, or the frame at address 0. */
  predicate Wrong(a: Answer) {
    a.Overflow? || (a.Frame? && a.start == 0)
  }

  lemma {:induction false} LongRegionFails(image: Image, entries: seq<Entry>, c: Cursor) returns (n: nat)
    requires c.index < |entries| && Entered(entries[c.index]) && CursorOk(entries, c)
    requires AllocationFloor(entries[c.index]) <= LAST_PAGE && RegionEnd(entries[c.index]) >= U32_LIMIT - 1
    requires image.end <= LAST_PAGE
    ensures Wrong(Nth(image, entries, c, n))
    decreases U32_LIMIT - if c.next.Some? then c.next.value else 0
  {
    LongRegionClimbs(image, entries, c);
    var f := Candidate(image, entries, c);
    if f == LAST_PAGE {
      n := 0;
    } else {
      BelowLastPage(f);
      LastPage(f);
      var m := LongRegionFails(image, entries, Cursor(c.index, Some(f + PAGE)));
      n := m + 1;
    }
  }

  lemma BadRegionFails(image: Image, entries: seq<Entry>, i: nat) returns (n: nat)
    requires i < |entries| && !Benign(entries[i])
    requires PAGE <= image.start && image.end <= LAST_PAGE
    ensures Wrong(Nth(image, entries, Cursor(i, None), n))
  {
    if AllocationFloor(entries[i]) > LAST_PAGE {
      HighRegionGivesZero(image, entries, i);
      n := 0;
    } else {
      n := LongRegionFails(image, entries, Cursor(i, None));
    }
  }

  /** From any point before the first region that is not benign, the walk gets there and fails. */
  lemma {:induction false} WalkFails(image: Image, entries: seq<Entry>, c: Cursor, bad: nat) returns (n: nat)
    requires c.index <= bad < |entries| && !Benign(entries[bad])
    requires forall i :: 0 <= i < bad ==> Benign(entries[i])
    requires CursorOk(entries, c) && (c.index == bad ==> c.next.None?)
    requires PAGE <= image.start && image.end <= LAST_PAGE
    ensures Wrong(Nth(image, entries, c, n))
    decreases bad - c.index, U32_LIMIT - if c.next.Some? then c.next.value else 0
  {
    if c.index == bad {
      n := BadRegionFails(image, entries, bad);
    } else {
      var e, skip := entries[c.index], Cursor(c.index + 1, None);
      if Entered(e) && Candidate(image, entries, c) + PAGE <= RegionEnd(e) {
        AllocateInRegion(image, entries, c);
        CandidateOk(image, entries, c);
        CandidateBounds(image, entries, c);
        var f := Candidate(image, entries, c);
        var m := WalkFails(image, entries, Cursor(c.index, Some(f + PAGE)), bad);
        n := m + 1;
      } else {
        if Entered(e) {
          AllocateInRegion(image, entries, c);
        }
        n := WalkFails(image, entries, skip, bad);
        SameCallSameRun(image, entries, c, skip, n);
      }
    }
  }

  lemma SameCallSameRun(image: Image, entries: seq<Entry>, c: Cursor, d: Cursor, n: nat)
    requires Allocate(image, entries, c) == Allocate(image, entries, d)
    ensures Nth(image, entries, c, n) == Nth(image, entries, d, n)
  {
  }

  /** The calls hand out exactly the free frames in map order and then report exhaustion for ever, if and only if
      every region the walk enters starts by the last page and stops short of the last 32-bit address. */
  lemma DrainIsExact(image: Image, entries: seq<Entry>)
    requires PAGE <= image.start && image.end <= LAST_PAGE
    ensures (forall n: nat :: Expected(AllFrames(image, entries), n, Nth(image, entries, START, n))) <==> BenignMap(entries)
  {
    var all := AllFrames(image, entries);
    if BenignMap(entries) {
      PendingAtStart(image, entries);
      forall n: nat
        ensures Expected(all, n, Nth(image, entries, START, n))
      {
        DrainsPending(image, entries, START, n);
      }
    } else {
      var bad := FirstBad(entries);
      var n := WalkFails(image, entries, START, bad);
      NeverWrong(image, entries, n, Nth(image, entries, START, n));
      assert !Expected(all, n, Nth(image, entries, START, n));
    }
  }

  lemma {:induction false} FirstBad(entries: seq<Entry>) returns (bad: nat)
    requires !BenignMap(entries)
    ensures bad < |entries| && !Benign(entries[bad])
    ensures forall i :: 0 <= i < bad ==> Benign(entries[i])
  {
    bad := 0;
    while Benign(entries[bad])
      invariant bad < |entries|
      invariant forall i :: 0 <= i < bad ==> Benign(entries[i])
      decreases |entries| - bad
    {
      bad := bad + 1;
    }
  }

  lemma NeverWrong(image: Image, entries: seq<Entry>, n: nat, a: Answer)
    requires Wrong(a)
    ensures !Expected(AllFrames(image, entries), n, a)
  {
    if n < |AllFrames(image, entries)| {
      AllFramesMembers(image, entries, AllFrames(image, entries)[n]);
    }
  }
}
