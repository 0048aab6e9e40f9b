/**
  Paging: the three tables the kernel fills at boot, read by the processor's
  two-level walk, against the range test that guards system-call buffers.
*/
module Paging {
  import opened Wrappers

  const PAGE: nat := 4096
  const ENTRIES: nat := 1024
  const PRESENT: nat := 1
  const RW: nat := 2
  const USER: nat := 4
  const USER_SPACE_START: nat := 0x0040_0000
  const USER_SPACE_END: nat := 0x0080_0000

  // ---- Bitwise or ----

  function BitOr(x: nat, y: nat): nat
    decreases x + y
  {
    if x == 0 && y == 0 then 0
    else 2 * BitOr(x / 2, y / 2) + if x % 2 == 1 || y % 2 == 1 then 1 else 0
  }

  function Pow2(k: nat): (p: nat)
    ensures p > 0
  {
    if k == 0 then 1 else 2 * Pow2(k - 1)
  }

  lemma {:induction false} BitOrZero(x: nat)
    ensures BitOr(x, 0) == x
  {
    if x == 0 {
    } else {
      BitOrZero(x / 2);
    }
  }

  /** An or of two low parts leaves the high part alone. */
  lemma {:induction false} BitOrLow(a: nat, x: nat, y: nat, k: nat)
    requires x < Pow2(k) && y < Pow2(k)
    ensures BitOr(a * Pow2(k) + x, y) == a * Pow2(k) + BitOr(x, y)
    decreases k
  {
    if k == 0 {
      BitOrZero(a);
    } else {
      var h := a * Pow2(k - 1);
      assert a * Pow2(k) == 2 * h;
      BitOrLow(a, x / 2, y / 2, k - 1);
      assert (2 * h + x) / 2 == h + x / 2 && (2 * h + x) % 2 == x % 2;
    }
  }

  lemma Pow2Page()
    ensures Pow2(12) == PAGE
  {
    assert Pow2(4) == 16;
    assert Pow2(8) == 256;
  }

  /** Or-ing a flag into an entry whose frame is aligned adds it to the flags already there. */
  lemma AddFlag(frame: nat, flags: nat, flag: nat)
    requires flags < 16 && flag < 16
    ensures BitOr(frame * PAGE + flags, flag) == frame * PAGE + BitOr(flags, flag)
  {
    Pow2Page();
    BitOrLow(frame, flags, flag, 12);
  }

  lemma FlagSums()
    ensures BitOr(0, PRESENT) == 1 && BitOr(1, RW) == 3 && BitOr(3, USER) == 7
  {
  }

  /** The flags an entry carries beside its frame's address. */
  lemma EntryFlags(frame: nat)
    ensures BitOr(BitOr(frame * PAGE, PRESENT), RW) == frame * PAGE + 3
    ensures BitOr(BitOr(BitOr(frame * PAGE, PRESENT), RW), USER) == frame * PAGE + 7
  {
    FlagSums();
    AddFlag(frame, 0, PRESENT);
    AddFlag(frame, 1, RW);
    AddFlag(frame, 3, USER);
  }

  // ---- The tables ----

  /** The contents the boot code gives the tables: 0 to 4 MiB for the supervisor, 4 to 8 MiB for user code too. */
  ghost predicate Initialised(dir: seq<nat>, t0: seq<nat>, t1: seq<nat>, pt0: nat, pt1: nat) {
    && |dir| == |t0| == |t1| == ENTRIES
    && dir[0] == BitOr(BitOr(pt0, PRESENT), RW)
    && dir[1] == BitOr(BitOr(BitOr(pt1, PRESENT), RW), USER)
    && (forall i :: 2 <= i < ENTRIES ==> dir[i] == 0)
    && (forall i :: 0 <= i < ENTRIES ==> t0[i] == BitOr(BitOr(i * PAGE, PRESENT), RW))
    && (forall i :: 0 <= i < ENTRIES ==> t1[i] == BitOr(BitOr(BitOr(USER_SPACE_START + i * PAGE, PRESENT), RW), USER))
  }

  class PageTables {
    const directory: array<nat>
    const table0: array<nat>
    const table1: array<nat>
    const pt0: nat
    const pt1: nat

    ghost predicate Shaped() {
      && directory.Length == table0.Length == table1.Length == ENTRIES
      && directory != table0 && directory != table1 && table0 != table1
    }

    /** The statics start out as zeroes, at page-aligned physical addresses. */
    constructor (pt0: nat, pt1: nat)
      ensures Shaped() && fresh(directory) && fresh(table0) && fresh(table1)
      ensures this.pt0 == pt0 && this.pt1 == pt1
      ensures forall i :: 0 <= i < ENTRIES ==> directory[i] == 0
    {
      directory := new nat[ENTRIES](_ => 0);
      table0 := new nat[ENTRIES](_ => 0);
      table1 := new nat[ENTRIES](_ => 0);
      this.pt0 := pt0;
      this.pt1 := pt1;
    }

    method Init()
      requires Shaped() && forall i :: 0 <= i < ENTRIES ==> directory[i] == 0
      modifies directory, table0, table1
      ensures Initialised(directory[..], table0[..], table1[..], pt0, pt1)
    {
      for i := 0 to ENTRIES
        modifies table0
        invariant forall k :: 0 <= k < i ==> table0[k] == BitOr(BitOr(k * PAGE, PRESENT), RW)
      {
        table0[i] := BitOr(BitOr(i * PAGE, PRESENT), RW);
      }
      for i := 0 to ENTRIES
        modifies table1
        invariant forall k :: 0 <= k < i ==> table1[k] == BitOr(BitOr(BitOr(USER_SPACE_START + k * PAGE, PRESENT), RW), USER)
      {
        table1[i] := BitOr(BitOr(BitOr(USER_SPACE_START + i * PAGE, PRESENT), RW), USER);
      }
      directory[0] := BitOr(BitOr(pt0, PRESENT), RW);
      directory[1] := BitOr(BitOr(BitOr(pt1, PRESENT), RW), USER);
    }
  }

  // ---- The processor's walk ----

  datatype Mapping = Mapping(physical: nat, user: bool, writable: bool)

  predicate Bit(entry: nat, weight: nat)
    requires weight > 0
  {
    (entry / weight) % 2 == 1
  }

  function FrameBase(entry: nat): nat {
    entry / PAGE * PAGE
  }

  /** 32-bit paging with 4 KiB pages: the directory entry names a table, the table entry a frame, and access
      rights must be granted by both. */
  function Translate(dir: seq<nat>, tables: map<nat, seq<nat>>, va: U32): Option<Mapping>
    requires |dir| == ENTRIES && forall b :: b in tables ==> |tables[b]| == ENTRIES
  {
    var pde := dir[va / (PAGE * ENTRIES)];
    if !Bit(pde, PRESENT) || FrameBase(pde) !in tables then None
    else
      var pte := tables[FrameBase(pde)][va / PAGE % ENTRIES];
      if !Bit(pte, PRESENT) then None
      else Some(Mapping(FrameBase(pte) + va % PAGE, Bit(pde, USER) && Bit(pte, USER), Bit(pde, RW) && Bit(pte, RW)))
  }

  lemma BitAt(e: nat, weight: nat, q: nat, b: nat, r: nat)
    requires b < 2 && r < weight && e == weight * (2 * q + b) + r
    ensures Bit(e, weight) <==> b == 1
  {
    ModUnique(e, weight, 2 * q + b, r);
    ModUnique(2 * q + b, 2, q, b);
  }

  lemma BaseOf(e: nat, frame: nat)
    requires frame * PAGE <= e < frame * PAGE + PAGE
    ensures FrameBase(e) == frame * PAGE
  {
    ModUnique(e, PAGE, frame, e - frame * PAGE);
  }

  lemma SupervisorBits(frame: nat)
    ensures var e := frame * PAGE + 3; FrameBase(e) == frame * PAGE && Bit(e, PRESENT) && Bit(e, RW) && !Bit(e, USER)
  {
    var e := frame * PAGE + 3;
    BaseOf(e, frame);
    BitAt(e, PRESENT, frame * 2048 + 1, 1, 0);
    BitAt(e, RW, frame * 1024, 1, 1);
    BitAt(e, USER, frame * 512, 0, 3);
  }

  lemma UserBits(frame: nat)
    ensures var e := frame * PAGE + 7; FrameBase(e) == frame * PAGE && Bit(e, PRESENT) && Bit(e, RW) && Bit(e, USER)
  {
    var e := frame * PAGE + 7;
    BaseOf(e, frame);
    BitAt(e, PRESENT, frame * 2048 + 3, 1, 0);
    BitAt(e, RW, frame * 1024 + 1, 1, 1);
    BitAt(e, USER, frame * 512, 1, 3);
  }

  ghost predicate Booted(dir: seq<nat>, tables: map<nat, seq<nat>>) {
    exists p0, p1 :: p0 != p1 && tables.Keys == {p0 * PAGE, p1 * PAGE}
      && Initialised(dir, tables[p0 * PAGE], tables[p1 * PAGE], p0 * PAGE, p1 * PAGE)
  }

  /** What the boot code leaves in memory is what the walk theorems assume. */
  method BootTables(p0: nat, p1: nat) returns (dir: seq<nat>, tables: map<nat, seq<nat>>)
    requires p0 != p1
    ensures Booted(dir, tables)
  {
    var t := new PageTables(p0 * PAGE, p1 * PAGE);
    t.Init();
    dir := t.directory[..];
    tables := map[p0 * PAGE := t.table0[..], p1 * PAGE := t.table1[..]];
    assert p0 * PAGE != p1 * PAGE;
    assert tables.Keys == {p0 * PAGE, p1 * PAGE};
  }

  lemma LowAddress(va: nat)
    requires va < USER_SPACE_START
    ensures va / (PAGE * ENTRIES) == 0 && va / PAGE % ENTRIES == va / PAGE
    ensures va / PAGE * PAGE + va % PAGE == va
  {
  }

  lemma HighAddress(va: nat)
    requires USER_SPACE_START <= va < USER_SPACE_END
    ensures va / (PAGE * ENTRIES) == 1 && va / PAGE % ENTRIES == va / PAGE - ENTRIES
    ensures va / PAGE * PAGE + va % PAGE == va
  {
  }

  lemma TranslateLow(dir: seq<nat>, tables: map<nat, seq<nat>>, p0: nat, va: U32)
    requires |dir| == ENTRIES && forall b :: b in tables ==> |tables[b]| == ENTRIES
    requires va < USER_SPACE_START && dir[0] == p0 * PAGE + 3 && p0 * PAGE in tables
    requires tables[p0 * PAGE][va / PAGE % ENTRIES] == va / PAGE * PAGE + 3
    ensures Translate(dir, tables, va) == Some(Mapping(va, false, true))
  {
    LowAddress(va);
    SupervisorBits(p0);
    SupervisorBits(va / PAGE);
  }

  lemma TranslateHigh(dir: seq<nat>, tables: map<nat, seq<nat>>, p1: nat, va: U32)
    requires |dir| == ENTRIES && forall b :: b in tables ==> |tables[b]| == ENTRIES
    requires USER_SPACE_START <= va < USER_SPACE_END && dir[1] == p1 * PAGE + 7 && p1 * PAGE in tables
    requires tables[p1 * PAGE][va / PAGE % ENTRIES] == va / PAGE * PAGE + 7
    ensures Translate(dir, tables, va) == Some(Mapping(va, true, true))
  {
    HighAddress(va);
    UserBits(p1);
    UserBits(va / PAGE);
  }

  lemma MappedLow(dir: seq<nat>, tables: map<nat, seq<nat>>, p0: nat, t1: seq<nat>, pt1: nat, va: U32)
    requires |dir| == ENTRIES && forall b :: b in tables ==> |tables[b]| == ENTRIES
    requires p0 * PAGE in tables && Initialised(dir, tables[p0 * PAGE], t1, p0 * PAGE, pt1)
    requires va < USER_SPACE_START
    ensures Translate(dir, tables, va) == Some(Mapping(va, false, true))
  {
    LowAddress(va);
    assert dir[0] == p0 * PAGE + 3 by {
      EntryFlags(p0);
    }
    assert tables[p0 * PAGE][va / PAGE] == va / PAGE * PAGE + 3 by {
      EntryFlags(va / PAGE);
    }
    TranslateLow(dir, tables, p0, va);
  }

  /** The entry the second table holds for a user page. */
  lemma HighEntry(t1: seq<nat>, page: nat)
    requires |t1| == ENTRIES && ENTRIES <= page < 2 * ENTRIES
    requires forall i :: 0 <= i < ENTRIES ==> t1[i] == BitOr(BitOr(BitOr(USER_SPACE_START + i * PAGE, PRESENT), RW), USER)
    ensures t1[page - ENTRIES] == page * PAGE + 7
  {
    EntryFlags(page);
    assert USER_SPACE_START + (page - ENTRIES) * PAGE == page * PAGE;
  }

  lemma MappedHigh(dir: seq<nat>, tables: map<nat, seq<nat>>, t0: seq<nat>, pt0: nat, p1: nat, va: U32)
    requires |dir| == ENTRIES && forall b :: b in tables ==> |tables[b]| == ENTRIES
    requires p1 * PAGE in tables && Initialised(dir, t0, tables[p1 * PAGE], pt0, p1 * PAGE)
    requires USER_SPACE_START <= va < USER_SPACE_END
    ensures Translate(dir, tables, va) == Some(Mapping(va, true, true))
  {
    HighAddress(va);
    assert dir[1] == p1 * PAGE + 7 by {
      EntryFlags(p1);
    }
    HighEntry(tables[p1 * PAGE], va / PAGE);
    TranslateHigh(dir, tables, p1, va);
  }

  lemma UnmappedAbove(dir: seq<nat>, tables: map<nat, seq<nat>>, va: U32)
    requires |dir| == ENTRIES && forall b :: b in tables ==> |tables[b]| == ENTRIES
    requires va >= USER_SPACE_END && forall i :: 2 <= i < ENTRIES ==> dir[i] == 0
    ensures Translate(dir, tables, va) == None
  {
    assert 2 <= va / (PAGE * ENTRIES) < ENTRIES;
  }

  lemma MappedFrom(dir: seq<nat>, tables: map<nat, seq<nat>>, p0: nat, p1: nat, va: U32)
    requires |dir| == ENTRIES && forall b :: b in tables ==> |tables[b]| == ENTRIES
    requires p0 * PAGE in tables && p1 * PAGE in tables
    requires Initialised(dir, tables[p0 * PAGE], tables[p1 * PAGE], p0 * PAGE, p1 * PAGE)
    ensures Translate(dir, tables, va) ==
            if va < USER_SPACE_END then Some(Mapping(va, va >= USER_SPACE_START, true)) else None
  {
    if va < USER_SPACE_START {
      MappedLow(dir, tables, p0, tables[p1 * PAGE], p1 * PAGE, va);
    } else if va < USER_SPACE_END {
      MappedHigh(dir, tables, tables[p0 * PAGE], p0 * PAGE, p1, va);
    } else {
      UnmappedAbove(dir, tables, va);
    }
  }

  lemma BootedShape(dir: seq<nat>, tables: map<nat, seq<nat>>) returns (p0: nat, p1: nat)
    requires Booted(dir, tables)
    ensures |dir| == ENTRIES && forall b :: b in tables ==> |tables[b]| == ENTRIES
    ensures p0 * PAGE in tables && p1 * PAGE in tables
    ensures Initialised(dir, tables[p0 * PAGE], tables[p1 * PAGE], p0 * PAGE, p1 * PAGE)
  {
    p0, p1 :| p0 != p1 && tables.Keys == {p0 * PAGE, p1 * PAGE}
      && Initialised(dir, tables[p0 * PAGE], tables[p1 * PAGE], p0 * PAGE, p1 * PAGE);
    assert p0 * PAGE in tables.Keys && p1 * PAGE in tables.Keys;
    assert forall b :: b in tables ==> b in tables.Keys;
  }

  /** After boot every address below 8 MiB maps to itself, for user code exactly from 4 MiB on; nothing else is mapped. */
  lemma IdentityMapped(dir: seq<nat>, tables: map<nat, seq<nat>>, va: U32)
    requires Booted(dir, tables)
    ensures |dir| == ENTRIES && forall b :: b in tables ==> |tables[b]| == ENTRIES
    ensures Translate(dir, tables, va) == if va < 0x80_0000 then Some(Mapping(va, va >= 0x40_0000, true)) else None
  {
    var p0, p1 := BootedShape(dir, tables);
    MappedFrom(dir, tables, p0, p1, va);
  }

  /** The entries themselves: each holds its frame's address, with present and writable set, and user access in the
      second table and its directory entry alone. */
  lemma BootEntries(dir: seq<nat>, t0: seq<nat>, t1: seq<nat>, p0: nat, p1: nat, i: nat)
    requires Initialised(dir, t0, t1, p0 * PAGE, p1 * PAGE) && i < 1024
    ensures dir[0] == 4096 * p0 + 3 && dir[1] == 4096 * p1 + 7 && (i >= 2 ==> dir[i] == 0)
    ensures t0[i] == 4096 * i + 3 && t1[i] == 0x40_0000 + 4096 * i + 7
  {
    EntryFlags(p0);
    EntryFlags(p1);
    EntryFlags(i);
    HighEntry(t1, i + ENTRIES);
  }

  // ---- The range test ----

  /** User code may read the byte at `a`: the address fits 32 bits and the walk grants user access. */
  predicate UserAccessible(dir: seq<nat>, tables: map<nat, seq<nat>>, a: nat)
    requires |dir| == ENTRIES && forall b :: b in tables ==> |tables[b]| == ENTRIES
  {
    a < U32_LIMIT && Translate(dir, tables, a).Some? && Translate(dir, tables, a).value.user
  }

  predicate UserRangeContains(ptr: U32, len: U32) {
    && len != 0
    && ptr + len < U32_LIMIT
    && ptr >= USER_SPACE_START && ptr + len <= USER_SPACE_END && ptr + len > ptr
  }

  /** The range test accepts exactly the nonempty ranges all of whose bytes user code may access. */
  lemma RangeTestIsExact(dir: seq<nat>, tables: map<nat, seq<nat>>, ptr: U32, len: U32)
    requires Booted(dir, tables)
    ensures |dir| == ENTRIES && forall b :: b in tables ==> |tables[b]| == ENTRIES
    ensures UserRangeContains(ptr, len) <==>
            len > 0 && forall a :: ptr <= a < ptr + len ==> UserAccessible(dir, tables, a)
  {
    IdentityMapped(dir, tables, ptr);
    forall a | ptr <= a < ptr + len
      ensures UserAccessible(dir, tables, a) <==> USER_SPACE_START <= a < USER_SPACE_END
    {
      if a < U32_LIMIT {
        IdentityMapped(dir, tables, a);
      }
    }
    if len > 0 && forall a :: ptr <= a < ptr + len ==> UserAccessible(dir, tables, a) {
      assert UserAccessible(dir, tables, ptr) && UserAccessible(dir, tables, ptr + len - 1);
    }
  }
}
