/**
  The bump allocator as the kernel runs it: a byte offset into the memory map
  and a loop that reads the entry at that offset.  Each call is proved to answer
  as one step of the walk of module `FrameModel`.
*/
module FrameAllocation {
  import opened Wrappers
  import opened FrameModel

  /** The byte offset of entry `i`: an entry's size field does not count itself. */
  ghost function Offset(entries: seq<Entry>, i: nat): nat
    requires i <= |entries|
  {
    if i == 0 then 0 else Offset(entries, i - 1) + (entries[i - 1].size + 4)
  }

  lemma {:induction false} OffsetGrows(entries: seq<Entry>, i: nat, j: nat)
    requires i <= j <= |entries|
    ensures Offset(entries, i) + 4 * (j - i) <= Offset(entries, j)
  {
    if i == j {
    } else {
      OffsetGrows(entries, i, j - 1);
    }
  }

  ghost predicate HoldsEntry(memory: map<nat, Entry>, addr: nat, entries: seq<Entry>, i: nat)
    requires i < |entries|
  {
    var at := addr + Offset(entries, i);
    at in memory && memory[at] == entries[i]
  }

  /** Memory holds the entries one after another from `addr`, and they fill `length` bytes of the address space. */
  ghost predicate LaidOut(memory: map<nat, Entry>, addr: nat, length: nat, entries: seq<Entry>) {
    && length == Offset(entries, |entries|) && addr + length < U32_LIMIT
    && forall i {:trigger HoldsEntry(memory, addr, entries, i)} :: 0 <= i < |entries| ==> HoldsEntry(memory, addr, entries, i)
  }

  datatype Allocation = Granted(start: nat) | Exhausted | Panicked

  class BumpAllocator {
    const image: Image
    const memory: map<nat, Entry>
    const memoryMapAddr: nat
    const memoryMapLength: nat
    var nextFreeFrame: Option<nat>
    var currentMmapOffset: nat
    ghost const entries: seq<Entry>
    ghost var index: nat

    ghost predicate Valid()
      reads this
    {
      && LaidOut(memory, memoryMapAddr, memoryMapLength, entries)
      && index <= |entries| && currentMmapOffset == Offset(entries, index)
    }

    ghost function At(): Cursor
      reads this
    {
      Cursor(index, nextFreeFrame)
    }

    /** Without a memory map from the boot loader the allocator behaves as on an empty one. */
    constructor (image: Image, hasMap: bool, memory: map<nat, Entry>, addr: nat, length: nat, ghost entries: seq<Entry>)
      requires hasMap ==> LaidOut(memory, addr, length, entries)
      ensures Valid() && At() == START
      ensures this.image == image && this.entries == if hasMap then entries else []
    {
      this.image := image;
      this.memory := memory;
      memoryMapAddr := if hasMap then addr else 0;
      memoryMapLength := if hasMap then length else 0;
      nextFreeFrame := None;
      currentMmapOffset := 0;
      this.entries := if hasMap then entries else [];
      index := 0;
    }

    /** Move to the next entry and forget the address reached in this one. */
    method NextEntry(size: nat)
      requires Valid() && index < |entries| && size == entries[index].size
      modifies this
      ensures Valid() && At() == Cursor(old(index) + 1, None)
      ensures currentMmapOffset == old(currentMmapOffset) + size + 4
      ensures currentMmapOffset < memoryMapLength <==> index < |entries|
    {
      OffsetGrows(entries, index + 1, |entries|);
      currentMmapOffset := currentMmapOffset + (size + 4);
      index := index + 1;
      nextFreeFrame := None;
    }

    method AllocateFrame() returns (r: Allocation)
      requires Valid()
      modifies this
      ensures Valid()
      ensures match Allocate(image, entries, old(At()))
              case Frame(f, c) => r == Granted(f) && At() == c
              case OutOfMemory(c) => r == Exhausted && At() == c
              case Overflow => r == Panicked
    {
      OffsetGrows(entries, index, |entries|);
      while currentMmapOffset < memoryMapLength
        invariant Valid()
        invariant Allocate(image, entries, At()) == Allocate(image, entries, old(At()))
        invariant currentMmapOffset < memoryMapLength <==> index < |entries|
        decreases |entries| - index
      {
        assert HoldsEntry(memory, memoryMapAddr, entries, index);
        var entry := memory[memoryMapAddr + currentMmapOffset];
        var regionEnd := RegionEnd(entry);
        var floor := AllocationFloor(entry);
        if !Available(entry) || floor >= regionEnd || floor >= U32_LIMIT {
          NextEntry(entry.size);
          continue;
        }
        r := TryRegion(floor, regionEnd);
        if !r.Exhausted? {
          return;
        }
        NextEntry(entry.size);
      }
      r := Exhausted;
    }

    /** The next frame of the region being walked, if it has one left. */
    method TryRegion(floor: nat, regionEnd: nat) returns (r: Allocation)
      requires Valid() && index < |entries| && Entered(entries[index])
      requires floor == AllocationFloor(entries[index]) && regionEnd == RegionEnd(entries[index])
      modifies this`nextFreeFrame
      ensures r.Granted? ==> Allocate(image, entries, old(At())) == Frame(r.start, At())
      ensures r.Panicked? ==> Allocate(image, entries, old(At())) == Overflow
      ensures r.Exhausted? ==> Allocate(image, entries, old(At())) == Allocate(image, entries, Cursor(index + 1, None))
    {
      if nextFreeFrame.None? {
        nextFreeFrame := Some(AlignUp(floor) % U32_LIMIT);
      }
      var candidate := nextFreeFrame.value;
      var kernelEndAligned := AlignUp(image.end);
      if kernelEndAligned >= U32_LIMIT {
        return Panicked;
      }
      if candidate < kernelEndAligned && Saturate(candidate + PAGE, U32_LIMIT) > image.start {
        candidate := kernelEndAligned;
        nextFreeFrame := Some(candidate);
      }
      var frameEnd := Saturate(candidate + PAGE, U32_LIMIT);
      if frameEnd <= regionEnd && frameEnd > candidate {
        if candidate + PAGE >= U32_LIMIT {
          return Panicked;
        }
        nextFreeFrame := Some(candidate + PAGE);
        return Granted(candidate);
      }
      r := Exhausted;
    }
  }

  lemma Reassociate(a: seq<nat>, x: nat, b: seq<nat>)
    ensures a + ([x] + b) == (a + [x]) + b
  {
  }

  /** Calling the allocator until it reports exhaustion collects every free frame once, in map order. */
  method Drain(image: Image, memory: map<nat, Entry>, addr: nat, length: nat, ghost entries: seq<Entry>)
    returns (frames: seq<nat>)
    requires LaidOut(memory, addr, length, entries)
    requires BenignMap(entries) && image.end <= LAST_PAGE
    ensures frames == AllFrames(image, entries)
  {
    var allocator := new BumpAllocator(image, true, memory, addr, length, entries);
    PendingAtStart(image, entries);
    frames := [];
    while true
      invariant allocator.Valid() && allocator.image == image && allocator.entries == entries
      invariant CursorOk(entries, allocator.At())
      invariant frames + Pending(image, entries, allocator.At()) == AllFrames(image, entries)
      decreases |Pending(image, entries, allocator.At())|
    {
      AllocateTakesFirst(image, entries, allocator.At());
      var r := allocator.AllocateFrame();
      if !r.Granted? {
        break;
      }
      Reassociate(frames, r.start, Pending(image, entries, allocator.At()));
      frames := frames + [r.start];
    }
  }
}
