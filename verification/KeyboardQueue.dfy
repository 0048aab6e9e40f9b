/**
  The ring buffer between the keyboard interrupt and the polling shell thread.
*/
module KeyboardQueue {
  import opened Wrappers

  const CAPACITY: nat := 128

  /** The slot `i` places after `h` in the ring. */
  function Slot(h: nat, i: nat): (r: nat)
    requires h < CAPACITY && i <= CAPACITY
    ensures r < CAPACITY && r == (h + i) % CAPACITY
  {
    if h + i < CAPACITY then h + i else h + i - CAPACITY
  }

  /** What a ring holds: `len` bytes from slot `head` on, going round. */
  ghost function Ring(data: seq<Byte>, head: nat, len: nat): (r: seq<Byte>)
    requires |data| == CAPACITY && head < CAPACITY && len <= CAPACITY
    ensures |r| == len && forall i :: 0 <= i < len ==> r[i] == data[Slot(head, i)]
  {
    seq(len, i requires 0 <= i < len => data[Slot(head, i)])
  }

  lemma RingPush(data: seq<Byte>, head: nat, len: nat, code: Byte)
    requires |data| == CAPACITY && head < CAPACITY && len < CAPACITY
    ensures Ring(data[Slot(head, len) := code], head, len + 1) == Ring(data, head, len) + [code]
  {
    var after := data[Slot(head, len) := code];
    assert forall i :: 0 <= i < len ==> Slot(head, i) != Slot(head, len);
    assert forall i :: 0 <= i < len ==> after[Slot(head, i)] == data[Slot(head, i)];
  }

  lemma RingPop(data: seq<Byte>, head: nat, len: nat)
    requires |data| == CAPACITY && head < CAPACITY && 0 < len <= CAPACITY
    ensures [data[head]] + Ring(data, Slot(head, 1), len - 1) == Ring(data, head, len)
  {
    assert forall i :: 0 <= i < len - 1 ==> Slot(Slot(head, 1), i) == Slot(head, i + 1);
    assert Slot(head, 0) == head;
  }

  lemma MoveOver(taken: seq<Byte>, code: Byte, left: seq<Byte>)
    ensures taken + ([code] + left) == taken + [code] + left
  {
  }

  /** `accepted` and `processed` record every scancode ever let in and every one ever taken out. */
  class ScancodeQueue {
    const data: array<Byte>
    var head: nat
    var tail: nat
    var len: nat
    ghost var accepted: seq<Byte>
    ghost var processed: seq<Byte>

    ghost function Contents(): seq<Byte>
      reads this, data
      requires data.Length == CAPACITY && head < CAPACITY && len <= CAPACITY
    {
      Ring(data[..], head, len)
    }

    /** In order, what was accepted is what was processed followed by what is still in the ring. */
    ghost predicate Valid()
      reads this, data
    {
      && data.Length == CAPACITY && head < CAPACITY && len <= CAPACITY
      && tail == (head + len) % CAPACITY
      && accepted == processed + Contents()
    }

    constructor ()
      ensures Valid() && fresh(data) && accepted == [] && processed == [] && Contents() == []
    {
      data := new Byte[CAPACITY](_ => 0);
      head, tail, len := 0, 0, 0;
      accepted, processed := [], [];
    }

    /** From the interrupt handler: a full ring drops the scancode. */
    method Push(scancode: Byte) returns (ok: bool)
      requires Valid()
      modifies this, data
      ensures Valid() && processed == old(processed)
      ensures ok == (|old(Contents())| < 128)
      ensures accepted == if ok then old(accepted) + [scancode] else old(accepted)
      ensures Contents() == if ok then old(Contents()) + [scancode] else old(Contents())
    {
      if len == CAPACITY {
        return false;
      }
      RingPush(data[..], head, len, scancode);
      ghost var before := data[..];
      data[tail] := scancode;
      assert data[..] == before[tail := scancode];
      tail := (tail + 1) % CAPACITY;
      len := len + 1;
      accepted := accepted + [scancode];
      ok := true;
    }

    method Pop() returns (r: Option<Byte>)
      requires Valid()
      modifies this
      ensures Valid() && accepted == old(accepted)
      ensures r.None? <==> old(Contents()) == []
      ensures r.None? ==> Contents() == [] && processed == old(processed)
      ensures r.Some? ==> processed == old(processed) + [r.value] && [r.value] + Contents() == old(Contents())
    {
      if len == 0 {
        return None;
      }
      RingPop(data[..], head, len);
      ghost var held := data[..];
      var scancode := data[head];
      head := (head + 1) % CAPACITY;
      len := len - 1;
      processed := processed + [scancode];
      assert Contents() == Ring(held, Slot(old(head), 1), old(len) - 1);
      MoveOver(old(processed), scancode, Contents());
      r := Some(scancode);
    }
  }
}
