/**
  The line editor as the shell thread runs it, fed from the scancode ring.  Each
  method is proved to do to the editor's state what module `LineModel` says.
*/
module LineEditing {
  import opened Wrappers
  import opened KeyboardQueue
  import opened LineModel
  import opened LineRuns

  const BACKSPACE: char := '\U{0008}'

  class HistoryState {
    var entries: seq<string>
    var index: Option<nat>
    var draft: string

    function View(): History
      reads this
    {
      History(entries, index, draft)
    }

    constructor ()
      ensures View() == INITIAL.history
    {
      entries, index, draft := [], None, "";
    }

    method Reset()
      modifies this
      ensures View() == ResetNavigation(old(View()))
    {
      index := None;
      draft := "";
    }

    method RecordCommand(command: string)
      modifies this
      ensures View() == Record(old(View()), command)
    {
      if command == "" {
        Reset();
        return;
      }
      var shouldPush := |entries| == 0 || entries[|entries| - 1] != command;
      if shouldPush {
        if |entries| >= MAX_HISTORY {
          entries := entries[1..];
        }
        entries := entries + [command];
      }
      Reset();
    }

    method Previous(line: string) returns (r: Option<string>)
      requires IndexOk(View())
      modifies this
      ensures match Older(old(View()), line)
              case None => r == None && View() == old(View())
              case Some(h) => View() == h && r == Some(h.entries[h.index.value])
    {
      if |entries| == 0 {
        return None;
      }
      match index {
        case None =>
          draft := line;
          index := Some(|entries| - 1);
        case Some(i) =>
          if i > 0 {
            index := Some(i - 1);
          }
      }
      r := Some(entries[index.value]);
    }

    method Next() returns (r: Option<string>)
      requires IndexOk(View())
      modifies this
      ensures if old(index).None? then r == None && View() == old(View())
              else View() == Newer(old(View())) && r == Some(if index.Some? then entries[index.value] else draft)
    {
      if index.None? {
        return None;
      }
      var i := index.value;
      if i + 1 < |entries| {
        index := Some(i + 1);
        return Some(entries[i + 1]);
      }
      index := None;
      r := Some(draft);
    }
  }

  class LineEditor {
    var shiftPressed: bool
    var capsLock: bool
    var extendedPrefix: bool
    var buffer: string
    const history: HistoryState

    function View(): Editor
      reads this, history
    {
      Editor(Keyboard(shiftPressed, capsLock, extendedPrefix), buffer, history.View())
    }

    constructor ()
      ensures View() == INITIAL && fresh(history)
    {
      shiftPressed, capsLock, extendedPrefix, buffer := false, false, false, "";
      history := new HistoryState();
    }

    method ReplaceInputLine(text: string)
      modifies this`buffer
      ensures buffer == Clip(text)
    {
      buffer := "";
      var i := 0;
      while i < |text|
        invariant i <= |text| && i <= MAX_INPUT && buffer == text[..i]
      {
        if |buffer| >= MAX_INPUT {
          break;
        }
        buffer := buffer + [text[i]];
        i := i + 1;
      }
      assert text[..|text|] == text;
    }

    method HistoryUp()
      requires IndexOk(history.View())
      modifies this, history
      ensures View() == Up(old(View()))
    {
      var previous := history.Previous(buffer);
      if previous.Some? {
        ReplaceInputLine(previous.value);
      }
    }

    method HistoryDown()
      requires IndexOk(history.View())
      modifies this, history
      ensures View() == Down(old(View()))
    {
      var next := history.Next();
      if next.Some? {
        ReplaceInputLine(next.value);
      }
    }

    method EvaluateCommand()
      modifies this, history
      ensures View() == Submit(old(View()))
    {
      var line := Trim(buffer);
      buffer := "";
      if line == "" {
        history.Reset();
      } else {
        history.RecordCommand(line);
      }
    }

    method PushChar(c: char)
      modifies this, history
      ensures View() == if c == BACKSPACE then EraseLast(old(View()))
                        else if c == '\n' then Submit(old(View()))
                        else Insert(old(View()), c)
    {
      if c == BACKSPACE {
        history.Reset();
        if buffer != "" {
          buffer := buffer[..|buffer| - 1];
        }
        return;
      }
      if c == '\n' {
        EvaluateCommand();
        return;
      }
      if |buffer| < MAX_INPUT {
        history.Reset();
        buffer := buffer + [c];
      }
    }

    method ProcessScancode(code: Byte)
      requires EditorOk(View())
      modifies this, history
      ensures View() == Process(old(View()), code)
    {
      if code == PREFIX {
        extendedPrefix := true;
        return;
      }
      if extendedPrefix {
        extendedPrefix := false;
        if code == 0x48 {
          HistoryUp();
        } else if code == 0x50 {
          HistoryDown();
        }
        return;
      }
      if code >= 0x80 {
        if code == 0xAA || code == 0xB6 {
          shiftPressed := false;
        }
        return;
      }
      ProcessMake(code);
    }

    /** A key press that is not prefixed. */
    method ProcessMake(code: Byte)
      requires code < 0x80
      modifies this, history
      ensures View() == Plain(old(View()), code)
    {
      if code == 0x2A || code == 0x36 {
        shiftPressed := true;
      } else if code == 0x3A {
        capsLock := !capsLock;
      } else if code == 0x0E {
        PushChar(BACKSPACE);
      } else if code == 0x1C {
        PushChar('\n');
      } else if code == 0x0F {
        for i := 0 to 4
          invariant View() == InsertMany(old(View()), ' ', i)
        {
          PushChar(' ');
        }
      } else {
        var key := MapKey(code, shiftPressed, capsLock);
        if key.Some? {
          KeysArePrintable(code, shiftPressed, capsLock);
          PushChar(key.value);
        }
      }
    }
  }

  /** The shell's input side: the ring the interrupt handler fills and the editor the polling thread drives. */
  class Shell {
    const queue: ScancodeQueue
    const editor: LineEditor

    /** The editor is in the state the scancodes taken out of the ring so far lead to. */
    ghost predicate Valid()
      reads this, queue, queue.data, editor, editor.history
    {
      queue.Valid() && editor.View() == Typed(queue.processed)
    }

    /** All the scancodes accepted and all the scancodes processed so far. */
    ghost function Ledger(): Traffic
      reads this, queue
    {
      Traffic(queue.accepted, queue.processed)
    }

    constructor ()
      ensures Valid() && queue.accepted == []
    {
      queue := new ScancodeQueue();
      editor := new LineEditor();
    }

    method EnqueueFromIrq(code: Byte)
      requires Valid()
      modifies queue, queue.data
      ensures Valid() && queue.processed == old(queue.processed)
      ensures queue.accepted == old(queue.accepted) + Admitted(old(queue.Contents()), [code])
      ensures queue.Contents() == old(queue.Contents()) + Admitted(old(queue.Contents()), [code])
    {
      var ok := queue.Push(code);
    }

    /** Take one scancode out of the ring and act on it. */
    method PollOnce() returns (more: bool)
      requires Valid()
      modifies queue, editor, editor.history
      ensures Valid() && queue.accepted == old(queue.accepted)
      ensures more <==> old(queue.Contents()) != []
      ensures if more then queue.processed == old(queue.processed) + [old(queue.Contents())[0]]
                           && queue.Contents() == old(queue.Contents())[1..]
              else queue.Contents() == [] && queue.processed == old(queue.processed)
    {
      ghost var before := queue.processed;
      var code := queue.Pop();
      if code.None? {
        return false;
      }
      TypedSnoc(before, code.value);
      editor.ProcessScancode(code.value);
      more := true;
    }

    /** One round of a poll, a burst of interrupts arriving first. */
    method PollRound(burst: seq<Byte>) returns (more: bool)
      requires Valid()
      modifies queue, queue.data, editor, editor.history
      ensures Valid()
      ensures more == !Idle(old(queue.Contents()), burst)
      ensures Ledger() == Joined(old(Ledger()), Round(old(queue.Contents()), burst))
      ensures queue.Contents() == Left(old(queue.Contents()), burst)
    {
      Deliver(burst);
      more := PollOnce();
    }

    /** Poll, with `arrivals[k]` the scancodes that interrupts deliver before the k-th pop: what is accepted and what
        is processed is what `Polled` says, and the editor has seen exactly the processed codes, in order. */
    method PollInput(arrivals: seq<seq<Byte>>)
      requires Valid()
      modifies queue, queue.data, editor, editor.history
      ensures Valid()
      ensures Ledger() == Joined(old(Ledger()), Polled(old(queue.Contents()), arrivals, 0))
    {
      var processed := 0;
      ghost var end := Joined(Ledger(), Polled(queue.Contents(), arrivals, 0));
      while processed < CAPACITY
        invariant Valid() && processed <= CAPACITY
        invariant Joined(Ledger(), Polled(queue.Contents(), arrivals, processed)) == end
      {
        PolledFrom(Ledger(), queue.Contents(), arrivals, processed);
        var burst := Burst(arrivals, processed);
        var more := PollRound(burst);
        if !more {
          return;
        }
        processed := processed + 1;
      }
      JoinedAssoc(Ledger(), Traffic([], []), Traffic([], []));
    }

    /** A burst of interrupts: as many of the codes as the ring has room for are accepted, in order. */
    method Deliver(codes: seq<Byte>)
      requires Valid()
      modifies queue, queue.data
      ensures Valid() && queue.processed == old(queue.processed)
      ensures queue.accepted == old(queue.accepted) + Admitted(old(queue.Contents()), codes)
      ensures queue.Contents() == old(queue.Contents()) + Admitted(old(queue.Contents()), codes)
    {
      ghost var before := queue.Contents();
      for i := 0 to |codes|
        invariant Valid() && queue.processed == old(queue.processed)
        invariant queue.accepted == old(queue.accepted) + Admitted(before, codes[..i])
        invariant queue.Contents() == before + Admitted(before, codes[..i])
      {
        AdmittedGrows(before, codes, i);
        EnqueueFromIrq(codes[i]);
      }
      assert codes[..|codes|] == codes;
    }
  }

  /** The codes of a burst that fit behind `contents` in the ring. */
  ghost function Admitted(contents: seq<Byte>, codes: seq<Byte>): seq<Byte> {
    if |contents| + |codes| <= CAPACITY then codes
    else if |contents| >= CAPACITY then []
    else codes[..CAPACITY - |contents|]
  }

  /** Admitting one more code of a burst, after the codes before it. */
  lemma AdmittedGrows(contents: seq<Byte>, codes: seq<Byte>, i: nat)
    requires |contents| <= CAPACITY && i < |codes|
    ensures var a := Admitted(contents, codes[..i]);
            var b := Admitted(contents + a, [codes[i]]);
            Admitted(contents, codes[..i + 1]) == a + b
            && (contents + a) + b == contents + Admitted(contents, codes[..i + 1])
  {
    if |contents| + i < CAPACITY {
      assert codes[..i + 1] == codes[..i] + [codes[i]];
    } else if |contents| < CAPACITY {
      assert codes[..i + 1][..CAPACITY - |contents|] == codes[..i][..CAPACITY - |contents|];
    }
  }

  /** The codes accepted into the ring and the codes taken out of it over some time. */
  datatype Traffic = Traffic(accepted: seq<Byte>, processed: seq<Byte>)

  ghost function Joined(a: Traffic, b: Traffic): Traffic {
    Traffic(a.accepted + b.accepted, a.processed + b.processed)
  }

  lemma JoinedAssoc(a: Traffic, b: Traffic, c: Traffic)
    ensures Joined(a, Joined(b, c)) == Joined(Joined(a, b), c)
    ensures Joined(a, Traffic([], [])) == a
  {
  }

  /** A round with nothing in the ring and nothing arriving ends the poll. */
  ghost predicate Idle(contents: seq<Byte>, burst: seq<Byte>) {
    contents + Admitted(contents, burst) == []
  }

  /** The traffic of one round: the part of the burst that fits comes in, the oldest code goes out. */
  ghost function Round(contents: seq<Byte>, burst: seq<Byte>): Traffic {
    var arrived := Admitted(contents, burst);
    Traffic(arrived, if Idle(contents, burst) then [] else [(contents + arrived)[0]])
  }

  /** What one round leaves in the ring. */
  ghost function Left(contents: seq<Byte>, burst: seq<Byte>): seq<Byte> {
    if Idle(contents, burst) then [] else (contents + Admitted(contents, burst))[1..]
  }

  function Burst(arrivals: seq<seq<Byte>>, k: nat): seq<Byte> {
    if k < |arrivals| then arrivals[k] else []
  }

  /** The traffic of a poll from its k-th round on. */
  ghost function Polled(contents: seq<Byte>, arrivals: seq<seq<Byte>>, k: nat): Traffic
    decreases CAPACITY - k
  {
    if k >= CAPACITY then Traffic([], [])
    else
      var burst := Burst(arrivals, k);
      if Idle(contents, burst) then Round(contents, burst)
      else Joined(Round(contents, burst), Polled(Left(contents, burst), arrivals, k + 1))
  }

  /** A poll from its k-th round on, added to the traffic so far: the round first, then the rest. */
  lemma PolledFrom(soFar: Traffic, contents: seq<Byte>, arrivals: seq<seq<Byte>>, k: nat)
    requires k < CAPACITY
    ensures var burst := Burst(arrivals, k);
            var after := Joined(soFar, Round(contents, burst));
            Joined(soFar, Polled(contents, arrivals, k)) ==
            if Idle(contents, burst) then after
            else Joined(after, Polled(Left(contents, burst), arrivals, k + 1))
  {
    var burst := Burst(arrivals, k);
    JoinedAssoc(soFar, Round(contents, burst), Polled(Left(contents, burst), arrivals, k + 1));
  }

  /** With no interrupts in between, one poll takes out everything in the ring. */
  lemma {:induction false} PollEmptiesRing(contents: seq<Byte>, k: nat)
    requires |contents| + k <= CAPACITY
    ensures Polled(contents, [], k) == Traffic([], contents)
    decreases CAPACITY - k
  {
    if k == CAPACITY {
    } else {
      assert Admitted(contents, []) == [] && contents + [] == contents;
      if contents == [] {
      } else {
        PollEmptiesRing(contents[1..], k + 1);
        assert [contents[0]] + contents[1..] == contents;
      }
    }
  }
}
