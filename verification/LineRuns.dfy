/** Theorems about the line editor over whole scancode streams and over history navigation. */
module LineRuns {
  import opened Wrappers
  import opened LineModel

  // ---- Streams ----

  /** The editor after a stream of scancodes, starting from `e`. */
  function ProcessAll(e: Editor, codes: seq<Byte>): (r: Editor)
    requires EditorOk(e)
    ensures EditorOk(r)
  {
    if codes == [] then e
    else
      var before := ProcessAll(e, codes[..|codes| - 1]);
      ProcessKeeps(before, codes[|codes| - 1]);
      Process(before, codes[|codes| - 1])
  }

  /** The editor after all the scancodes since boot. */
  function Typed(codes: seq<Byte>): (e: Editor)
    ensures EditorOk(e)
  {
    ProcessAll(INITIAL, codes)
  }

  lemma {:induction false} ProcessAllConcat(e: Editor, a: seq<Byte>, b: seq<Byte>)
    requires EditorOk(e)
    ensures ProcessAll(e, a + b) == ProcessAll(ProcessAll(e, a), b)
  {
    if b == [] {
      assert a + b == a;
    } else {
      var front := b[..|b| - 1];
      assert (a + b)[..|a + b| - 1] == a + front;
      ProcessAllConcat(e, a, front);
    }
  }

  /** The code at `i` is a code of its own: not the prefix byte and not right after one. */
  predicate Unprefixed(codes: seq<Byte>, i: nat)
    requires i < |codes|
  {
    codes[i] != 0xE0 && (i == 0 || codes[i - 1] != 0xE0)
  }

  function CapsMakes(codes: seq<Byte>, n: nat): nat
    requires n <= |codes|
  {
    if n == 0 then 0 else CapsMakes(codes, n - 1) + if Unprefixed(codes, n - 1) && codes[n - 1] == 0x3A then 1 else 0
  }

  ghost predicate NoReleaseSince(codes: seq<Byte>, i: nat, n: nat)
    requires n <= |codes|
  {
    forall j :: i < j < n && Unprefixed(codes, j) ==> codes[j] != 0xAA && codes[j] != 0xB6
  }

  /** Shift is held at `n`: some shift key was pressed and none has been released since. */
  ghost predicate ShiftHeld(codes: seq<Byte>, n: nat)
    requires n <= |codes|
  {
    exists i :: 0 <= i < n && Unprefixed(codes, i) && codes[i] in {0x2A, 0x36} && NoReleaseSince(codes, i, n)
  }

  /** What `Process` does to the keyboard, by the kind of code. */
  lemma KeyboardMoves(e: Editor, code: Byte)
    requires EditorOk(e)
    ensures var k := Process(e, code).keyboard;
            && k.prefix == (code == PREFIX)
            && (if code == PREFIX || e.keyboard.prefix then k.caps == e.keyboard.caps && k.shift == e.keyboard.shift
                else
                  && k.caps == (if code == CAPS then !e.keyboard.caps else e.keyboard.caps)
                  && k.shift == (if ShiftMake(code) then true else if ShiftBreak(code) then false else e.keyboard.shift))
  {
    if code == 0x0F {
      InsertManyKeeps(e, ' ', 4);
    }
  }

  lemma ShiftGrows(codes: seq<Byte>, n: nat)
    requires 0 < n <= |codes|
    ensures ShiftHeld(codes, n) ==
            if !Unprefixed(codes, n - 1) then ShiftHeld(codes, n - 1)
            else if ShiftMake(codes[n - 1]) then true
            else if ShiftBreak(codes[n - 1]) then false
            else ShiftHeld(codes, n - 1)
  {
    if ShiftHeld(codes, n - 1) {
      var i :| 0 <= i < n - 1 && Unprefixed(codes, i) && codes[i] in {0x2A, 0x36} && NoReleaseSince(codes, i, n - 1);
      assert (Unprefixed(codes, n - 1) && ShiftBreak(codes[n - 1])) || NoReleaseSince(codes, i, n);
    }
    if Unprefixed(codes, n - 1) && ShiftMake(codes[n - 1]) {
      assert NoReleaseSince(codes, n - 1, n);
    }
    if ShiftHeld(codes, n) && !(Unprefixed(codes, n - 1) && ShiftMake(codes[n - 1])) {
      var i :| 0 <= i < n && Unprefixed(codes, i) && codes[i] in {0x2A, 0x36} && NoReleaseSince(codes, i, n);
      assert NoReleaseSince(codes, i, n - 1);
    }
  }

  ghost predicate Decided(k: Keyboard, codes: seq<Byte>, n: nat)
    requires n <= |codes|
  {
    && k.prefix == (n > 0 && codes[n - 1] == 0xE0)
    && k.caps == (CapsMakes(codes, n) % 2 == 1)
    && k.shift == ShiftHeld(codes, n)
  }

  lemma TypedGrows(codes: seq<Byte>, n: nat)
    requires 0 < n <= |codes|
    ensures Typed(codes[..n]) == Process(Typed(codes[..n - 1]), codes[n - 1])
  {
    assert codes[..n][..n - 1] == codes[..n - 1];
  }

  lemma DecidedStep(e: Editor, codes: seq<Byte>, n: nat)
    requires 0 < n <= |codes| && EditorOk(e) && Decided(e.keyboard, codes, n - 1)
    ensures Decided(Process(e, codes[n - 1]).keyboard, codes, n)
  {
    KeyboardMoves(e, codes[n - 1]);
    ShiftGrows(codes, n);
    assert Unprefixed(codes, n - 1) <==> codes[n - 1] != PREFIX && !e.keyboard.prefix;
  }

  /** After any stream: the prefix flag says the last byte was the prefix, caps lock is the parity of its unprefixed
      presses, and shift is what the latest unprefixed shift event left. */
  lemma {:induction false} KeyboardIsDecidedByStream(codes: seq<Byte>, n: nat)
    requires n <= |codes|
    ensures Decided(Typed(codes[..n]).keyboard, codes, n)
  {
    if n == 0 {
    } else {
      KeyboardIsDecidedByStream(codes, n - 1);
      TypedGrows(codes, n);
      DecidedStep(Typed(codes[..n - 1]), codes, n);
    }
  }

  /** After a prefixed code: shift, caps and entries as they were, and the line unchanged but for the vertical arrows. */
  ghost predicate NothingTyped(e: Editor, code: Byte, f: Editor) {
    && f.keyboard == e.keyboard.(prefix := false)
    && f.history.entries == e.history.entries
    && (f.buffer == e.buffer || f.buffer in e.history.entries || f.buffer == e.history.draft)
    && (code != 0x48 && code != 0x50 ==> f.buffer == e.buffer && f.history == e.history)
  }

  lemma ExtendedNeverTypes(e: Editor, code: Byte)
    requires EditorOk(e)
    ensures NothingTyped(e, code, Extended(e, code))
  {
    assert forall i :: 0 <= i < |e.history.entries| ==> LineOk(e.history.entries[i]);
  }

  /** A code after the prefix never types: it moves in the history or does nothing. */
  lemma PrefixedCodesNeverType(codes: seq<Byte>, code: Byte)
    requires codes != [] && codes[|codes| - 1] == 0xE0 && code != 0xE0
    ensures NothingTyped(Typed(codes), code, Typed(codes + [code]))
  {
    assert codes[..|codes|] == codes && (codes + [code])[..|codes|] == codes;
    KeyboardIsDecidedByStream(codes, |codes|);
    ExtendedNeverTypes(Typed(codes), code);
  }

  // ---- Typing ----

  /** A press of a key that types a character under the given shift and caps lock. */
  predicate Types(k: Keyboard, code: Byte) {
    && code < 0x80 && !ShiftMake(code) && code != CAPS
    && code != 0x0E && code != 0x1C && code != 0x0F
    && MapKey(code, k.shift, k.caps).Some?
  }

  function TypedText(k: Keyboard, codes: seq<Byte>): string
    requires forall i :: 0 <= i < |codes| ==> Types(k, codes[i])
  {
    if codes == [] then ""
    else
      assert Types(k, codes[|codes| - 1]);
      TypedText(k, codes[..|codes| - 1]) + [MapKey(codes[|codes| - 1], k.shift, k.caps).value]
  }

  lemma ClipGrows(s: string, c: char)
    ensures Clip(s + [c]) == if |Clip(s)| < MAX_INPUT then Clip(s) + [c] else Clip(s)
  {
    if |s| >= MAX_INPUT {
      assert (s + [c])[..MAX_INPUT] == s[..MAX_INPUT];
    }
  }

  /** Typing character keys appends their text to the line, up to 256 characters. */
  lemma {:induction false} TypingFillsTheLine(e: Editor, codes: seq<Byte>)
    requires EditorOk(e) && !e.keyboard.prefix
    requires forall i :: 0 <= i < |codes| ==> Types(e.keyboard, codes[i])
    ensures ProcessAll(e, codes).keyboard == e.keyboard
    ensures ProcessAll(e, codes).buffer == Clip(e.buffer + TypedText(e.keyboard, codes))
  {
    if codes == [] {
      assert e.buffer + "" == e.buffer;
    } else {
      var front, code := codes[..|codes| - 1], codes[|codes| - 1];
      TypingFillsTheLine(e, front);
      assert Types(e.keyboard, code);
      var text, c := TypedText(e.keyboard, front), MapKey(code, e.keyboard.shift, e.keyboard.caps).value;
      ClipGrows(e.buffer + text, c);
      assert e.buffer + (text + [c]) == (e.buffer + text) + [c];
    }
  }

  /** The stream does not end in the prefix byte. */
  predicate Listening(codes: seq<Byte>) {
    codes == [] || codes[|codes| - 1] != 0xE0
  }

  lemma NoPrefixPending(codes: seq<Byte>)
    requires Listening(codes)
    ensures !Typed(codes).keyboard.prefix
  {
    assert codes[..|codes|] == codes;
    KeyboardIsDecidedByStream(codes, |codes|);
  }

  lemma TypedSnoc(codes: seq<Byte>, code: Byte)
    ensures Typed(codes + [code]) == Process(Typed(codes), code)
  {
    assert (codes + [code])[..|codes|] == codes;
  }

  /** After any stream that does not end in the prefix byte, typing character keys appends their text to the line. */
  lemma TypingAfterAnyStream(codes: seq<Byte>, keys: seq<Byte>)
    requires Listening(codes)
    requires forall i :: 0 <= i < |keys| ==> Types(Typed(codes).keyboard, keys[i])
    ensures Typed(codes + keys).buffer == Clip(Typed(codes).buffer + TypedText(Typed(codes).keyboard, keys))
  {
    NoPrefixPending(codes);
    ProcessAllConcat(INITIAL, codes, keys);
    TypingFillsTheLine(Typed(codes), keys);
  }

  // ---- History navigation ----

  function Ups(e: Editor, k: nat): (r: Editor)
    requires IndexOk(e.history)
    ensures IndexOk(r.history)
  {
    if k == 0 then e else Up(Ups(e, k - 1))
  }

  function Downs(e: Editor, k: nat): (r: Editor)
    requires IndexOk(e.history)
    ensures IndexOk(r.history)
  {
    if k == 0 then e else Down(Downs(e, k - 1))
  }

  function Min(a: nat, b: nat): nat {
    if a < b then a else b
  }

  /** Showing entry `i` of the history of `e`, with the line of `e` kept as the draft. */
  function Showing(e: Editor, i: nat): Editor
    requires i < |e.history.entries|
  {
    e.(buffer := e.history.entries[i], history := History(e.history.entries, Some(i), e.buffer))
  }

  /** The state navigation comes back to: everything as before, but for a draft that no longer matters. */
  function BackAt(e: Editor): Editor {
    e.(history := e.history.(draft := e.buffer))
  }

  lemma EntriesFit(e: Editor, i: nat)
    requires EditorOk(e) && i < |e.history.entries|
    ensures Clip(e.history.entries[i]) == e.history.entries[i] && Clip(e.buffer) == e.buffer
  {
  }

  lemma UpOnce(e: Editor)
    requires EditorOk(e) && e.history.entries != []
    ensures e.history.index.None? ==> Up(e) == Showing(e, |e.history.entries| - 1)
    ensures forall i :: 0 <= i < |e.history.entries| ==> Up(Showing(e, i)) == Showing(e, if i == 0 then 0 else i - 1)
  {
    forall i | 0 <= i < |e.history.entries|
      ensures Clip(e.history.entries[i]) == e.history.entries[i]
    {
      EntriesFit(e, i);
    }
  }

  /** Showing entry `i`, or the line again once `i` is past the newest entry. */
  function Shown(e: Editor, i: nat): Editor {
    if i < |e.history.entries| then Showing(e, i) else BackAt(e)
  }

  lemma DownOnce(e: Editor, i: nat)
    requires EditorOk(e) && e.history.index.None?
    ensures Down(Shown(e, i)) == Shown(e, i + 1)
  {
    if i < |e.history.entries| {
      EntriesFit(e, if i + 1 < |e.history.entries| then i + 1 else i);
    }
  }

  /** k ups show the newest entries backwards and stop at the oldest. */
  lemma {:induction false} UpsShowOlder(e: Editor, k: nat)
    requires EditorOk(e) && e.history.index.None? && e.history.entries != [] && k > 0
    ensures Ups(e, k) == Showing(e, |e.history.entries| - Min(k, |e.history.entries|))
  {
    UpOnce(e);
    if k > 1 {
      UpsShowOlder(e, k - 1);
    } else {
      assert Ups(e, 0) == e;
    }
  }

  /** m downs from entry `i` show the newer entries forwards and end at the draft. */
  lemma {:induction false} DownsShowNewer(e: Editor, i: nat, m: nat)
    requires EditorOk(e) && i < |e.history.entries| && e.history.index.None?
    ensures Downs(Showing(e, i), m) == Shown(e, i + m)
  {
    if m == 0 {
    } else {
      DownsShowNewer(e, i, m - 1);
      DownOnce(e, i + m - 1);
    }
  }

  /** `m` downs after `k` ups: the line is back, or an entry in between is shown. */
  ghost predicate Undone(e: Editor, k: nat, m: nat, r: Editor) {
    var n := |e.history.entries|;
    && r.history.entries == e.history.entries
    && if m >= Min(k, n) then r.buffer == e.buffer && r.history.index.None?
       else r.buffer == e.history.entries[n - Min(k, n) + m]
  }

  lemma ShownIsUndone(e: Editor, k: nat, m: nat)
    requires k > 0 && e.history.entries != [] && e.history.index.None?
    ensures var n := |e.history.entries|;
            var i := n - Min(k, n);
            Undone(e, k, m, Shown(e, i + m))
  {
  }

  lemma NavigationShown(e: Editor, k: nat, m: nat)
    requires EditorOk(e) && e.history.index.None? && k > 0 && e.history.entries != []
    ensures var n := |e.history.entries|;
            var i := n - Min(k, n);
            Downs(Ups(e, k), m) == Shown(e, i + m)
  {
    var i := |e.history.entries| - Min(k, |e.history.entries|);
    UpsShowOlder(e, k);
    DownsShowNewer(e, i, m);
  }

  /** Navigation undoes itself: after k ups, min(k, entries) downs or more bring the line back, and fewer show
      the entries in between. */
  lemma NavigationUndoesItself(e: Editor, k: nat, m: nat)
    requires EditorOk(e) && e.history.index.None?
    ensures Undone(e, k, m, Downs(Ups(e, k), m))
  {
    if k == 0 || e.history.entries == [] {
      UpsIdle(e, k);
      DownsIdle(e, m);
    } else {
      NavigationShown(e, k, m);
      ShownIsUndone(e, k, m);
    }
  }

  lemma {:induction false} UpsIdle(e: Editor, k: nat)
    requires IndexOk(e.history) && (k == 0 || e.history.entries == [])
    ensures Ups(e, k) == e
  {
    if k == 0 {
    } else {
      UpsIdle(e, k - 1);
    }
  }

  lemma {:induction false} DownsIdle(e: Editor, m: nat)
    requires e.history.index.None?
    ensures Downs(e, m) == e
  {
    if m == 0 {
    } else {
      DownsIdle(e, m - 1);
    }
  }
}
