/**
  What the keys do, over whole scancode streams: characters and their erasure, Tab,
  Enter and the history it builds, and the arrow keys.
*/
module LineLaws {
  import opened Wrappers
  import opened LineModel
  import opened LineRuns

  // ---- The keyboard ----

  /** The character of a code in a row of keys whose first code is `base`. */
  function InRow(code: Byte, base: nat, row: string): Option<char> {
    if base <= code as nat < base + |row| then Some(row[code as nat - base]) else None
  }

  /** The keys that type, row by row, without and with shift. */
  function Layout(code: Byte, shifted: bool): Option<char> {
    if code < 0x10 then InRow(code, 0x02, if shifted then "!@#$%^&*()_+" else "1234567890-=")
    else if code < 0x1E then InRow(code, 0x10, if shifted then "QWERTYUIOP{}" else "qwertyuiop[]")
    else if code < 0x2B then InRow(code, 0x1E, if shifted then "ASDFGHJKL:\"~" else "asdfghjkl;'`")
    else if code < 0x37 then InRow(code, 0x2B, if shifted then "|ZXCVBNM<>?" else "\\zxcvbnm,./")
    else if code == 0x37 then Some('*')
    else if code == 0x39 then Some(' ')
    else InRow(code, 0x47, "789-456+1230.")
  }

  predicate IsLetter(c: char) {
    'a' <= c <= 'z' || 'A' <= c <= 'Z'
  }

  /** The key types as its row says; caps lock turns shift round for a letter and for nothing else. */
  predicate Follows(code: Byte, shifted: bool, caps: bool) {
    var c := Layout(code, shifted);
    MapKey(code, shifted, caps) == if caps && c.Some? && IsLetter(c.value) then Layout(code, !shifted) else c
  }

  lemma DigitRow(code: Byte, shifted: bool, caps: bool)
    requires code < 0x10
    ensures Follows(code, shifted, caps)
  {
  }

  lemma TopRow(code: Byte, shifted: bool, caps: bool)
    requires 0x10 <= code < 0x1E
    ensures Follows(code, shifted, caps)
  {
  }

  lemma HomeRow(code: Byte, shifted: bool, caps: bool)
    requires 0x1E <= code < 0x2B
    ensures Follows(code, shifted, caps)
  {
  }

  lemma BottomRow(code: Byte, shifted: bool, caps: bool)
    requires 0x2B <= code < 0x37
    ensures Follows(code, shifted, caps)
  {
  }

  lemma Keypad(code: Byte, shifted: bool, caps: bool)
    requires 0x37 <= code
    ensures Follows(code, shifted, caps)
  {
  }

  lemma KeysFollowLayout(code: Byte, shifted: bool, caps: bool)
    ensures Follows(code, shifted, caps)
  {
    if code < 0x10 {
      DigitRow(code, shifted, caps);
    } else if code < 0x1E {
      TopRow(code, shifted, caps);
    } else if code < 0x2B {
      HomeRow(code, shifted, caps);
    } else if code < 0x37 {
      BottomRow(code, shifted, caps);
    } else {
      Keypad(code, shifted, caps);
    }
  }

  // ---- One more code ----

  lemma StartsEmpty()
    ensures var e := Typed([]); e.buffer == "" && e.history == History([], None, "")
  {
  }

  /** The character a code types after a stream: by its row, the latest shift event and the parity of caps lock. */
  ghost function Key(codes: seq<Byte>, code: Byte): Option<char> {
    var shifted, caps := ShiftHeld(codes, |codes|), CapsMakes(codes, |codes|) % 2 == 1;
    var c := Layout(code, shifted);
    if caps && c.Some? && IsLetter(c.value) then Layout(code, !shifted) else c
  }

  lemma KeyIsMapped(codes: seq<Byte>, code: Byte)
    ensures var k := Typed(codes).keyboard; MapKey(code, k.shift, k.caps) == Key(codes, code)
  {
    assert codes[..|codes|] == codes;
    KeyboardIsDecidedByStream(codes, |codes|);
    KeysFollowLayout(code, ShiftHeld(codes, |codes|), CapsMakes(codes, |codes|) % 2 == 1);
  }

  lemma NoKey(codes: seq<Byte>, code: Byte)
    requires code >= 0x80 || code in {0x0E, 0x0F, 0x1C, 0x2A, 0x36, 0x3A}
    ensures Key(codes, code).None?
  {
  }

  lemma Plainly(codes: seq<Byte>, code: Byte)
    requires Listening(codes) && code != 0xE0
    ensures Typed(codes + [code]) == Plain(Typed(codes), code)
  {
    NoPrefixPending(codes);
    TypedSnoc(codes, code);
  }

  /** A key that types appends its character, unless the line has 256 already; the history is left alone, and typing
      ends navigation in it. */
  lemma CharacterKey(codes: seq<Byte>, code: Byte)
    requires Listening(codes) && code != 0xE0 && Key(codes, code).Some?
    ensures var e, f := Typed(codes), Typed(codes + [code]);
            && f.buffer == (if |e.buffer| < 256 then e.buffer + [Key(codes, code).value] else e.buffer)
            && f.history.entries == e.history.entries
            && (|e.buffer| < 256 ==> f.history.index.None?)
  {
    Plainly(codes, code);
    KeyIsMapped(codes, code);
    if code >= 0x80 || code in {0x0E, 0x0F, 0x1C, 0x2A, 0x36, 0x3A} {
      NoKey(codes, code);
    }
  }

  /** Any other code but Backspace, Tab and Enter leaves the line and the history alone. */
  lemma OtherCode(codes: seq<Byte>, code: Byte)
    requires Listening(codes) && Key(codes, code).None? && code !in {0x0E, 0x0F, 0x1C}
    ensures var e, f := Typed(codes), Typed(codes + [code]); f.buffer == e.buffer && f.history == e.history
  {
    if code == 0xE0 {
      TypedSnoc(codes, code);
    } else {
      Plainly(codes, code);
      KeyIsMapped(codes, code);
    }
  }

  /** Tab types four blanks, as far as they fit. */
  lemma TabTypesBlanks(codes: seq<Byte>)
    requires Listening(codes)
    ensures var line, f := Typed(codes).buffer + "    ", Typed(codes + [0x0F]);
            && f.buffer == (if |line| <= 256 then line else line[..256])
            && f.history.entries == Typed(codes).history.entries
  {
    var e := Typed(codes);
    Plainly(codes, 0x0F);
    BlanksInserted(e, 4);
    assert seq(4, _ => ' ') == "    ";
  }

  lemma {:induction false} BlanksInserted(e: Editor, n: nat)
    requires |e.buffer| <= 256
    ensures InsertMany(e, ' ', n).buffer == Clip(e.buffer + seq(n, _ => ' '))
    ensures InsertMany(e, ' ', n).history.entries == e.history.entries
  {
    var blanks := seq(n, _ => ' ');
    if n == 0 {
      assert e.buffer + blanks == e.buffer;
    } else {
      BlanksInserted(e, n - 1);
      var fewer := seq(n - 1, _ => ' ');
      assert blanks == fewer + [' '];
      assert e.buffer + blanks == (e.buffer + fewer) + [' '];
      ClipGrows(e.buffer + fewer, ' ');
    }
  }

  // ---- Backspace ----

  function Backspaces(m: nat): seq<Byte> {
    seq(m, _ => 0x0E)
  }

  lemma BackspaceOnce(codes: seq<Byte>)
    requires Listening(codes)
    ensures var e, f := Typed(codes), Typed(codes + [0x0E]);
            && f.buffer == (if e.buffer == "" then "" else e.buffer[..|e.buffer| - 1])
            && f.history.entries == e.history.entries && f.history.index.None?
  {
    Plainly(codes, 0x0E);
  }

  lemma CutOnce(line: string, m: nat)
    requires m > 0
    ensures var more := line[..|line| - Min(m - 1, |line|)];
            line[..|line| - Min(m, |line|)] == if more == "" then "" else more[..|more| - 1]
  {
  }

  /** Backspaces cut characters off the end of the line, one each, until it is empty. */
  lemma {:induction false} BackspacesCut(codes: seq<Byte>, m: nat)
    requires Listening(codes)
    ensures var line := Typed(codes).buffer;
            Typed(codes + Backspaces(m)).buffer == line[..|line| - Min(m, |line|)]
    ensures Listening(codes + Backspaces(m))
  {
    if m == 0 {
      assert codes + Backspaces(0) == codes;
    } else {
      var before := codes + Backspaces(m - 1);
      BackspacesCut(codes, m - 1);
      assert codes + Backspaces(m) == before + [0x0E];
      BackspaceOnce(before);
      CutOnce(Typed(codes).buffer, m);
    }
  }

  lemma {:induction false} TextOfFirst(k: Keyboard, keys: seq<Byte>, n: nat)
    requires n <= |keys| && forall i :: 0 <= i < |keys| ==> Types(k, keys[i])
    ensures |TypedText(k, keys)| == |keys| && TypedText(k, keys[..n]) == TypedText(k, keys)[..n]
    decreases |keys|
  {
    if keys == [] {
    } else {
      var front := keys[..|keys| - 1];
      TextOfFirst(k, front, Min(n, |front|));
      if n == |keys| {
        assert keys[..n] == keys;
      } else {
        assert front[..n] == keys[..n];
      }
    }
  }

  lemma TypingListens(codes: seq<Byte>, k: Keyboard, keys: seq<Byte>)
    requires Listening(codes) && forall i :: 0 <= i < |keys| ==> Types(k, keys[i])
    ensures Listening(codes + keys)
  {
    if keys == [] {
      assert codes + keys == codes;
    } else {
      assert Types(k, keys[|keys| - 1]) && (codes + keys)[|codes + keys| - 1] == keys[|keys| - 1];
    }
  }

  lemma CutBehind(line: string, text: string, m: nat)
    requires m <= |text|
    ensures (line + text)[..|line + text| - Min(m, |line + text|)] == line + text[..|text| - m]
  {
  }

  /** Character keys and then backspaces, no more of them: what is left is the line with the text of the first keys. */
  lemma ErasingUndoesTyping(codes: seq<Byte>, keys: seq<Byte>, m: nat)
    requires Listening(codes) && m <= |keys| && |Typed(codes).buffer| + |keys| <= 256
    requires forall i :: 0 <= i < |keys| ==> Types(Typed(codes).keyboard, keys[i])
    ensures Typed(codes + keys + Backspaces(m)).buffer ==
            Typed(codes).buffer + TypedText(Typed(codes).keyboard, keys[..|keys| - m])
  {
    var k, line := Typed(codes).keyboard, Typed(codes).buffer;
    TypingAfterAnyStream(codes, keys);
    TextOfFirst(k, keys, |keys| - m);
    TypingListens(codes, k, keys);
    BackspacesCut(codes + keys, m);
    CutBehind(line, TypedText(k, keys), m);
  }

  // ---- Enter and the history ----

  /** `t` is `line` without the blanks at its ends. */
  predicate Trimmed(line: string, t: string) {
    && (t != "" ==> t[0] != ' ' && t[|t| - 1] != ' ')
    && exists i, j :: 0 <= i <= j <= |line| && t == line[i..j] && Blank(line[..i]) && Blank(line[j..])
  }

  predicate Blank(s: string) {
    forall k :: 0 <= k < |s| ==> s[k] == ' '
  }

  lemma LineIsTrimmed(line: string)
    requires LineOk(line)
    ensures Trimmed(line, Trim(line))
  {
    var a, b := TrimCutsBlanks(line);
    var t := Trim(line);
    var i, j := |a|, |a| + |t|;
    assert line[..i] == a && line[i..j] == t && line[j..] == b;
    assert forall k :: 0 <= k < |a| ==> PrintableChar(line[k]) && a[k] == line[k];
    assert forall k :: 0 <= k < |b| ==> PrintableChar(line[j + k]) && b[k] == line[j + k];
  }

  /** Enter empties the line and ends navigation; a line that is not blank becomes the newest command, unless it is
      that already, and the 64 newest are kept. */
  lemma EnterRecords(codes: seq<Byte>)
    requires Listening(codes)
    ensures var e, f := Typed(codes), Typed(codes + [0x1C]);
            var was, t := e.history.entries, Trim(e.buffer);
            && Trimmed(e.buffer, t)
            && f.buffer == "" && f.history.index.None?
            && f.history.entries ==
               if t == "" || (was != [] && was[|was| - 1] == t) then was
               else if |was| < 64 then was + [t]
               else was[|was| - 63..] + [t]
  {
    Plainly(codes, 0x1C);
    LineIsTrimmed(Typed(codes).buffer);
  }

  /** The lines entered, trimmed, the blank ones left out. */
  function Commands(codes: seq<Byte>): seq<string> {
    if codes == [] then []
    else
      var n := |codes| - 1;
      var line := Trim(Typed(codes[..n]).buffer);
      if Unprefixed(codes, n) && codes[n] == 0x1C && line != "" then Commands(codes[..n]) + [line] else Commands(codes[..n])
  }

  /** A sequence with runs of equal elements cut down to one. */
  function Distinctly(s: seq<string>): seq<string> {
    if s == [] then []
    else
      var d := Distinctly(s[..|s| - 1]);
      if d != [] && d[|d| - 1] == s[|s| - 1] then d else d + [s[|s| - 1]]
  }

  function Newest(s: seq<string>, n: nat): seq<string> {
    if |s| <= n then s else s[|s| - n..]
  }

  lemma NewestGrows(s: seq<string>, t: string)
    ensures Newest(s + [t], 64) == if |s| < 64 then s + [t] else Newest(s, 64)[1..] + [t]
  {
  }

  /** A code other than an unprefixed Enter leaves the recorded commands alone. */
  lemma OnlyEnterRecords(codes: seq<Byte>, code: Byte)
    requires !(Listening(codes) && code == 0x1C)
    ensures Typed(codes + [code]).history.entries == Typed(codes).history.entries
  {
    TypedSnoc(codes, code);
    if Listening(codes) && code != 0xE0 {
      Plainly(codes, code);
      if code == 0x0F {
        BlanksInserted(Typed(codes), 4);
      }
    } else {
      assert codes[..|codes|] == codes;
      KeyboardIsDecidedByStream(codes, |codes|);
    }
  }

  lemma RecordsNewest(entries: seq<string>, commands: seq<string>, t: string)
    requires entries == Newest(Distinctly(commands), 64)
    ensures Newest(Distinctly(commands + [t]), 64) ==
            if entries != [] && entries[|entries| - 1] == t then entries
            else if |entries| < 64 then entries + [t]
            else entries[|entries| - 63..] + [t]
  {
    assert (commands + [t])[..|commands|] == commands;
    NewestGrows(Distinctly(commands), t);
  }

  /** After any stream the history holds the 64 newest commands entered, runs of the same command counted once. */
  lemma {:induction false} HistoryIsNewestCommands(codes: seq<Byte>)
    ensures Typed(codes).history.entries == Newest(Distinctly(Commands(codes)), 64)
    decreases |codes|
  {
    if codes == [] {
    } else {
      var n := |codes| - 1;
      var front, code := codes[..n], codes[n];
      assert codes == front + [code];
      assert Unprefixed(codes, n) && code == 0x1C <==> Listening(front) && code == 0x1C;
      HistoryIsNewestCommands(front);
      if Listening(front) && code == 0x1C {
        EnterRecords(front);
        RecordsNewest(Typed(front).history.entries, Commands(front), Trim(Typed(front).buffer));
      } else {
        OnlyEnterRecords(front, code);
      }
    }
  }

  // ---- The arrow keys ----

  /** `k` presses of an arrow key: the prefix and its code, over and over. */
  function Arrows(code: Byte, k: nat): (r: seq<Byte>)
    ensures |r| == 2 * k && (k > 0 ==> r[2 * k - 1] == code)
  {
    if k == 0 then [] else Arrows(code, k - 1) + [0xE0, code]
  }

  lemma ArrowOnce(codes: seq<Byte>, code: Byte)
    requires Listening(codes) && code != 0xE0
    ensures Typed(codes + [0xE0, code]) == Extended(Typed(codes), code)
  {
    NoPrefixPending(codes);
    TypedSnoc(codes, 0xE0);
    TypedSnoc(codes + [0xE0], code);
    assert codes + [0xE0] + [code] == codes + [0xE0, code];
  }

  lemma UpArrow(codes: seq<Byte>)
    requires Listening(codes)
    ensures Typed(codes + [0xE0, 0x48]) == Up(Typed(codes))
  {
    NoPrefixPending(codes);
    ArrowOnce(codes, 0x48);
  }

  lemma DownArrow(codes: seq<Byte>)
    requires Listening(codes)
    ensures Typed(codes + [0xE0, 0x50]) == Down(Typed(codes))
  {
    NoPrefixPending(codes);
    ArrowOnce(codes, 0x50);
  }

  lemma ArrowsLast(codes: seq<Byte>, code: Byte, k: nat)
    requires k > 0
    ensures codes + Arrows(code, k) == codes + Arrows(code, k - 1) + [0xE0, code]
  {
  }

  lemma ArrowsListen(codes: seq<Byte>, code: Byte, k: nat)
    requires Listening(codes) && code != 0xE0
    ensures Listening(codes + Arrows(code, k))
  {
    if k > 0 {
      assert (codes + Arrows(code, k))[|codes| + 2 * k - 1] == code;
    } else {
      assert codes + Arrows(code, 0) == codes;
    }
  }

  lemma {:induction false} UpArrows(codes: seq<Byte>, k: nat)
    requires Listening(codes)
    ensures Typed(codes + Arrows(0x48, k)) == Ups(Typed(codes), k)
  {
    if k == 0 {
      assert codes + Arrows(0x48, 0) == codes;
    } else {
      UpArrows(codes, k - 1);
      ArrowsLast(codes, 0x48, k);
      ArrowsListen(codes, 0x48, k - 1);
      UpArrow(codes + Arrows(0x48, k - 1));
    }
  }

  lemma {:induction false} DownArrows(codes: seq<Byte>, k: nat)
    requires Listening(codes)
    ensures Typed(codes + Arrows(0x50, k)) == Downs(Typed(codes), k)
  {
    if k == 0 {
      assert codes + Arrows(0x50, 0) == codes;
    } else {
      DownArrows(codes, k - 1);
      ArrowsLast(codes, 0x50, k);
      ArrowsListen(codes, 0x50, k - 1);
      DownArrow(codes + Arrows(0x50, k - 1));
    }
  }

  lemma ArrowsMove(codes: seq<Byte>, k: nat, m: nat)
    requires Listening(codes)
    ensures Typed(codes + Arrows(0x48, k) + Arrows(0x50, m)) == Downs(Ups(Typed(codes), k), m)
  {
    UpArrows(codes, k);
    ArrowsListen(codes, 0x48, k);
    DownArrows(codes + Arrows(0x48, k), m);
  }

  /** `k` times up and `m` times down from the line of `e` lead to `f`: the k-th newest command is shown, or the oldest,
      then the newer ones, and in the end the line again. */
  ghost predicate Navigated(e: Editor, k: nat, m: nat, f: Editor) {
    var entries := e.history.entries;
    var up := if k < |entries| then k else |entries|;
    && f.history.entries == entries
    && f.buffer == if m >= up then e.buffer else entries[|entries| - up + m]
  }

  lemma UndoneIsNavigated(e: Editor, k: nat, m: nat, f: Editor)
    requires Undone(e, k, m, f)
    ensures Navigated(e, k, m, f)
  {
  }

  /** The arrow keys navigate, from any stream that leaves a line being typed. */
  lemma ArrowsNavigate(codes: seq<Byte>, k: nat, m: nat)
    requires Listening(codes) && Typed(codes).history.index.None?
    ensures Navigated(Typed(codes), k, m, Typed(codes + Arrows(0x48, k) + Arrows(0x50, m)))
  {
    var e := Typed(codes);
    ArrowsMove(codes, k, m);
    NavigationUndoesItself(e, k, m);
    UndoneIsNavigated(e, k, m, Downs(Ups(e, k), m));
  }
}
