/**
  The shell's line editor as a value: the keyboard state machine, the input line
  and the command history, and what one scancode does to them.
*/
module LineModel {
  import opened Wrappers

  const MAX_INPUT: nat := 256
  const MAX_HISTORY: nat := 64

  datatype Keyboard = Keyboard(shift: bool, caps: bool, prefix: bool)

  datatype History = History(entries: seq<string>, index: Option<nat>, draft: string)

  datatype Editor = Editor(keyboard: Keyboard, buffer: string, history: History)

  const INITIAL := Editor(Keyboard(false, false, false), "", History([], None, ""))

  // ---- Keys ----

  function MapLetterBase(code: Byte): Option<char> {
    match code
    case 0x10 => Some('q') case 0x11 => Some('w') case 0x12 => Some('e') case 0x13 => Some('r')
    case 0x14 => Some('t') case 0x15 => Some('y') case 0x16 => Some('u') case 0x17 => Some('i')
    case 0x18 => Some('o') case 0x19 => Some('p') case 0x1E => Some('a') case 0x1F => Some('s')
    case 0x20 => Some('d') case 0x21 => Some('f') case 0x22 => Some('g') case 0x23 => Some('h')
    case 0x24 => Some('j') case 0x25 => Some('k') case 0x26 => Some('l') case 0x2C => Some('z')
    case 0x2D => Some('x') case 0x2E => Some('c') case 0x2F => Some('v') case 0x30 => Some('b')
    case 0x31 => Some('n') case 0x32 => Some('m')
    case _ => None
  }

  function Pick(shifted: bool, upper: char, lower: char): Option<char> {
    Some(if shifted then upper else lower)
  }

  function MapNonLetter(code: Byte, shifted: bool): Option<char> {
    match code
    case 0x02 => Pick(shifted, '!', '1') case 0x03 => Pick(shifted, '@', '2')
    case 0x04 => Pick(shifted, '#', '3') case 0x05 => Pick(shifted, '$', '4')
    case 0x06 => Pick(shifted, '%', '5') case 0x07 => Pick(shifted, '^', '6')
    case 0x08 => Pick(shifted, '&', '7') case 0x09 => Pick(shifted, '*', '8')
    case 0x0A => Pick(shifted, '(', '9') case 0x0B => Pick(shifted, ')', '0')
    case 0x0C => Pick(shifted, '_', '-') case 0x0D => Pick(shifted, '+', '=')
    case 0x1A => Pick(shifted, '{', '[') case 0x1B => Pick(shifted, '}', ']')
    case 0x27 => Pick(shifted, ':', ';') case 0x28 => Pick(shifted, '"', '\'')
    case 0x29 => Pick(shifted, '~', '`') case 0x2B => Pick(shifted, '|', '\\')
    case 0x33 => Pick(shifted, '<', ',') case 0x34 => Pick(shifted, '>', '.')
    case 0x35 => Pick(shifted, '?', '/') case 0x39 => Some(' ')
    case 0x37 => Some('*') case 0x47 => Some('7') case 0x48 => Some('8') case 0x49 => Some('9')
    case 0x4A => Some('-') case 0x4B => Some('4') case 0x4C => Some('5') case 0x4D => Some('6')
    case 0x4E => Some('+') case 0x4F => Some('1') case 0x50 => Some('2') case 0x51 => Some('3')
    case 0x52 => Some('0') case 0x53 => Some('.')
    case _ => None
  }

  function ToUpper(c: char): char {
    if 'a' <= c <= 'z' then c - 'a' + 'A' else c
  }

  function MapKey(code: Byte, shifted: bool, caps: bool): Option<char> {
    match MapLetterBase(code)
    case Some(c) => Some(if caps != shifted then ToUpper(c) else c)
    case None => MapNonLetter(code, shifted)
  }

  predicate PrintableChar(c: char) {
    ' ' <= c <= '~'
  }

  lemma KeysArePrintable(code: Byte, shifted: bool, caps: bool)
    ensures MapKey(code, shifted, caps).Some? ==> PrintableChar(MapKey(code, shifted, caps).value)
  {
  }

  /** A letter key types the same letter in either case: upper case exactly when one of shift and caps lock is on. */
  lemma LetterCase(code: Byte, shifted: bool, caps: bool)
    requires MapLetterBase(code).Some?
    ensures MapKey(code, shifted, caps).Some?
    ensures var c := MapKey(code, shifted, caps).value;
            if shifted != caps then 'A' <= c <= 'Z' && c - 'A' + 'a' == MapLetterBase(code).value
            else c == MapLetterBase(code).value
  {
  }

  // ---- History ----

  function ResetNavigation(h: History): History {
    h.(index := None, draft := "")
  }

  function Record(h: History, command: string): History {
    if command == "" || (h.entries != [] && h.entries[|h.entries| - 1] == command) then ResetNavigation(h)
    else
      var kept := if |h.entries| >= MAX_HISTORY then h.entries[1..] else h.entries;
      ResetNavigation(h.(entries := kept + [command]))
  }

  /** One step towards older entries, keeping the line being typed as the draft; None when there is no history. */
  function Older(h: History, line: string): Option<History> {
    if h.entries == [] then None
    else
      match h.index
      case None => Some(h.(draft := line, index := Some(|h.entries| - 1)))
      case Some(i) => Some(h.(index := Some(if i == 0 then 0 else i - 1)))
  }

  /** One step towards newer entries, back to the draft after the newest. */
  function Newer(h: History): History {
    if h.index.Some? && h.index.value + 1 < |h.entries| then h.(index := Some(h.index.value + 1))
    else h.(index := None)
  }

  function Clip(text: string): string {
    if |text| <= MAX_INPUT then text else text[..MAX_INPUT]
  }

  predicate IndexOk(h: History) {
    h.index.Some? ==> h.index.value < |h.entries|
  }

  function Up(e: Editor): Editor
    requires IndexOk(e.history)
  {
    match Older(e.history, e.buffer)
    case None => e
    case Some(h) => e.(history := h, buffer := Clip(h.entries[h.index.value]))
  }

  function Down(e: Editor): Editor
    requires IndexOk(e.history)
  {
    if e.history.index.None? then e
    else
      var h := Newer(e.history);
      e.(history := h, buffer := Clip(if h.index.Some? then h.entries[h.index.value] else h.draft))
  }

  // ---- The line ----

  predicate IsBlank(c: char) {
    c == ' ' || '\t' <= c <= '\r'
  }

  function TrimStart(s: string): (r: string)
    ensures |r| <= |s|
    ensures forall c :: c in r ==> c in s
  {
    if s != "" && IsBlank(s[0]) then TrimStart(s[1..]) else s
  }

  function TrimEnd(s: string): (r: string)
    ensures |r| <= |s|
    ensures forall c :: c in r ==> c in s
  {
    if s != "" && IsBlank(s[|s| - 1]) then TrimEnd(s[..|s| - 1]) else s
  }

  function Trim(s: string): string {
    TrimEnd(TrimStart(s))
  }

  predicate AllBlank(s: string) {
    forall i :: 0 <= i < |s| ==> IsBlank(s[i])
  }

  lemma {:induction false} TrimStartSplits(s: string) returns (a: string)
    ensures s == a + TrimStart(s) && AllBlank(a)
    ensures TrimStart(s) != "" ==> !IsBlank(TrimStart(s)[0])
  {
    a := "";
    if s != "" && IsBlank(s[0]) {
      var b := TrimStartSplits(s[1..]);
      a := [s[0]] + b;
      assert s == [s[0]] + (b + TrimStart(s));
    }
  }

  lemma {:induction false} TrimEndSplits(s: string) returns (a: string)
    ensures s == TrimEnd(s) + a && AllBlank(a)
    ensures TrimEnd(s) != "" ==> !IsBlank(TrimEnd(s)[|TrimEnd(s)| - 1])
  {
    a := "";
    if s != "" && IsBlank(s[|s| - 1]) {
      var b := TrimEndSplits(s[..|s| - 1]);
      a := b + [s[|s| - 1]];
      assert s == (TrimEnd(s) + b) + [s[|s| - 1]];
    }
  }

  /** Trimming cuts blanks off both ends and leaves text that neither begins nor ends with one. */
  lemma TrimCutsBlanks(s: string) returns (a: string, b: string)
    ensures s == a + Trim(s) + b && AllBlank(a) && AllBlank(b)
    ensures Trim(s) != "" ==> !IsBlank(Trim(s)[0]) && !IsBlank(Trim(s)[|Trim(s)| - 1])
  {
    a := TrimStartSplits(s);
    b := TrimEndSplits(TrimStart(s));
    assert s == a + (Trim(s) + b);
    if Trim(s) != "" {
      assert TrimStart(s)[0] == Trim(s)[0];
    }
  }

  /** Enter: the trimmed line is recorded and the input line emptied. */
  function Submit(e: Editor): Editor {
    e.(buffer := "", history := Record(e.history, Trim(e.buffer)))
  }

  function EraseLast(e: Editor): Editor {
    e.(history := ResetNavigation(e.history), buffer := if e.buffer == "" then "" else e.buffer[..|e.buffer| - 1])
  }

  function Insert(e: Editor, c: char): Editor {
    if |e.buffer| < MAX_INPUT then e.(history := ResetNavigation(e.history), buffer := e.buffer + [c]) else e
  }

  function InsertMany(e: Editor, c: char, n: nat): Editor {
    if n == 0 then e else Insert(InsertMany(e, c, n - 1), c)
  }

  // ---- One scancode ----

  const PREFIX: Byte := 0xE0
  const CAPS: Byte := 0x3A

  predicate ShiftMake(code: Byte) {
    code == 0x2A || code == 0x36
  }

  predicate ShiftBreak(code: Byte) {
    code == 0xAA || code == 0xB6
  }

  /** A code after the prefix: only the two vertical arrows act. */
  function Extended(e: Editor, code: Byte): Editor
    requires IndexOk(e.history)
  {
    var f := e.(keyboard := e.keyboard.(prefix := false));
    if code == 0x48 then Up(f) else if code == 0x50 then Down(f) else f
  }

  function Plain(e: Editor, code: Byte): Editor {
    if code >= 0x80 then
      if ShiftBreak(code) then e.(keyboard := e.keyboard.(shift := false)) else e
    else if ShiftMake(code) then e.(keyboard := e.keyboard.(shift := true))
    else if code == CAPS then e.(keyboard := e.keyboard.(caps := !e.keyboard.caps))
    else if code == 0x0E then EraseLast(e)
    else if code == 0x1C then Submit(e)
    else if code == 0x0F then InsertMany(e, ' ', 4)
    else
      match MapKey(code, e.keyboard.shift, e.keyboard.caps)
      case Some(c) => Insert(e, c)
      case None => e
  }

  function Process(e: Editor, code: Byte): Editor
    requires IndexOk(e.history)
  {
    if code == PREFIX then e.(keyboard := e.keyboard.(prefix := true))
    else if e.keyboard.prefix then Extended(e, code)
    else Plain(e, code)
  }

  // ---- What every scancode keeps ----

  predicate LineOk(s: string) {
    |s| <= MAX_INPUT && forall i :: 0 <= i < |s| ==> PrintableChar(s[i])
  }

  ghost predicate HistoryOk(h: History) {
    && |h.entries| <= MAX_HISTORY
    && (forall i :: 0 <= i < |h.entries| ==> LineOk(h.entries[i]) && h.entries[i] != "")
    && (forall i :: 0 < i < |h.entries| ==> h.entries[i - 1] != h.entries[i])
    && IndexOk(h)
    && LineOk(h.draft)
  }

  ghost predicate EditorOk(e: Editor) {
    LineOk(e.buffer) && HistoryOk(e.history)
  }

  lemma TrimKeeps(s: string)
    requires LineOk(s)
    ensures LineOk(Trim(s))
  {
    var t := Trim(s);
    forall i | 0 <= i < |t|
      ensures PrintableChar(t[i])
    {
      assert t[i] in t && t[i] in s;
    }
  }

  lemma RecordKeeps(h: History, command: string)
    requires HistoryOk(h) && LineOk(command)
    ensures HistoryOk(Record(h, command))
  {
  }

  lemma UpKeeps(e: Editor)
    requires EditorOk(e)
    ensures EditorOk(Up(e)) && EditorOk(Down(e))
  {
  }

  lemma {:induction false} InsertManyKeeps(e: Editor, c: char, n: nat)
    requires EditorOk(e) && PrintableChar(c)
    ensures EditorOk(InsertMany(e, c, n)) && InsertMany(e, c, n).keyboard == e.keyboard
  {
    if n == 0 {
    } else {
      InsertManyKeeps(e, c, n - 1);
    }
  }

  lemma PlainKeeps(e: Editor, code: Byte)
    requires EditorOk(e)
    ensures EditorOk(Plain(e, code))
  {
    if code == 0x1C {
      TrimKeeps(e.buffer);
      RecordKeeps(e.history, Trim(e.buffer));
    } else if code == 0x0F {
      InsertManyKeeps(e, ' ', 4);
    } else {
      KeysArePrintable(code, e.keyboard.shift, e.keyboard.caps);
    }
  }

  lemma ProcessKeeps(e: Editor, code: Byte)
    requires EditorOk(e)
    ensures EditorOk(Process(e, code))
  {
    if code == PREFIX {
    } else if e.keyboard.prefix {
      UpKeeps(e.(keyboard := e.keyboard.(prefix := false)));
    } else {
      PlainKeeps(e, code);
    }
  }
}
