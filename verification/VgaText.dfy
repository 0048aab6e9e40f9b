/**
  The text the screen stands for: a growing list of lines of at most 80 bytes, of
  which the last 25 are visible.  A full line wraps only when one more byte arrives.
*/
module VgaText {
  import opened Wrappers

  const HEIGHT: nat := 25
  const WIDTH: nat := 80
  const NEWLINE: Byte := 10
  const BACKSPACE: Byte := 8
  const BLANK: Byte := 32
  const UNPRINTABLE: Byte := 0xfe

  type Lines = l: seq<seq<Byte>> | l != [] witness [[]]

  function Last<T>(s: seq<T>): T
    requires s != []
  {
    s[|s| - 1]
  }

  function Front<T>(s: seq<T>): seq<T>
    requires s != []
  {
    s[..|s| - 1]
  }

  const EMPTY: Lines := [[]]

  function Newline(lines: Lines): Lines {
    lines + [[]]
  }

  /** Write one byte at the end, starting a new line first if the current one is full. */
  function Put(lines: Lines, b: Byte): Lines {
    if b == NEWLINE then Newline(lines)
    else if |Last(lines)| >= WIDTH then lines + [[b]]
    else Front(lines) + [Last(lines) + [b]]
  }

  /** Take back the last byte of the current line; never across a line break. */
  function Erase(lines: Lines): Lines {
    if Last(lines) == [] then lines else Front(lines) + [Front(Last(lines))]
  }

  function Glyph(b: Byte): Byte {
    if 0x20 <= b <= 0x7e || b == NEWLINE then b else UNPRINTABLE
  }

  function Feed(lines: Lines, b: Byte): Lines {
    if b == BACKSPACE then Erase(lines) else Put(lines, Glyph(b))
  }

  function FeedAll(lines: Lines, s: seq<Byte>): Lines {
    if s == [] then lines else Feed(FeedAll(lines, Front(s)), Last(s))
  }

  /** The byte shown at a place of the screen: row 24 is the last line, and lines that do not exist are blank. */
  function ShownAt(lines: Lines, row: nat, col: nat): Byte
    requires row < HEIGHT
  {
    var i := |lines| - HEIGHT + row;
    if i < 0 || col >= |lines[i]| then BLANK else lines[i][col]
  }

  /** A line break moves everything shown up one row and leaves the bottom row blank. */
  lemma NewlineScrolls(lines: Lines)
    ensures forall r, c :: 0 <= r < HEIGHT && 0 <= c < WIDTH ==>
              ShownAt(Newline(lines), r, c) == if r == HEIGHT - 1 then BLANK else ShownAt(lines, r + 1, c)
  {
  }

  predicate Fits(lines: Lines) {
    forall i :: 0 <= i < |lines| ==> |lines[i]| <= WIDTH
  }

  lemma {:induction false} FeedAllFits(lines: Lines, s: seq<Byte>)
    requires Fits(lines)
    ensures Fits(FeedAll(lines, s))
  {
    if s == [] {
    } else {
      FeedAllFits(lines, Front(s));
    }
  }

  /** Writing a text in pieces is writing it in one. */
  lemma {:induction false} FeedAllConcat(lines: Lines, s: seq<Byte>, t: seq<Byte>)
    ensures FeedAll(lines, s + t) == FeedAll(FeedAll(lines, s), t)
  {
    if t == [] {
      assert s + t == s;
    } else {
      assert Front(s + t) == s + Front(t);
      FeedAllConcat(lines, s, Front(t));
    }
  }

  /** A backspace takes back the byte just written; on a line that was full it leaves the fresh line behind. */
  lemma EraseUndoesPut(lines: Lines, b: Byte)
    requires b != NEWLINE
    ensures Erase(Put(lines, b)) == if |Last(lines)| < WIDTH then lines else Newline(lines)
  {
    var p := Put(lines, b);
    assert Front(Last(p)) == if |Last(lines)| < WIDTH then Last(lines) else [];
    assert Front(p) == if |Last(lines)| < WIDTH then Front(lines) else lines;
    assert lines == Front(lines) + [Last(lines)];
  }

  // ---- What plain text looks like ----

  /** The logical lines of a text without backspaces, unprintable bytes already replaced. */
  function Paragraphs(s: seq<Byte>): Lines {
    if s == [] then EMPTY
    else
      var p := Paragraphs(Front(s));
      if Last(s) == NEWLINE then p + [[]] else Front(p) + [Last(p) + [Glyph(Last(s))]]
  }

  /** A logical line cut into rows of 80; an empty one still takes a row. */
  function Rows(p: seq<Byte>): Lines {
    if |p| <= WIDTH then [p] else [p[..WIDTH]] + Rows(p[WIDTH..])
  }

  function AllRows(ps: seq<seq<Byte>>): seq<seq<Byte>> {
    if ps == [] then [] else AllRows(Front(ps)) + Rows(Last(ps))
  }

  lemma {:induction false} RowsGrow(p: seq<Byte>, b: Byte)
    requires b != NEWLINE
    ensures Rows(p + [b]) == Put(Rows(p), b)
  {
    if |p| < WIDTH {
    } else if |p| == WIDTH {
      assert (p + [b])[..WIDTH] == p && (p + [b])[WIDTH..] == [b];
    } else {
      RowsGrow(p[WIDTH..], b);
      assert (p + [b])[..WIDTH] == p[..WIDTH] && (p + [b])[WIDTH..] == p[WIDTH..] + [b];
      PutBehind([p[..WIDTH]], Rows(p[WIDTH..]), b);
    }
  }

  lemma PutBehind(before: seq<seq<Byte>>, lines: Lines, b: Byte)
    ensures Put(before + lines, b) == before + Put(lines, b)
  {
    assert Last(before + lines) == Last(lines) && Front(before + lines) == before + Front(lines);
  }

  /** Text without backspaces is laid out line by line, each cut into rows of 80 with no empty row after a full one. */
  lemma {:induction false} PlainTextLayout(s: seq<Byte>)
    requires BACKSPACE !in s
    ensures FeedAll(EMPTY, s) == AllRows(Paragraphs(s))
  {
    if s == [] {
      assert AllRows(EMPTY) == Rows([]);
    } else {
      PlainTextLayout(Front(s));
      assert Last(s) in s;
      var p, b := Paragraphs(Front(s)), Glyph(Last(s));
      var before := AllRows(Front(p));
      if b == NEWLINE {
        assert Front(p + [[]]) == p;
        PutBehind(before, Rows(Last(p)), b);
      } else {
        assert Front(Front(p) + [Last(p) + [b]]) == Front(p);
        RowsGrow(Last(p), b);
        PutBehind(before, Rows(Last(p)), b);
      }
    }
  }
}
