/** What a written text looks like, byte by byte and cell by cell. */
module VgaLaws {
  import opened Wrappers
  import opened VgaText

  // ---- Every byte is shown ----

  /** The bytes of all lines, one after another. */
  function Flat(lines: seq<seq<Byte>>): seq<Byte> {
    if lines == [] then [] else Flat(Front(lines)) + Last(lines)
  }

  /** What is to be seen of a text: line breaks are not, printable ASCII is as it is, any other byte is a block. */
  function Visible(s: seq<Byte>): seq<Byte> {
    if s == [] then []
    else
      var v, b := Visible(Front(s)), Last(s);
      if b == 10 then v else if 0x20 <= b <= 0x7e then v + [b] else v + [0xfe]
  }

  lemma PutShows(lines: Lines, b: Byte)
    ensures Flat(Put(lines, b)) == if b == 10 then Flat(lines) else Flat(lines) + [b]
  {
    var p := Put(lines, b);
    if b == 10 || |Last(lines)| >= WIDTH {
      assert Front(p) == lines;
    } else {
      assert Front(p) == Front(lines);
      assert Flat(Front(lines)) + (Last(lines) + [b]) == Flat(Front(lines)) + Last(lines) + [b];
    }
  }

  /** Text without backspaces is shown whole and in order: the lines, joined, are its bytes without the breaks. */
  lemma {:induction false} TextIsShown(s: seq<Byte>)
    requires 8 !in s
    ensures Flat(FeedAll(EMPTY, s)) == Visible(s)
  {
    if s == [] {
      assert Front(EMPTY) == [];
    } else {
      assert Last(s) in s && forall b :: b in Front(s) ==> b in s;
      TextIsShown(Front(s));
      PutShows(FeedAll(EMPTY, Front(s)), Glyph(Last(s)));
    }
  }

  /** Printable ASCII and line breaks. */
  predicate PlainText(s: seq<Byte>) {
    forall i :: 0 <= i < |s| ==> s[i] == 10 || 0x20 <= s[i] <= 0x7e
  }

  function WithoutBreaks(s: seq<Byte>): seq<Byte> {
    if s == [] then [] else WithoutBreaks(Front(s)) + if Last(s) == 10 then [] else [Last(s)]
  }

  lemma {:induction false} PlainTextIsShown(s: seq<Byte>)
    requires PlainText(s)
    ensures Flat(FeedAll(EMPTY, s)) == WithoutBreaks(s)
  {
    TextIsShown(s);
    PlainIsVisible(s);
  }

  lemma {:induction false} PlainIsVisible(s: seq<Byte>)
    requires PlainText(s)
    ensures Visible(s) == WithoutBreaks(s)
  {
    if s == [] {
    } else {
      PlainIsVisible(Front(s));
    }
  }

  // ---- Every cell ----

  /** Printable ASCII on one line. */
  predicate OneLine(s: seq<Byte>) {
    forall i :: 0 <= i < |s| ==> 0x20 <= s[i] <= 0x7e
  }

  lemma {:induction false} LineIsRows(s: seq<Byte>)
    requires OneLine(s)
    ensures FeedAll(EMPTY, s) == Rows(s)
  {
    if s == [] {
    } else {
      LineIsRows(Front(s));
      RowsGrow(Front(s), Last(s));
      assert Front(s) + [Last(s)] == s;
    }
  }

  /** How many rows of 80 a line takes: one at least. */
  function RowCount(n: nat): nat {
    if n <= 80 then 1 else 1 + RowCount(n - 80)
  }

  lemma {:induction false} RowCountBounds(n: nat)
    ensures n <= 80 * RowCount(n) && (n > 0 ==> n > 80 * (RowCount(n) - 1))
  {
    if n <= 80 {
    } else {
      RowCountBounds(n - 80);
    }
  }

  /** The bytes of row `r` of a line. */
  function RowOf(p: seq<Byte>, r: nat): seq<Byte>
    requires 80 * r <= |p|
  {
    if 80 * r + 80 <= |p| then p[80 * r..80 * r + 80] else p[80 * r..]
  }

  lemma RowOfRest(p: seq<Byte>, r: nat)
    requires |p| > 80 && r > 0 && 80 * r <= |p|
    ensures RowOf(p[80..], r - 1) == RowOf(p, r)
  {
  }

  /** A line is cut into rows of 80 bytes, in order. */
  lemma {:induction false} RowsHold(p: seq<Byte>, r: nat)
    requires r < RowCount(|p|)
    ensures |Rows(p)| == RowCount(|p|) && 80 * r <= |p| && Rows(p)[r] == RowOf(p, r)
    decreases |p|
  {
    if |p| <= 80 {
      assert p[..] == p;
    } else {
      RowsHold(p[80..], if r == 0 then 0 else r - 1);
      if r > 0 {
        RowOfRest(p, r);
      }
    }
  }

  /** The byte of a line at a column of its row `r`, or a blank. */
  function ByteAt(s: seq<Byte>, r: nat, col: nat): Byte {
    if 80 * r + col < |s| then s[80 * r + col] else 32
  }

  lemma RowShows(p: seq<Byte>, r: nat, col: nat)
    requires 80 * r <= |p| && col < 80
    ensures (if col < |RowOf(p, r)| then RowOf(p, r)[col] else 32) == ByteAt(p, r, col)
  {
  }

  lemma LineShows(lines: Lines, i: nat, row: nat, col: nat)
    requires row < 25 && i < |lines| && i + 25 == |lines| + row
    ensures ShownAt(lines, row, col) == if col < |lines[i]| then lines[i][col] else 32
  {
  }

  /** The cells after a clear and one line of any length: the bottom row of the screen shows the last row of it, the rows
      above what comes before, 80 bytes each. */
  lemma CellsShowLine(s: seq<Byte>, r: nat, row: nat, col: nat)
    requires OneLine(s) && row < 25 && col < 80 && r < RowCount(|s|) && r + 25 == RowCount(|s|) + row
    ensures ShownAt(FeedAll(EMPTY, s), row, col) == ByteAt(s, r, col)
  {
    LineIsRows(s);
    RowsHold(s, r);
    RowShows(s, r, col);
    LineShows(Rows(s), r, row, col);
  }

  /** Above the line the screen is blank. */
  lemma CellsAboveAreBlank(s: seq<Byte>, row: nat, col: nat)
    requires OneLine(s) && row + RowCount(|s|) < 25
    ensures ShownAt(FeedAll(EMPTY, s), row, col) == 32
  {
    LineIsRows(s);
    RowsHold(s, 0);
  }

  /** A short line, on the bottom row from the left. */
  lemma ShortLine(s: seq<Byte>, col: nat)
    requires OneLine(s) && |s| <= 80 && col < 80
    ensures ShownAt(FeedAll(EMPTY, s), 24, col) == if col < |s| then s[col] else 32
  {
    CellsShowLine(s, 0, 24, col);
    assert ByteAt(s, 0, col) == if col < |s| then s[col] else 32;
  }
}
