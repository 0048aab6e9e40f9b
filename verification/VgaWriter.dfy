/**
  The VGA writer as the kernel runs it: a 25 by 80 array of cells scrolled in
  place and a column.  `Valid` says that the array shows the last lines of the
  text in `lines`; every method keeps it.
*/
module VgaWriter {
  import opened Wrappers
  import opened VgaText

  datatype ScreenChar = ScreenChar(glyph: Byte, color: Byte)

  class Writer {
    var columnPosition: nat
    const colorCode: Byte
    const chars: array2<ScreenChar>
    ghost var lines: Lines

    ghost predicate Shaped() {
      chars.Length0 == HEIGHT && chars.Length1 == WIDTH
    }

    ghost predicate Valid()
      reads this, chars
    {
      && Shaped()
      && Fits(lines)
      && columnPosition == |Last(lines)|
      && forall r, c :: 0 <= r < HEIGHT && 0 <= c < WIDTH ==> chars[r, c] == ScreenChar(ShownAt(lines, r, c), colorCode)
    }

    /** The screen memory is taken over with whatever it holds. */
    constructor (color: Byte, screen: array2<ScreenChar>)
      requires screen.Length0 == HEIGHT && screen.Length1 == WIDTH
      ensures Shaped() && chars == screen && colorCode == color && columnPosition == 0
    {
      columnPosition := 0;
      colorCode := color;
      chars := screen;
      lines := EMPTY;
    }

    method ClearRow(row: nat)
      requires Shaped() && row < HEIGHT
      modifies chars
      ensures forall c :: 0 <= c < WIDTH ==> chars[row, c] == ScreenChar(BLANK, colorCode)
      ensures forall r, c :: 0 <= r < HEIGHT && r != row && 0 <= c < WIDTH ==> chars[r, c] == old(chars[r, c])
    {
      for col := 0 to WIDTH
        invariant forall c :: 0 <= c < col ==> chars[row, c] == ScreenChar(BLANK, colorCode)
        invariant forall r, c :: 0 <= r < HEIGHT && r != row && 0 <= c < WIDTH ==> chars[r, c] == old(chars[r, c])
      {
        chars[row, col] := ScreenChar(BLANK, colorCode);
      }
    }

    /** Move every row up by one; the bottom row is left as it was. */
    method ScrollUp()
      requires Shaped()
      modifies chars
      ensures forall r, c :: 0 <= r < HEIGHT - 1 && 0 <= c < WIDTH ==> chars[r, c] == old(chars[r + 1, c])
    {
      for row := 1 to HEIGHT
        invariant forall r, c :: 0 <= r < row - 1 && 0 <= c < WIDTH ==> chars[r, c] == old(chars[r + 1, c])
        invariant forall r, c :: row - 1 <= r < HEIGHT && 0 <= c < WIDTH ==> chars[r, c] == old(chars[r, c])
      {
        for col := 0 to WIDTH
          invariant forall r, c :: 0 <= r < row - 1 && 0 <= c < WIDTH ==> chars[r, c] == old(chars[r + 1, c])
          invariant forall c :: 0 <= c < col ==> chars[row - 1, c] == old(chars[row, c])
          invariant forall r, c :: row <= r < HEIGHT && 0 <= c < WIDTH ==> chars[r, c] == old(chars[r, c])
        {
          var character := chars[row, col];
          chars[row - 1, col] := character;
        }
      }
    }

    method NewLine()
      requires Valid()
      modifies this, chars
      ensures Valid() && lines == Newline(old(lines))
    {
      NewlineScrolls(lines);
      ScrollUp();
      ClearRow(HEIGHT - 1);
      columnPosition := 0;
      lines := Newline(lines);
    }

    method WriteByte(b: Byte)
      requires Valid()
      modifies this, chars
      ensures Valid() && lines == Put(old(lines), b)
    {
      if b == NEWLINE {
        NewLine();
      } else {
        if columnPosition >= WIDTH {
          NewLine();
        }
        chars[HEIGHT - 1, columnPosition] := ScreenChar(b, colorCode);
        columnPosition := columnPosition + 1;
        ghost var before := lines;
        lines := Front(lines) + [Last(lines) + [b]];
        assert |Last(old(lines))| >= WIDTH ==> Front(before) == old(lines) && Last(before) + [b] == [b];
        assert forall i :: 0 <= i < |lines| - 1 ==> lines[i] == before[i];
      }
    }

    method Backspace()
      requires Valid()
      modifies this, chars
      ensures Valid() && lines == Erase(old(lines))
    {
      if columnPosition > 0 {
        columnPosition := columnPosition - 1;
        chars[HEIGHT - 1, columnPosition] := ScreenChar(BLANK, colorCode);
        ghost var before := lines;
        lines := Front(lines) + [Front(Last(lines))];
        assert forall i :: 0 <= i < |lines| - 1 ==> lines[i] == before[i];
      }
    }

    method WriteString(s: seq<Byte>)
      requires Valid()
      modifies this, chars
      ensures Valid() && lines == FeedAll(old(lines), s)
    {
      for i := 0 to |s|
        invariant Valid() && lines == FeedAll(old(lines), s[..i])
      {
        assert Front(s[..i + 1]) == s[..i];
        if s[i] == BACKSPACE {
          Backspace();
        } else if 0x20 <= s[i] <= 0x7e || s[i] == NEWLINE {
          WriteByte(s[i]);
        } else {
          WriteByte(UNPRINTABLE);
        }
      }
      assert s[..|s|] == s;
    }

    method ClearScreen()
      requires Shaped()
      modifies this, chars
      ensures Valid() && lines == EMPTY
    {
      for row := 0 to HEIGHT
        invariant forall r, c :: 0 <= r < row && 0 <= c < WIDTH ==> chars[r, c] == ScreenChar(BLANK, colorCode)
      {
        ClearRow(row);
      }
      columnPosition := 0;
      lines := EMPTY;
    }
  }

  /** After a clear, any strings written leave on the screen the last 25 lines of their text. */
  method Display(w: Writer, strings: seq<seq<Byte>>)
    requires w.Shaped()
    modifies w, w.chars
    ensures w.Valid() && w.lines == FeedAll(EMPTY, Joined(strings))
  {
    w.ClearScreen();
    for i := 0 to |strings|
      invariant w.Valid() && w.lines == FeedAll(EMPTY, Joined(strings[..i]))
    {
      assert Front(strings[..i + 1]) == strings[..i];
      FeedAllConcat(EMPTY, Joined(strings[..i]), strings[i]);
      w.WriteString(strings[i]);
    }
    assert strings[..|strings|] == strings;
  }

  function Joined(strings: seq<seq<Byte>>): seq<Byte> {
    if strings == [] then [] else Joined(Front(strings)) + Last(strings)
  }
}
