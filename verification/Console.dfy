/** The text console: a buffer of 25 lines, and a screen on which characters are drawn one at
    a time and lines are drawn again only when the text scrolls. */
module Consoles {
  import opened Bits
  import opened Screens

  const ROWS := 25
  const COLUMNS := 80
  const WIDTH := 640
  const HEIGHT := 400
  const NEW_LINE: Char := 10

  type Row = r: seq<Char> | |r| == COLUMNS + 1 witness seq(COLUMNS + 1, i => 0)
  type Rows = rs: seq<Row> | |rs| == ROWS witness seq<Row>(ROWS, i => ZeroRow())

  function ZeroRow(): Row { seq(COLUMNS + 1, i => 0) }

  /** The buffer and the cursor. */
  datatype Text = Text(rows: Rows, row: nat, column: nat)

  function Blank(): Text { Text(seq<Row>(ROWS, i => ZeroRow()), 0, 0) }

  predicate InRange(t: Text) { t.row < ROWS && t.column <= COLUMNS - 1 }

  /** The rows moved up by one, with an empty last row. */
  function Up(rows: Rows): (r: Rows)
    ensures r[ROWS - 1] == ZeroRow() && forall i :: 0 <= i < ROWS - 1 ==> r[i] == rows[i + 1]
  {
    rows[1..] + [ZeroRow()]
  }

  function NewLine(t: Text): Text {
    if t.row < ROWS - 1 then Text(t.rows, t.row + 1, 0) else Text(Up(t.rows), t.row, 0)
  }

  function Put(t: Text, c: Char): (t': Text)
    requires InRange(t)
    ensures InRange(t')
  {
    if c == NEW_LINE then NewLine(t)
    else if t.column < COLUMNS - 1 then
      Text(t.rows[t.row := t.rows[t.row][t.column := c]], t.row, t.column + 1)
    else t
  }

  function PutAll(t: Text, s: seq<Char>): (t': Text)
    requires InRange(t)
    ensures InRange(t')
  {
    if s == [] then t else Put(PutAll(t, s[..|s| - 1]), s[|s| - 1])
  }

  /** Two strings put one after the other are their concatenation. */
  lemma {:induction false} PutConcat(t: Text, x: seq<Char>, y: seq<Char>)
    requires InRange(t)
    ensures PutAll(t, x + y) == PutAll(PutAll(t, x), y)
  {
    if y == [] {
      assert x + y == x;
    } else {
      assert (x + y)[..|x + y| - 1] == x + y[..|y| - 1];
      PutConcat(t, x, y[..|y| - 1]);
    }
  }

  // ---------------------------------------------------------------- the history as lines

  /** The lines of a history; the last one is not ended yet. */
  function Lines(h: seq<Char>): (ls: seq<seq<Char>>)
    ensures ls != []
  {
    if h == [] then [[]]
    else
      var (ls, c) := (Lines(h[..|h| - 1]), h[|h| - 1]);
      if c == NEW_LINE then ls + [[]] else ls[|ls| - 1 := ls[|ls| - 1] + [c]]
  }

  /** A line cut to 79 characters and padded with zeros. */
  function Cut(l: seq<Char>): Row {
    seq(COLUMNS + 1, i requires 0 <= i => if i < COLUMNS - 1 && i < |l| then l[i] else 0)
  }

  function RowAt(ls: seq<seq<Char>>, i: nat): Row {
    if i < |ls| then Cut(ls[i]) else ZeroRow()
  }

  function RowsFrom(ls: seq<seq<Char>>, first: nat): (rs: Rows)
    ensures forall i :: 0 <= i < ROWS ==> rs[i] == RowAt(ls, first + i)
  {
    var rs := seq<Row>(ROWS, (i: nat) => RowAt(ls, first + i));
    assert |rs| == ROWS && forall i :: 0 <= i < ROWS ==> rs[i] == RowAt(ls, first + i);
    rs
  }

  /** The last 25 lines of a history, or all of them and zero rows, with the cursor behind the
      last one. */
  function TextOf(ls: seq<seq<Char>>): Text
    requires ls != []
  {
    var first := if |ls| <= ROWS then 0 else |ls| - ROWS;
    Text(RowsFrom(ls, first),
         |ls| - 1 - first,
         if |ls[|ls| - 1]| < COLUMNS - 1 then |ls[|ls| - 1]| else COLUMNS - 1)
  }

  lemma PutExtendsLine(ls: seq<seq<Char>>, c: Char)
    requires ls != [] && c != NEW_LINE
    ensures InRange(TextOf(ls))
    ensures Put(TextOf(ls), c) == TextOf(ls[|ls| - 1 := ls[|ls| - 1] + [c]])
  {
    var t, last := TextOf(ls), ls[|ls| - 1];
    var t' := TextOf(ls[|ls| - 1 := last + [c]]);
    if |last| < COLUMNS - 1 {
      assert Cut(last)[|last| := c] == Cut(last + [c]);
      assert t.rows[t.row := t.rows[t.row][t.column := c]] == t'.rows;
    } else {
      assert Cut(last) == Cut(last + [c]);
      assert t.rows == t'.rows;
    }
  }

  lemma PutStartsLine(ls: seq<seq<Char>>)
    requires ls != []
    ensures InRange(TextOf(ls))
    ensures NewLine(TextOf(ls)) == TextOf(ls + [[]])
  {
    assert Cut([]) == ZeroRow();
    var t, t' := TextOf(ls), TextOf(ls + [[]]);
    if |ls| < ROWS {
      assert t.rows == t'.rows;
    } else {
      assert Up(t.rows) == t'.rows;
    }
  }

  /** From an empty buffer, any characters leave exactly the last 25 lines of the history. */
  lemma {:induction false} TextRefinesHistory(h: seq<Char>)
    ensures PutAll(Blank(), h) == TextOf(Lines(h))
  {
    if h == [] {
      assert Cut([]) == ZeroRow();
      assert Blank().rows == TextOf([[]]).rows;
    } else {
      var (before, c) := (h[..|h| - 1], h[|h| - 1]);
      TextRefinesHistory(before);
      if c == NEW_LINE { PutStartsLine(Lines(before)); } else { PutExtendsLine(Lines(before), c); }
    }
  }

  // ---------------------------------------------------------------- the shape of the buffer

  /** Characters, and from the terminating zero on only zeros. */
  predicate Padded(r: Row) {
    Used(r) <= COLUMNS - 1 && forall i :: Used(r) <= i <= COLUMNS ==> r[i] == 0
  }

  function Used(r: Row): nat { PixelWriter.Length(r) }

  /** Rows are padded, the cursor stands behind the characters of its row, and the rows below
      are empty. */
  predicate Tidy(t: Text) {
    && InRange(t)
    && (forall i :: 0 <= i < ROWS ==> Padded(t.rows[i]))
    && Used(t.rows[t.row]) == t.column
    && (forall i :: t.row < i < ROWS ==> t.rows[i] == ZeroRow())
  }

  lemma {:induction false} UsedIs(r: seq<Char>, n: nat)
    requires n < |r| && r[n] == 0 && forall i :: 0 <= i < n ==> r[i] != 0
    ensures PixelWriter.Length(r) == n
  {
    if n > 0 { UsedIs(r[1..], n - 1); }
  }

  lemma PutKeepsTidy(t: Text, c: Char)
    requires Tidy(t) && c != 0
    ensures Tidy(Put(t, c))
  {
    UsedIs(ZeroRow(), 0);
    if c != NEW_LINE && t.column < COLUMNS - 1 {
      UsedIs(t.rows[t.row][t.column := c], t.column + 1);
    }
  }

  lemma BlankIsTidy()
    ensures Tidy(Blank())
  {
    UsedIs(ZeroRow(), 0);
  }

  // ---------------------------------------------------------------- the console

  class Console {
    const writer: PixelWriter
    const font: Font
    const foreground: Color
    const background: Color
    const buffer: array<Row>
    var cursorRow: nat
    var cursorColumn: nat

    constructor (w: PixelWriter, f: Font, fg: Color, bg: Color)
      requires w.Valid() && w.scanLine >= WIDTH && w.height >= HEIGHT
      ensures Valid() && View() == Blank()
      ensures writer == w && font == f && foreground == fg && background == bg && fresh(buffer)
      ensures (forall px, py :: InArea(px, py) ==> w.Pixel(px, py) == bg) ==> AsRendered()
    {
      writer, font, foreground, background := w, f, fg, bg;
      buffer := new Row[ROWS](i => ZeroRow());
      cursorRow, cursorColumn := 0, 0;
      new;
      assert buffer[..] == Blank().rows;
      BlankIsTidy();
      NothingDrawn();
    }

    ghost predicate Valid()
      reads this, buffer
    {
      && writer.Valid() && writer.scanLine >= WIDTH && writer.height >= HEIGHT
      && buffer.Length == ROWS
      && Tidy(Text(buffer[..], cursorRow, cursorColumn))
    }

    ghost function View(): Text
      reads this, buffer
      requires buffer.Length == ROWS
    {
      Text(buffer[..], cursorRow, cursorColumn)
    }

    static predicate InArea(px: int, py: int) { 0 <= px < WIDTH && 0 <= py < HEIGHT }

    /** What a place shows when the area is filled and the rows are then written one by one. */
    ghost function Rendered(rows: Rows, px: int, py: int): Color
      requires InArea(px, py)
    {
      var r := py / GLYPH_HEIGHT;
      if writer.TextDotAt(font, rows[r], Used(rows[r]), 0, GLYPH_HEIGHT * r, px, py) then foreground else background
    }

    /** Column `dx` and row `dy` of the cell of character `c` of row `r` show the foreground exactly where
        the glyph has a dot and the row has not ended. */
    lemma RenderedMeans(rows: Rows, r: nat, c: nat, dx: nat, dy: nat)
      requires r < 25 && c < 80 && dx < 8 && dy < 16
      ensures Rendered(rows, 8 * c + dx, 16 * r + dy)
           == if c < PixelWriter.Length(rows[r]) && Dot(font, rows[r][c], dx, dy) then foreground else background
    {
      DivModUnique(16 * r + dy, 16, r, dy);
      DivModUnique(8 * c + dx, 8, c, dx);
      hide Dot;
    }

    /** The area shows exactly the buffer. */
    ghost predicate AsRendered()
      reads this, buffer, writer.frameBuffer
      requires Valid()
    {
      forall px, py :: InArea(px, py) ==> writer.Pixel(px, py) == Rendered(buffer[..], px, py)
    }

    lemma NothingDrawn()
      ensures forall px, py, rows: Rows :: InArea(px, py) && Used(rows[py / GLYPH_HEIGHT]) == 0 ==>
                Rendered(rows, px, py) == background
    {
    }

    /** The lines move up by one: the area is cleared, and all rows but the last are drawn. */
    method Scroll()
      requires Valid() && cursorRow == ROWS - 1
      modifies buffer, writer.frameBuffer
      ensures buffer[..] == Up(old(buffer[..]))
      ensures forall px, py :: InArea(px, py) ==> writer.Pixel(px, py) == Rendered(buffer[..], px, py)
      ensures forall px, py :: writer.Inside(px, py) && !InArea(px, py) ==>
                writer.Pixel(px, py) == old(writer.Pixel(px, py))
    {
      Clear();
      ghost var was: Rows := buffer[..];
      ghost var up := Up(was);
      var r := 0;
      while r < ROWS - 1
        invariant 0 <= r <= ROWS - 1
        invariant forall i :: 0 <= i < r ==> buffer[i] == was[i + 1]
        invariant forall i :: r <= i < ROWS ==> buffer[i] == was[i]
        invariant RenderedUpTo(up, r)
        invariant forall px, py :: writer.Inside(px, py) && !InArea(px, py) ==>
                    writer.Pixel(px, py) == old(writer.Pixel(px, py))
      {
        buffer[r] := buffer[r + 1];
        assert Padded(was[r + 1]);
        DrawRow(r, buffer[r], up);
        r := r + 1;
      }
      buffer[ROWS - 1] := ZeroRow();
      assert buffer[..] == up;
      UsedIs(ZeroRow(), 0);
    }

    /** The first `r` rows are drawn and the others are empty. */
    ghost predicate RenderedUpTo(rows: Rows, r: nat)
      reads writer.frameBuffer
      requires writer.Valid() && writer.scanLine >= WIDTH && writer.height >= HEIGHT
    {
      forall px, py :: InArea(px, py) ==>
        writer.Pixel(px, py) == if py / GLYPH_HEIGHT < r then Rendered(rows, px, py) else background
    }

    method DrawRow(r: nat, s: Row, ghost rows: Rows)
      requires writer.Valid() && writer.scanLine >= WIDTH && writer.height >= HEIGHT
      requires r < ROWS && s == rows[r] && Padded(s) && RenderedUpTo(rows, r)
      modifies writer.frameBuffer
      ensures RenderedUpTo(rows, r + 1)
      ensures forall px, py :: writer.Inside(px, py) && !InArea(px, py) ==>
                writer.Pixel(px, py) == old(writer.Pixel(px, py))
    {
      writer.WriteString(font, 0, GLYPH_HEIGHT * r, s, foreground);
    }

    method Clear()
      requires writer.Valid() && writer.scanLine >= WIDTH && writer.height >= HEIGHT
      modifies writer.frameBuffer
      ensures forall px, py :: InArea(px, py) ==> writer.Pixel(px, py) == background
      ensures forall px, py :: writer.Inside(px, py) && !InArea(px, py) ==>
                writer.Pixel(px, py) == old(writer.Pixel(px, py))
    {
      var y := 0;
      while y < GLYPH_HEIGHT * ROWS
        invariant 0 <= y <= HEIGHT
        invariant forall px, py :: InArea(px, py) && py < y ==> writer.Pixel(px, py) == background
        invariant forall px, py :: writer.Inside(px, py) && !InArea(px, py) ==>
                    writer.Pixel(px, py) == old(writer.Pixel(px, py))
      {
        var x := 0;
        while x < GLYPH_WIDTH * COLUMNS
          invariant 0 <= x <= WIDTH
          invariant forall px, py :: InArea(px, py) && (py < y || (py == y && px < x)) ==>
                      writer.Pixel(px, py) == background
          invariant forall px, py :: writer.Inside(px, py) && !InArea(px, py) ==>
                      writer.Pixel(px, py) == old(writer.Pixel(px, py))
        {
          writer.Write(x, y, background);
          x := x + 1;
        }
        y := y + 1;
      }
    }

    method StartLine()
      requires Valid() && AsRendered()
      modifies this`cursorRow, this`cursorColumn, buffer, writer.frameBuffer
      ensures Valid() && AsRendered() && View() == NewLine(old(View()))
      ensures forall px, py :: writer.Inside(px, py) && !InArea(px, py) ==>
                writer.Pixel(px, py) == old(writer.Pixel(px, py))
    {
      PutKeepsTidy(View(), NEW_LINE);
      ghost var was := View();
      if cursorRow < ROWS - 1 {
        cursorColumn := 0;
        cursorRow := cursorRow + 1;
      } else {
        Scroll();
        cursorColumn := 0;
      }
      assert View() == NewLine(was);
    }

    /** A character at the cursor, where nothing is drawn yet. */
    method DrawAtCursor(c: Char)
      requires Valid() && AsRendered() && c != 0 && c != NEW_LINE && cursorColumn < COLUMNS - 1
      modifies this`cursorColumn, buffer, writer.frameBuffer
      ensures Valid() && AsRendered() && View() == Put(old(View()), c)
      ensures forall px, py :: writer.Inside(px, py) && !InArea(px, py) ==>
                writer.Pixel(px, py) == old(writer.Pixel(px, py))
    {
      PutKeepsTidy(View(), c);
      ghost var was := View();
      writer.WriteChar(font, GLYPH_WIDTH * cursorColumn, GLYPH_HEIGHT * cursorRow, c, foreground);
      buffer[cursorRow] := buffer[cursorRow][cursorColumn := c];
      cursorColumn := cursorColumn + 1;
      assert View() == Put(was, c);
      forall px, py | InArea(px, py) ensures writer.Pixel(px, py) == Rendered(buffer[..], px, py) {
        OneMoreDot(was, c, px, py);
      }
    }

    /** The rendering after a character is the one before, with the dots of the character. */
    lemma OneMoreDot(t: Text, c: Char, px: int, py: int)
      requires Tidy(t) && c != 0 && c != NEW_LINE && t.column < COLUMNS - 1 && InArea(px, py)
      ensures Rendered(Put(t, c).rows, px, py) ==
              if writer.DotAt(font, c, GLYPH_WIDTH * t.column, GLYPH_HEIGHT * t.row, px, py) then foreground
              else Rendered(t.rows, px, py)
    {
      UsedIs(t.rows[t.row][t.column := c], t.column + 1);
    }

    /** `s` is a string up to its terminating zero. */
    method PutString(s: seq<Char>)
      requires Valid() && AsRendered() && 0 in s
      modifies this`cursorRow, this`cursorColumn, buffer, writer.frameBuffer
      ensures Valid() && AsRendered()
      ensures View() == PutAll(old(View()), s[..PixelWriter.Length(s)])
      ensures forall px, py :: writer.Inside(px, py) && !InArea(px, py) ==>
                writer.Pixel(px, py) == old(writer.Pixel(px, py))
    {
      var i := 0;
      ghost var n := PixelWriter.Length(s);
      while s[i] != 0
        invariant i <= n < |s| && Valid() && AsRendered()
        invariant View() == PutAll(old(View()), s[..i])
        invariant forall px, py :: writer.Inside(px, py) && !InArea(px, py) ==>
                    writer.Pixel(px, py) == old(writer.Pixel(px, py))
        decreases |s| - i
      {
        assert s[..i + 1][..i] == s[..i];
        PutChar(s[i]);
        i := i + 1;
      }
    }

    method PutChar(c: Char)
      requires Valid() && AsRendered() && c != 0
      modifies this`cursorRow, this`cursorColumn, buffer, writer.frameBuffer
      ensures Valid() && AsRendered() && View() == Put(old(View()), c)
      ensures forall px, py :: writer.Inside(px, py) && !InArea(px, py) ==>
                writer.Pixel(px, py) == old(writer.Pixel(px, py))
    {
      if c == NEW_LINE {
        StartLine();
      } else if cursorColumn < COLUMNS - 1 {
        DrawAtCursor(c);
      }
    }
  }
}
