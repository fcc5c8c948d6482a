/** Pixels in the frame buffer, and characters drawn with the fixed font. */
module Screens {
  import opened Bits
  import opened Trbs

  datatype Color = Color(r: Byte, g: Byte, b: Byte)

  /** Which of the two byte orders of a pixel the screen uses. */
  datatype PixelFormat = Rgb | Bgr

  /** A `char`, which is signed. */
  type Char = c: int | -128 <= c < 128

  const GLYPH_HEIGHT := 16
  const GLYPH_WIDTH := 8

  /** The font data: sixteen bytes for each of at most 256 characters. */
  type Font = f: seq<Byte> | |f| % 16 == 0 && |f| <= 4096

  /** Where the glyph of a character starts, unless the font does not have it. The conversion
      of a negative character to an unsigned number makes it a huge one. */
  function GlyphIndex(font: Font, c: Char): (i: int)
    ensures i == -1 || (0 <= i && i + 16 <= |font|)
  {
    var index := 16 * (c % TWO_32) % TWO_32;
    if index >= |font| then -1 else GlyphFits(c % TWO_32, |font|); index
  }

  lemma GlyphFits(n: nat, size: nat)
    requires size % 16 == 0 && 16 * n % TWO_32 < size
    ensures 16 * n % TWO_32 + 16 <= size
  {
    var (q, r) := (n / 0x1000_0000, n % 0x1000_0000);
    DivMod(n, 0x1000_0000);
    DivModUnique(16 * n, TWO_32, q, 16 * r);
    DivMod(size, 16);
  }

  /** Characters from 0x80 on, which are negative, have no glyph, whatever the font; the others
      have the one at their own place. */
  lemma NegativeHasNoGlyph(font: Font, c: Char)
    ensures c < 0 ==> GlyphIndex(font, c) == -1
    ensures c >= 0 ==> GlyphIndex(font, c) == if 16 * c < |font| then 16 * c else -1
  {
    if c < 0 {
      assert c % TWO_32 == TWO_32 + c;
      assert 16 * (TWO_32 + c) == 15 * TWO_32 + (TWO_32 + 16 * c);
    }
  }

  /** Whether the glyph of a character has a dot in this column and row: bit 7 of a row's byte
      is its left column. */
  predicate Dot(font: Font, c: Char, dx: nat, dy: nat)
    requires dx < GLYPH_WIDTH && dy < GLYPH_HEIGHT
  {
    var i := GlyphIndex(font, c);
    i >= 0 && Bit(font[i + dy], 7 - dx)
  }

  /** The first of the four bytes of a pixel. */
  function Cell(scanLine: nat, x: nat, y: nat): nat {
    4 * (scanLine * y + x)
  }

  lemma CellIs(scanLine: nat, x: nat, y: nat)
    ensures Cell(scanLine, x, y) == 4 * (scanLine * y + x)
  {
  }

  /** The dot in column `dx` and row `dy` of a character that the font has is bit 7 - dx of byte dy of its
      glyph. */
  lemma DotIsABit(font: Font, c: Char, dx: nat, dy: nat)
    requires dx < 8 && dy < 16
    ensures Dot(font, c, dx, dy) <==> 0 <= c && 16 * c < |font| && font[16 * c + dy] / Pow2(7 - dx) % 2 == 1
  {
    hide Pow2, Bit;
    NegativeHasNoGlyph(font, c);
    if 0 <= c && 16 * c < |font| { BitIsDigit(font[16 * c + dy], 7 - dx); }
  }

  /** Two different pixels inside the scan lines have bytes of their own. */
  lemma CellsAreDisjoint(scanLine: nat, x: nat, y: nat, x': nat, y': nat)
    requires x < scanLine && x' < scanLine && (x != x' || y != y')
    ensures Cell(scanLine, x, y) + 4 <= Cell(scanLine, x', y') || Cell(scanLine, x', y') + 4 <= Cell(scanLine, x, y)
  {
    if y < y' { Lines(scanLine, y, y'); }
    if y' < y { Lines(scanLine, y', y); }
  }

  lemma Lines(scanLine: nat, y: nat, y': nat)
    requires y < y'
    ensures scanLine * y + scanLine <= scanLine * y'
  {
    Times(scanLine, y + 1, y');
  }

  class PixelWriter {
    const frameBuffer: array<Byte>
    const scanLine: nat
    const height: nat
    const format: PixelFormat

    constructor (buffer: array<Byte>, pixelsPerScanLine: nat, lines: nat, f: PixelFormat)
      requires buffer.Length == 4 * (pixelsPerScanLine * lines)
      ensures Valid() && frameBuffer == buffer && scanLine == pixelsPerScanLine && height == lines
    {
      frameBuffer, scanLine, height, format := buffer, pixelsPerScanLine, lines, f;
    }

    predicate Valid() {
      frameBuffer.Length == 4 * (scanLine * height)
    }

    predicate Inside(x: int, y: int) {
      0 <= x < scanLine && 0 <= y < height
    }

    lemma InsideFits(x: int, y: int)
      requires Valid() && Inside(x, y)
      ensures Cell(scanLine, x, y) + 4 <= frameBuffer.Length
    {
      Lines(scanLine, y, height);
    }

    /** The color that the screen shows at a place. */
    ghost function Pixel(x: int, y: int): Color
      requires Valid() && Inside(x, y)
      reads frameBuffer
    {
      InsideFits(x, y);
      var p := Cell(scanLine, x, y);
      match format
      case Rgb => Color(frameBuffer[p], frameBuffer[p + 1], frameBuffer[p + 2])
      case Bgr => Color(frameBuffer[p + 2], frameBuffer[p + 1], frameBuffer[p])
    }

    method Write(x: int, y: int, c: Color)
      requires Valid() && Inside(x, y)
      modifies frameBuffer
      ensures forall px, py :: Inside(px, py) ==>
                Pixel(px, py) == if px == x && py == y then c else old(Pixel(px, py))
      ensures var p := 4 * (scanLine * y + x);
              && 0 <= p && p + 3 < frameBuffer.Length
              && frameBuffer[..] == old(frameBuffer[..p]) + (if format == Rgb then [c.r, c.g, c.b] else [c.b, c.g, c.r])
                                    + old(frameBuffer[p + 3..])
    {
      CellIs(scanLine, x, y);
      hide Cell;
      InsideFits(x, y);
      var p := Cell(scanLine, x, y);
      match format {
        case Rgb => frameBuffer[p], frameBuffer[p + 1], frameBuffer[p + 2] := c.r, c.g, c.b;
        case Bgr => frameBuffer[p], frameBuffer[p + 1], frameBuffer[p + 2] := c.b, c.g, c.r;
      }
      forall px, py | Inside(px, py)
        ensures Pixel(px, py) == if px == x && py == y then c else old(Pixel(px, py))
      {
        InsideFits(px, py);
        if px != x || py != y { CellsAreDisjoint(scanLine, x, y, px, py); }
      }
    }

    /** Whether a place is a dot of character `c` drawn at (x, y). */
    ghost predicate DotAt(font: Font, c: Char, x: int, y: int, px: int, py: int) {
      x <= px < x + GLYPH_WIDTH && y <= py < y + GLYPH_HEIGHT && Dot(font, c, px - x, py - y)
    }

    method WriteChar(font: Font, x: int, y: int, c: Char, color: Color)
      requires Valid() && 0 <= x && x + GLYPH_WIDTH <= scanLine && 0 <= y && y + GLYPH_HEIGHT <= height
      modifies frameBuffer
      ensures forall px, py :: Inside(px, py) ==>
                Pixel(px, py) == if DotAt(font, c, x, y, px, py) then color else old(Pixel(px, py))
    {
      var index := GlyphIndex(font, c);
      if index < 0 {
        return;
      }
      var dy := 0;
      while dy < GLYPH_HEIGHT
        invariant 0 <= dy <= GLYPH_HEIGHT
        invariant forall px, py :: Inside(px, py) ==>
                    Pixel(px, py) == if DotAt(font, c, x, y, px, py) && py < y + dy then color else old(Pixel(px, py))
      {
        var dx := 0;
        while dx < GLYPH_WIDTH
          invariant 0 <= dx <= GLYPH_WIDTH
          invariant forall px, py :: Inside(px, py) ==>
                      Pixel(px, py) ==
                      if DotAt(font, c, x, y, px, py) && (py < y + dy || (py == y + dy && px < x + dx)) then color
                      else old(Pixel(px, py))
        {
          if Bit(font[index + dy], 7 - dx) {
            Write(x + dx, y + dy, color);
          }
          dx := dx + 1;
        }
        dy := dy + 1;
      }
    }

    /** The number of characters before the terminating zero. */
    static function Length(s: seq<Char>): (n: nat)
      ensures n <= |s| && (n < |s| ==> s[n] == 0) && forall i :: 0 <= i < n ==> s[i] != 0
    {
      if s == [] || s[0] == 0 then 0 else 1 + Length(s[1..])
    }

    /** Whether a place is a dot of one of the first `n` characters of a line at (x, y). */
    ghost predicate TextDotAt(font: Font, s: seq<Char>, n: nat, x: int, y: int, px: int, py: int) {
      px >= x && n <= |s| && var i := (px - x) / GLYPH_WIDTH;
      i < n && DotAt(font, s[i], x + GLYPH_WIDTH * i, y, px, py)
    }

    method WriteString(font: Font, x: int, y: int, s: seq<Char>, color: Color)
      requires Valid() && 0 <= x && x + GLYPH_WIDTH * Length(s) <= scanLine && 0 <= y && y + GLYPH_HEIGHT <= height
      requires 0 in s
      modifies frameBuffer
      ensures forall px, py :: Inside(px, py) ==>
                Pixel(px, py) == if TextDotAt(font, s, Length(s), x, y, px, py) then color else old(Pixel(px, py))
    {
      var i := 0;
      while s[i] != 0
        invariant i <= Length(s) < |s|
        invariant forall px, py :: Inside(px, py) ==>
                    Pixel(px, py) == if TextDotAt(font, s, i, x, y, px, py) then color else old(Pixel(px, py))
        decreases |s| - i
      {
        WriteChar(font, x + GLYPH_WIDTH * i, y, s[i], color);
        forall px, py | Inside(px, py)
          ensures TextDotAt(font, s, i + 1, x, y, px, py) <==>
                  TextDotAt(font, s, i, x, y, px, py) || DotAt(font, s[i], x + GLYPH_WIDTH * i, y, px, py)
        {
        }
        i := i + 1;
      }
    }
  }
}
