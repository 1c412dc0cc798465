/** What is drawn: the panel as lines of text and as pixels. */
module OledPicture {
  import opened Arithmetic
  import opened Machine
  import opened Bits
  import opened OledModel
  import opened OledDisplay

  // ---------- Lines and pixels ----------

  function Lines(p: Panel): nat
    requires p.Valid()
  {
    p.size / p.lineWidth
  }

  lemma LineFits(p: Panel, line: nat)
    requires p.Valid() && line < Lines(p)
    ensures Multiple(line, p.lineWidth) == line * p.lineWidth && line * p.lineWidth + p.lineWidth <= p.size
  {
    BlockFits(line, p.lineWidth, Lines(p));
    MultipleIs(line, p.lineWidth);
    assert p.size == p.lineWidth * (p.size / p.lineWidth) + p.size % p.lineWidth;
  }

  /** A line below the last starts past the end of the buffer. */
  lemma LineBeyond(p: Panel, line: nat)
    requires p.Valid() && line >= Lines(p)
    ensures line * p.lineWidth >= p.size
  {
    MulOrder(Lines(p), line, p.lineWidth);
    assert p.size == p.lineWidth * (p.size / p.lineWidth) + p.size % p.lineWidth;
  }

  function TextLine(p: Panel, buffer: seq<u8>, line: nat): (bytes: seq<u8>)
    requires p.Valid() && |buffer| == p.size && line < Lines(p)
    ensures |bytes| == p.lineWidth
  {
    LineFits(p, line);
    buffer[Multiple(line, p.lineWidth)..Multiple(line, p.lineWidth) + p.lineWidth]
  }

  predicate OnPanel(p: Panel, x: nat, y: nat)
    requires p.Valid()
  {
    x < p.lineWidth && y / 8 < Lines(p)
  }

  /** Eight rows of pixels make a line of text; a byte is a column of it, its lowest bit on top. */
  predicate Pixel(p: Panel, buffer: seq<u8>, x: nat, y: nat)
    requires p.Valid() && |buffer| == p.size && OnPanel(p, x, y)
  {
    Digit(TextLine(p, buffer, y / 8)[x], y % 8)
  }

  lemma PixelByte(p: Panel, buffer: seq<u8>, x: nat, y: nat)
    requires p.Valid() && |buffer| == p.size && OnPanel(p, x, y)
    ensures y / 8 * p.lineWidth + x < p.size
    ensures Pixel(p, buffer, x, y) <==> Digit(buffer[y / 8 * p.lineWidth + x], y % 8)
  {
    LineFits(p, y / 8);
  }

  lemma PokedByte(p: Panel, s: State, index: nat, byte: u8)
    requires p.Valid() && index < |s.buffer|
    ensures Poke(p, s, index, byte).buffer == s.buffer[index := byte]
  {
    assert s.buffer[index] == byte ==> s.buffer[index := byte] == s.buffer;
  }

  /** Where the byte of a pixel is. */
  function ByteAt(p: Panel, x: nat, y: nat): (at: nat)
    requires p.Valid() && OnPanel(p, x, y)
    ensures at < p.size
  {
    LineFits(p, y / 8);
    y / 8 * p.lineWidth + x
  }

  lemma PixelIs(p: Panel, buffer: seq<u8>, x: nat, y: nat, at: nat)
    requires p.Valid() && |buffer| == p.size && OnPanel(p, x, y) && at == ByteAt(p, x, y)
    ensures Pixel(p, buffer, x, y) <==> Digit(buffer[at], y % 8)
  {
    PixelByte(p, buffer, x, y);
  }

  lemma PixelStep(p: Panel, f: Font, s: State, x: u8, y: u8, on: bool, at: nat)
    requires p.Valid() && ValidFont(p, f) && Shape(p, s) && OnPanel(p, x, y) && at == ByteAt(p, x, y)
    ensures Step(p, f, s, WritePixel(x, y, on)).buffer == s.buffer[at := WithDigit(s.buffer[at], y % 8, on)]
  {
    PokedByte(p, s, at, WithDigit(s.buffer[at], y % 8, on));
  }

  lemma BytesDistinct(p: Panel, x: nat, y: nat, x': nat, y': nat)
    requires p.Valid() && OnPanel(p, x, y) && OnPanel(p, x', y')
    ensures ByteAt(p, x, y) == ByteAt(p, x', y') <==> x == x' && y / 8 == y' / 8
  {
    if ByteAt(p, x, y) == ByteAt(p, x', y') {
      PositionsDistinct(y / 8, x, y' / 8, x', p.lineWidth);
    }
  }

  /** A pixel written reads back, and no other pixel of the panel changes. */
  lemma PixelWritten(p: Panel, f: Font, s: State, x: u8, y: u8, on: bool, x': nat, y': nat)
    requires p.Valid() && ValidFont(p, f) && Shape(p, s) && OnPanel(p, x, y) && OnPanel(p, x', y')
    ensures var s' := Step(p, f, s, WritePixel(x, y, on));
            && |s'.buffer| == p.size
            && (Pixel(p, s'.buffer, x', y') <==> if x' == x && y' == y then on else Pixel(p, s.buffer, x', y'))
  {
    var at, other := ByteAt(p, x, y), ByteAt(p, x', y');
    PixelStep(p, f, s, x, y, on, at);
    PixelIs(p, s.buffer, x', y', other);
    PixelIs(p, s.buffer[at := WithDigit(s.buffer[at], y % 8, on)], x', y', other);
    BytesDistinct(p, x, y, x', y');
    PixelSet(s.buffer[at], y % 8, on, y' % 8);
  }

  /** Outside the panel nothing is written. */
  lemma PixelOutside(p: Panel, f: Font, s: State, x: u8, y: u8, on: bool)
    requires p.Valid() && ValidFont(p, f) && Shape(p, s) && !OnPanel(p, x, y)
    ensures Step(p, f, s, WritePixel(x, y, on)) == s
  {
    if y / 8 >= Lines(p) {
      LineBeyond(p, y / 8);
    }
  }

  lemma ClearedPixels(p: Panel, f: Font, s: State, x: nat, y: nat)
    requires p.Valid() && ValidFont(p, f) && Shape(p, s) && OnPanel(p, x, y)
    ensures !Pixel(p, Step(p, f, s, Clear).buffer, x, y) && Step(p, f, s, Clear).cursor == 0
  {
    PixelByte(p, Step(p, f, s, Clear).buffer, x, y);
    NoDigits(y % 8);
  }

  // ---------- Characters ----------

  /** Column `j` of a character: what the font says, or blank if it is not in the font. */
  function FontByte(p: Panel, f: Font, c: u8, j: nat): u8
    requires ValidFont(p, f) && j < p.fontWidth
  {
    if f.first <= c <= f.last then
      MulOrder(c - f.first + 1, f.last + 1 - f.first, p.fontWidth);
      Next(c - f.first, p.fontWidth);
      f.bytes[(c - f.first) * p.fontWidth + j]
    else 0
  }

  function DrawnByte(p: Panel, f: Font, c: u8, invert: bool, j: nat): u8
    requires ValidFont(p, f) && j < p.fontWidth
  {
    if invert then 255 - (FontByte(p, f, c, j) as int) else FontByte(p, f, c, j)
  }

  lemma GlyphBytes(p: Panel, f: Font, c: u8, j: nat)
    requires ValidFont(p, f) && j < p.fontWidth
    ensures Glyph(p, f, c)[j] == FontByte(p, f, c, j)
  {
    if f.first <= c <= f.last {
      MulOrder(c - f.first + 1, f.last + 1 - f.first, p.fontWidth);
      Next(c - f.first, p.fontWidth);
    }
  }

  predicate IsVisible(c: u8) { c != NEWLINE && c != RETURN }

  /** A character is drawn column by column from the cursor on, and nothing else changes. */
  lemma CharacterWritten(p: Panel, f: Font, s: State, c: u8, invert: bool)
    requires p.Valid() && ValidFont(p, f) && Shape(p, s) && IsVisible(c)
    ensures var s' := Step(p, f, s, WriteChar(c, invert));
            && |s'.buffer| == p.size && s.cursor + p.fontWidth <= p.size
            && (forall j :: 0 <= j < p.fontWidth ==> s'.buffer[s.cursor + j] == DrawnByte(p, f, c, invert, j))
            && (forall i :: 0 <= i < p.size && !(s.cursor <= i < s.cursor + p.fontWidth) ==> s'.buffer[i] == s.buffer[i])
  {
    GlyphFits(p, s.cursor);
    forall j | 0 <= j < p.fontWidth
      ensures Glyph(p, f, c)[j] == FontByte(p, f, c, j)
    {
      GlyphBytes(p, f, c, j);
    }
  }

  lemma CellByte(p: Panel, line: nat, x: nat, k: nat)
    requires p.Valid() && line < Lines(p) && x < p.lineWidth && k < 8
    ensures OnPanel(p, x, line * 8 + k) && (line * 8 + k) % 8 == k
    ensures ByteAt(p, x, line * 8 + k) == Multiple(line, p.lineWidth) + x
  {
    assert (line * 8 + k) / 8 == line;
    LineFits(p, line);
  }

  predicate Shows(p: Panel, buffer: seq<u8>, x: nat, y: nat, on: bool)
    requires p.Valid()
  {
    |buffer| == p.size && OnPanel(p, x, y) && (Pixel(p, buffer, x, y) <==> on)
  }

  lemma DrawnPixel(p: Panel, f: Font, s: State, c: u8, invert: bool, j: nat, k: nat, x: nat, y: nat)
    requires p.Valid() && ValidFont(p, f) && Shape(p, s) && IsVisible(c)
    requires j < p.fontWidth && OnPanel(p, x, y) && ByteAt(p, x, y) == s.cursor + j && y % 8 == k
    ensures Shows(p, Step(p, f, s, WriteChar(c, invert)).buffer, x, y, Digit(DrawnByte(p, f, c, invert, j), k))
  {
    CharacterWritten(p, f, s, c, invert);
    PixelIs(p, Step(p, f, s, WriteChar(c, invert)).buffer, x, y, s.cursor + j);
  }

  /** In pixels: a character written in a column of a line is drawn into the cell of that column and line. */
  lemma CharacterPixels(p: Panel, f: Font, s: State, c: u8, invert: bool, col: u8, line: u8, j: nat, k: nat)
    requires p.Valid() && ValidFont(p, f) && Shape(p, s) && IsVisible(c)
    requires Multiple(col + 1, p.fontWidth) <= p.lineWidth && line < Lines(p) && j < p.fontWidth && k < 8
    requires s.cursor == Multiple(line, p.lineWidth) + Multiple(col, p.fontWidth)
    ensures Shows(p, Step(p, f, s, WriteChar(c, invert)).buffer, Multiple(col, p.fontWidth) + j, line * 8 + k,
                  Digit(DrawnByte(p, f, c, invert, j), k))
  {
    var x := Multiple(col, p.fontWidth) + j;
    CellByte(p, line, x, k);
    DrawnPixel(p, f, s, c, invert, j, k, x, line * 8 + k);
  }

  lemma CharWraps(p: Panel, col: nat, line: nat)
    requires p.Valid() && (col + 1) * p.fontWidth <= p.lineWidth
    ensures WrapCursor(p, CharIndex(p, col, line))
         == if line < Lines(p) then Multiple(line, p.lineWidth) + Multiple(col, p.fontWidth) else 0
  {
    MultipleIs(col, p.fontWidth);
    if line < Lines(p) {
      Next(col, p.fontWidth);
      LineFits(p, line);
    } else {
      LineBeyond(p, line);
    }
  }

  /** Setting the cursor goes to the character in a column of a line, or to the start if the line is below the panel. */
  lemma CursorGoes(p: Panel, f: Font, s: State, col: u8, line: u8)
    requires p.Valid() && ValidFont(p, f) && Shape(p, s) && Allowed(p, SetCursor(col, line))
    ensures Step(p, f, s, SetCursor(col, line))
         == s.(cursor := if line < Lines(p) then Multiple(line, p.lineWidth) + Multiple(col, p.fontWidth) else 0)
  {
    CharWraps(p, col, line);
  }

  // ---------- Where text goes on ----------

  /** The start of the line after `line`, or of the first. */
  function LineAfter(p: Panel, line: nat): nat
    requires p.Valid()
  {
    if line + 1 < Lines(p) then Multiple(line + 1, p.lineWidth) else 0
  }

  lemma LinesFollow(p: Panel, line: nat)
    requires p.Valid() && line < Lines(p)
    ensures Multiple(line, p.lineWidth) == line * p.lineWidth
    ensures Multiple(line + 1, p.lineWidth) == line * p.lineWidth + p.lineWidth == (line + 1) * p.lineWidth
    ensures LineAfter(p, line) == WrapCursor(p, line * p.lineWidth + p.lineWidth)
  {
    LineFits(p, line);
    Next(line, p.lineWidth);
    if line + 1 < Lines(p) {
      LineFits(p, line + 1);
    } else {
      LineBeyond(p, line + 1);
    }
  }

  lemma NextLineIs(p: Panel, line: nat, x: nat)
    requires p.Valid() && line < Lines(p) && x < p.lineWidth
    ensures Multiple(line, p.lineWidth) + x < p.size
    ensures NextLine(p, Multiple(line, p.lineWidth) + x) == LineAfter(p, line)
  {
    LineFits(p, line);
    LinesFollow(p, line);
    DivisionUnique(line * p.lineWidth + x, p.lineWidth, line, x);
  }

  /** Text goes on in the next column while a character fits there, then on the next line, then at the top. */
  lemma AdvanceIs(p: Panel, line: nat, x: nat)
    requires p.Valid() && line < Lines(p) && x + p.fontWidth <= p.lineWidth
    ensures OnLine(p, Multiple(line, p.lineWidth) + x)
    ensures Advance(p, Multiple(line, p.lineWidth) + x)
         == if x + 2 * p.fontWidth <= p.lineWidth then Multiple(line, p.lineWidth) + x + p.fontWidth else LineAfter(p, line)
  {
    LineFits(p, line);
    LinesFollow(p, line);
    var x' := x + p.fontWidth;
    DivisionUnique(line * p.lineWidth + x, p.lineWidth, line, x);
    if x' == p.lineWidth {
      DivisionUnique((line + 1) * p.lineWidth, p.lineWidth, line + 1, 0);
    } else {
      DivisionUnique(line * p.lineWidth + x', p.lineWidth, line, x');
    }
  }

  /** A carriage return goes to the start of the next line and draws nothing. */
  lemma ReturnGoes(p: Panel, f: Font, s: State, line: nat, x: nat)
    requires p.Valid() && ValidFont(p, f) && Shape(p, s)
    requires line < Lines(p) && x < p.lineWidth && s.cursor == Multiple(line, p.lineWidth) + x
    ensures Step(p, f, s, WriteChar(RETURN, false)) == s.(cursor := LineAfter(p, line))
    ensures Step(p, f, s, AdvancePage(false)) == s.(cursor := LineAfter(p, line))
  {
    NextLineIs(p, line, x);
  }

  /** After a visible character the cursor is in the next column, or on the next line if none fits there. */
  lemma CharacterAdvances(p: Panel, f: Font, s: State, c: u8, invert: bool, line: nat, x: nat)
    requires p.Valid() && ValidFont(p, f) && Shape(p, s) && IsVisible(c)
    requires line < Lines(p) && x + p.fontWidth <= p.lineWidth && s.cursor == Multiple(line, p.lineWidth) + x
    ensures Step(p, f, s, WriteChar(c, invert)).cursor
         == if x + 2 * p.fontWidth <= p.lineWidth then s.cursor + p.fontWidth else LineAfter(p, line)
  {
    AdvanceIs(p, line, x);
  }

  // ---------- The rest of a line ----------

  /** The bytes of `g` over and over in the range from `from` to `to`, the rest as it was. */
  predicate Tiles(was: seq<u8>, now: seq<u8>, from: nat, to: nat, g: seq<u8>)
    requires g != []
  {
    && |now| == |was| && from <= to <= |was|
    && forall i :: 0 <= i < |was| ==> now[i] == if from <= i < to then g[Column(|g|, i - from)] else was[i]
  }

  lemma {:induction false} ColumnIn(n: nat, w: nat, j: nat)
    requires j < w
    ensures Column(w, Multiple(n, w) + j) == j
  {
    if n > 0 {
      ColumnIn(n - 1, w, j);
    }
  }

  lemma OneMoreTile(was: seq<u8>, now: seq<u8>, from: nat, at: nat, g: seq<u8>, n: nat)
    requires g != [] && at == from + Multiple(n, |g|) && Tiles(was, now, from, at, g) && at + |g| <= |was|
    ensures Tiles(was, Overwrite(now, at, g), from, at + |g|, g)
  {
    var now' := Overwrite(now, at, g);
    forall i | 0 <= i < |was|
      ensures now'[i] == if from <= i < at + |g| then g[Column(|g|, i - from)] else was[i]
    {
      if at <= i < at + |g| {
        ColumnIn(n, |g|, i - at);
      }
    }
  }

  /** The line has room for what is left of it: a glyph more goes on in the next column, or on the next line. */
  lemma GlyphMore(p: Panel, s: State, g: seq<u8>, line: nat, x: nat)
    requires p.Valid() && Shape(p, s) && |g| == p.fontWidth && line < Lines(p)
    requires s.cursor == Multiple(line, p.lineWidth) + x && x + p.fontWidth <= p.lineWidth
    ensures s.cursor + p.fontWidth <= p.size
    ensures PutGlyph(p, s, g).buffer == Overwrite(s.buffer, s.cursor, g)
    ensures PutGlyph(p, s, g).cursor
         == if x + 2 * p.fontWidth <= p.lineWidth then s.cursor + p.fontWidth else LineAfter(p, line)
  {
    GlyphFits(p, s.cursor);
    AdvanceIs(p, line, x);
  }

  /** What `n` glyphs from a position on have done. */
  predicate Tiled(p: Panel, s: State, s': State, g: seq<u8>, n: nat, line: nat, x: nat)
    requires p.Valid() && |g| == p.fontWidth
  {
    && Tiles(s.buffer, s'.buffer, s.cursor, s.cursor + Multiple(n, |g|), g)
    && s'.cursor == if n == 0 || x + Multiple(n, |g|) + |g| <= p.lineWidth then s.cursor + Multiple(n, |g|)
                    else LineAfter(p, line)
  }

  lemma TileMore(p: Panel, s: State, before: State, g: seq<u8>, m: nat, n: nat, line: nat, x: nat)
    requires p.Valid() && n == m + 1
    requires Shape(p, s) && Shape(p, before) && |g| == p.fontWidth && line < Lines(p)
    requires s.cursor == Multiple(line, p.lineWidth) + x && x + Multiple(m, p.fontWidth) + p.fontWidth <= p.lineWidth
    requires Tiled(p, s, before, g, m, line, x)
    ensures Tiled(p, s, PutGlyph(p, before, g), g, n, line, x)
  {
    var done := Multiple(m, p.fontWidth);
    TileCursor(p, s, before, g, m, line, x, done);
    GlyphMore(p, before, g, line, x + done);
    OneMoreTile(s.buffer, before.buffer, s.cursor, s.cursor + done, g, m);
    TilesEnd(p, s, PutGlyph(p, before, g), g, n, line, x, done + p.fontWidth);
  }

  lemma TilesEnd(p: Panel, s: State, s': State, g: seq<u8>, n: nat, line: nat, x: nat, done: nat)
    requires p.Valid() && |g| == p.fontWidth && n > 0 && done == Multiple(n, p.fontWidth)
    requires Tiles(s.buffer, s'.buffer, s.cursor, s.cursor + done, g)
    requires s'.cursor == if x + done + p.fontWidth <= p.lineWidth then s.cursor + done else LineAfter(p, line)
    ensures Tiled(p, s, s', g, n, line, x)
  {
  }

  lemma TileCursor(p: Panel, s: State, before: State, g: seq<u8>, m: nat, line: nat, x: nat, done: nat)
    requires p.Valid() && |g| == p.fontWidth && done == Multiple(m, p.fontWidth)
    requires s.cursor == Multiple(line, p.lineWidth) + x && x + done + p.fontWidth <= p.lineWidth
    requires Tiled(p, s, before, g, m, line, x)
    ensures before.cursor == s.cursor + done == Multiple(line, p.lineWidth) + (x + done)
  {
  }

  /** `n` glyphs on a line that has room for them. */
  lemma {:induction false} GlyphsTile(p: Panel, s: State, g: seq<u8>, n: nat, line: nat, x: nat)
    requires p.Valid() && Shape(p, s) && |g| == p.fontWidth && line < Lines(p)
    requires s.cursor == Multiple(line, p.lineWidth) + x && x + Multiple(n, p.fontWidth) <= p.lineWidth
    ensures Tiled(p, s, PutGlyphs(p, s, g, n), g, n, line, x)
  {
    if n == 0 {
      NoTiles(p, s, g, line, x);
    } else {
      var m := n - 1;
      RoomForOne(p, x, m, n);
      GlyphsTile(p, s, g, m, line, x);
      OneMoreGlyph(p, s, g, n);
      var before := PutGlyphs(p, s, g, m);
      TileMore(p, s, before, g, m, n, line, x);
    }
  }

  lemma NoTiles(p: Panel, s: State, g: seq<u8>, line: nat, x: nat)
    requires p.Valid() && Shape(p, s) && |g| == p.fontWidth
    ensures Tiled(p, s, s, g, 0, line, x)
  {
  }

  lemma RoomForOne(p: Panel, x: nat, m: nat, n: nat)
    requires n == m + 1 && x + Multiple(n, p.fontWidth) <= p.lineWidth
    ensures x + Multiple(m, p.fontWidth) + p.fontWidth <= p.lineWidth
  {
  }

  lemma WholeColumns(x: nat, lineWidth: nat, fontWidth: nat, n: nat)
    requires 0 < fontWidth && x + fontWidth <= lineWidth && n == (lineWidth - x) / fontWidth
    ensures n > 0 && x + Multiple(n, fontWidth) <= lineWidth < x + Multiple(n, fontWidth) + fontWidth
  {
    MultipleIs(n, fontWidth);
    var r := (lineWidth - x) % fontWidth;
    assert lineWidth - x == fontWidth * n + r;
  }

  lemma CursorColumn(p: Panel, cursor: nat, line: nat, x: nat)
    requires p.Valid() && OnLine(p, cursor) && line < Lines(p) && x < p.lineWidth
    requires cursor == Multiple(line, p.lineWidth) + x
    ensures cursor % p.lineWidth == x && x + p.fontWidth <= p.lineWidth
  {
    MultipleIs(line, p.lineWidth);
    DivisionUnique(cursor, p.lineWidth, line, x);
  }

  /** The rest of the line is blank, as far as whole characters go. */
  predicate BlankTo(p: Panel, f: Font, was: seq<u8>, now: seq<u8>, from: nat, to: nat)
    requires ValidFont(p, f) && p.fontWidth > 0
  {
    && |now| == |was|
    && forall i :: 0 <= i < |was| ==>
         now[i] == if from <= i < to then FontByte(p, f, SPACE, Column(p.fontWidth, i - from)) else was[i]
  }

  lemma TilesBlank(p: Panel, f: Font, was: seq<u8>, now: seq<u8>, from: nat, to: nat)
    requires ValidFont(p, f) && p.fontWidth > 0 && Tiles(was, now, from, to, Glyph(p, f, SPACE))
    ensures BlankTo(p, f, was, now, from, to)
  {
    forall i | from <= i < to
      ensures now[i] == FontByte(p, f, SPACE, Column(p.fontWidth, i - from))
    {
      GlyphBytes(p, f, SPACE, Column(p.fontWidth, i - from));
    }
  }

  /** How many blanks a newline writes. */
  lemma BlanksLeft(p: Panel, f: Font, s: State, line: nat, x: nat) returns (n: nat)
    requires p.Valid() && ValidFont(p, f) && Shape(p, s)
    requires line < Lines(p) && x < p.lineWidth && s.cursor == Multiple(line, p.lineWidth) + x
    ensures n > 0 && x + Multiple(n, p.fontWidth) <= p.lineWidth < x + Multiple(n, p.fontWidth) + p.fontWidth
    ensures ClearPageRemainder(p, f, s) == PutGlyphs(p, s, Glyph(p, f, SPACE), n)
  {
    CursorColumn(p, s.cursor, line, x);
    n := (p.lineWidth - x) / p.fontWidth;
    WholeColumns(x, p.lineWidth, p.fontWidth, n);
  }

  /** How far a line is blanked: to its end, but for less than a character. */
  predicate ToLineEnd(p: Panel, line: nat, to: nat) {
    to <= Multiple(line, p.lineWidth) + p.lineWidth < to + p.fontWidth
  }

  lemma BlanksWritten(p: Panel, f: Font, s: State, s': State, line: nat, x: nat, n: nat)
    requires p.Valid() && ValidFont(p, f) && Shape(p, s) && line < Lines(p) && s.cursor == Multiple(line, p.lineWidth) + x
    requires n > 0 && x + Multiple(n, p.fontWidth) <= p.lineWidth < x + Multiple(n, p.fontWidth) + p.fontWidth
    requires s' == PutGlyphs(p, s, Glyph(p, f, SPACE), n)
    ensures s'.cursor == LineAfter(p, line)
    ensures ToLineEnd(p, line, s.cursor + Multiple(n, p.fontWidth))
    ensures BlankTo(p, f, s.buffer, s'.buffer, s.cursor, s.cursor + Multiple(n, p.fontWidth))
  {
    GlyphsTile(p, s, Glyph(p, f, SPACE), n, line, x);
    TilesBlank(p, f, s.buffer, s'.buffer, s.cursor, s.cursor + Multiple(n, p.fontWidth));
  }

  /** A newline fills the rest of the line with blanks, as many as fit, and goes to the start of the next line. */
  lemma LineCleared(p: Panel, f: Font, s: State, line: nat, x: nat)
    requires p.Valid() && ValidFont(p, f) && Shape(p, s)
    requires line < Lines(p) && x < p.lineWidth && s.cursor == Multiple(line, p.lineWidth) + x
    ensures Step(p, f, s, WriteChar(NEWLINE, false)) == Step(p, f, s, AdvancePage(true))
    ensures var s' := Step(p, f, s, AdvancePage(true));
            && s'.cursor == LineAfter(p, line)
            && exists to :: ToLineEnd(p, line, to) && BlankTo(p, f, s.buffer, s'.buffer, s.cursor, to)
  {
    var n := BlanksLeft(p, f, s, line, x);
    BlanksWritten(p, f, s, ClearPageRemainder(p, f, s), line, x, n);
  }

  // ---------- Bytes ----------

  /** Data is written from the cursor on, as much as there is room for; the cursor stays. */
  lemma RawWritten(p: Panel, f: Font, s: State, data: seq<u8>)
    requires p.Valid() && ValidFont(p, f) && Shape(p, s)
    ensures var s' := Step(p, f, s, WriteRaw(data));
            && |s'.buffer| == p.size && s'.cursor == s.cursor
            && forall i :: 0 <= i < p.size ==>
                 s'.buffer[i] == if s.cursor <= i < s.cursor + |data| then data[i - s.cursor] else s.buffer[i]
  {
    PokesWrite(p, s, data, if |data| + s.cursor > p.size then p.size - s.cursor else |data|);
  }

  lemma {:induction false} PokesWrite(p: Panel, s: State, data: seq<u8>, n: nat)
    requires p.Valid() && n <= |data| && s.cursor + n <= |s.buffer|
    ensures forall i :: 0 <= i < |s.buffer| ==>
              Pokes(p, s, data, n).buffer[i] == if s.cursor <= i < s.cursor + n then data[i - s.cursor] else s.buffer[i]
  {
    if n > 0 {
      PokesWrite(p, s, data, n - 1);
      PokedByte(p, Pokes(p, s, data, n - 1), s.cursor + n - 1, data[n - 1]);
    }
  }

  lemma RawByteWritten(p: Panel, f: Font, s: State, byte: u8, index: nat)
    requires p.Valid() && ValidFont(p, f) && Shape(p, s) && index < p.size
    ensures Step(p, f, s, WriteRawByte(byte, index)).buffer == s.buffer[index := byte]
    ensures Step(p, f, s, WriteRawByte(byte, index)).cursor == s.cursor
  {
    PokedByte(p, s, index, byte);
  }

  // ---------- Marks ----------

  /** The block is newly marked because one of its bytes has changed. */
  ghost predicate Deserved(p: Panel, s: State, s': State, b: nat)
    requires p.Valid()
  {
    b in s.dirty || exists i :: 0 <= i < |s.buffer| == |s'.buffer| && s'.buffer[i] != s.buffer[i] && BlockOf(p, i) == b
  }

  /** Writing what is there already marks nothing: every new mark is for a byte that changes. */
  lemma RawMarks(p: Panel, f: Font, s: State, data: seq<u8>, b: nat)
    requires p.Valid() && ValidFont(p, f) && Shape(p, s)
    requires b in Step(p, f, s, WriteRaw(data)).dirty
    ensures Deserved(p, s, Step(p, f, s, WriteRaw(data)), b)
  {
    PokesMark(p, s, data, if |data| + s.cursor > p.size then p.size - s.cursor else |data|, b);
  }

  lemma {:induction false} PokesMark(p: Panel, s: State, data: seq<u8>, n: nat, b: nat)
    requires p.Valid() && n <= |data| && s.cursor + n <= |s.buffer| && b in Pokes(p, s, data, n).dirty
    ensures Deserved(p, s, Pokes(p, s, data, n), b)
  {
    if n > 0 {
      var m, at := n - 1, s.cursor + n - 1;
      var before := Pokes(p, s, data, m);
      PokesWrite(p, s, data, m);
      PokedByte(p, before, at, data[m]);
      if b in before.dirty {
        PokesMark(p, s, data, m, b);
        if b !in s.dirty {
          var i :| 0 <= i < |s.buffer| && before.buffer[i] != s.buffer[i] && BlockOf(p, i) == b;
          assert Pokes(p, s, data, n).buffer[i] == before.buffer[i];
        }
      } else {
        assert Pokes(p, s, data, n).buffer[at] != s.buffer[at];
      }
    }
  }

  lemma ByteMarks(p: Panel, f: Font, s: State, byte: u8, index: nat, b: nat)
    requires p.Valid() && ValidFont(p, f) && Shape(p, s) && index < p.size
    requires b in Step(p, f, s, WriteRawByte(byte, index)).dirty
    ensures Deserved(p, s, Step(p, f, s, WriteRawByte(byte, index)), b)
  {
    PokedByte(p, s, index, byte);
  }

  lemma PixelMarks(p: Panel, f: Font, s: State, x: u8, y: u8, on: bool)
    requires p.Valid() && ValidFont(p, f) && Shape(p, s)
    requires Step(p, f, s, WritePixel(x, y, on)).buffer == s.buffer
    ensures Step(p, f, s, WritePixel(x, y, on)) == s
  {
  }

  /** A character drawn over itself marks nothing; any other marks no block but those of its first and last byte. */
  lemma CharacterMarks(p: Panel, f: Font, s: State, c: u8, invert: bool, b: nat)
    requires p.Valid() && ValidFont(p, f) && Shape(p, s) && IsVisible(c)
    requires b in Step(p, f, s, WriteChar(c, invert)).dirty && b !in s.dirty
    ensures Step(p, f, s, WriteChar(c, invert)).buffer != s.buffer
    ensures b == s.cursor / p.blockSize || b == (s.cursor + p.fontWidth - 1) / p.blockSize
  {
  }

  // ---------- Panning ----------

  /** Each row of the buffer moves by one byte; the byte at the end it moves from stays. */
  lemma RowsPanned(p: Panel, f: Font, s: State, left: bool, page: nat, x: nat)
    requires p.Valid() && ValidFont(p, f) && Shape(p, s) && page < p.pages && x < p.width
    ensures var row := Multiple(page, p.width);
            var s' := Step(p, f, s, Pan(left));
            && |s'.buffer| == p.size && row + p.width <= p.size
            && s'.buffer[row + x] == s.buffer[row + if left then if x + 1 < p.width then x + 1 else x else if x > 0 then x - 1 else x]
  {
    BlockFits(page, p.width, p.pages);
    ColumnIn(page, p.width, x);
  }

  // ---------- The whole display ----------

  /** When every block of a panel that is not rotated is shown, the display is the buffer. */
  lemma DisplayIsBuffer(p: Panel, s: State, txs: seq<Tx>, b: nat, j: nat)
    requires p.Valid() && Shape(p, s) && Coherent(p, s) && !s.scrolling && !p.rotated
    requires Successes(txs) >= p.blocks && b < p.blocks && j < p.blockSize
    ensures var s' := Renders(p, s, txs);
            && |s'.display[b]| == p.blockSize && Multiple(b, p.blockSize) + j < p.size
            && s'.display[b][j] == s.buffer[Multiple(b, p.blockSize) + j]
  {
    DisplayConverges(p, s, txs);
    WindowStarts(p, s.buffer, s.after, b);
    BlockFits(b, p.blockSize, p.blocks);
  }

  /** Scrolling starts exactly when everything has been sent, so the display shows the whole buffer. */
  lemma ScrollStarts(p: Panel, f: Font, s: State, ok: bool)
    requires p.Valid() && ValidFont(p, f) && Shape(p, s) && Coherent(p, s) && !s.scrolling
    ensures Step(p, f, s, ScrollOn(ok)).scrolling <==> s.dirty == {} && ok
    ensures Step(p, f, s, ScrollOn(ok)).scrolling ==>
              forall b :: 0 <= b < p.blocks ==> s.display[b] == Shown(p, Window(p, s.buffer, s.after, b))
  {
  }

  /** While the display scrolls by itself nothing is sent to it. */
  lemma ScrollingSilent(p: Panel, f: Font, s: State, tx: Tx)
    requires p.Valid() && ValidFont(p, f) && Shape(p, s) && s.scrolling
    ensures Step(p, f, s, Render(tx)) == s
  {
  }
}
