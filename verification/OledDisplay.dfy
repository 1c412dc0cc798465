/** Drawing, rendering and scrolling as steps on values, and why the display stays coherent. */
module OledDisplay {
  import opened Arithmetic
  import opened Machine
  import opened Sets
  import opened Bits
  import opened OledModel

  /** `after` is the memory that follows the buffer, as far as a source group may reach. */
  datatype State = State(
    buffer: seq<u8>, after: seq<u8>, cursor: nat, dirty: set<nat>, scrolling: bool, display: seq<seq<u8>>)

  /** The glyphs of the characters from `first` to `last`, one after another. */
  datatype Font = Font(first: u8, last: u8, bytes: seq<u8>)

  predicate ValidFont(p: Panel, f: Font) {
    f.first <= f.last && |f.bytes| >= (f.last + 1 - f.first) * p.fontWidth
  }

  /** Whether the two transmissions of a render succeed; if the second fails, what it leaves behind. */
  datatype Tx = Tx(command: bool, data: bool, garbage: seq<u8>)

  datatype Op =
    | Clear
    | SetCursor(col: u8, line: u8)
    | WriteChar(ascii: u8, invert: bool)
    | AdvancePage(clear: bool)
    | WriteRaw(data: seq<u8>)
    | WriteRawByte(byte: u8, index: nat)
    | WritePixel(x: u8, y: u8, on: bool)
    | Pan(left: bool)
    | Render(tx: Tx)
    | ScrollOn(ok: bool)
    | ScrollOff(ok: bool, shown: seq<seq<u8>>)
    | Elsewhere(after: seq<u8>)

  // ---------- The cursor ----------

  /** A whole glyph fits on the cursor's line. */
  predicate OnLine(p: Panel, cursor: nat)
    requires p.lineWidth > 0
  {
    cursor < p.size && cursor % p.lineWidth + p.fontWidth <= p.lineWidth
  }

  lemma GlyphFits(p: Panel, cursor: nat)
    requires p.Valid() && OnLine(p, cursor)
    ensures cursor + p.fontWidth <= p.size
  {
    RunEnds(cursor, p.lineWidth, p.size);
  }

  function WrapCursor(p: Panel, index: nat): nat { if index >= p.size then 0 else index }

  lemma LineStart(index: nat, lineWidth: nat, fontWidth: nat)
    requires 0 < fontWidth <= lineWidth
    ensures (index + (lineWidth - index % lineWidth)) % lineWidth + fontWidth <= lineWidth
    ensures 0 % lineWidth == 0
  {
    RoundUp(index, lineWidth);
    SmallRemainder(0, lineWidth);
  }

  /** The start of the next line, or of the buffer. */
  function NextLine(p: Panel, cursor: nat): (next: nat)
    requires p.Valid() && cursor < p.size
    ensures OnLine(p, next)
  {
    LineStart(cursor, p.lineWidth, p.fontWidth);
    WrapCursor(p, cursor + (p.lineWidth - cursor % p.lineWidth))
  }

  /** Where the character in a column of a line begins. */
  function CharIndex(p: Panel, col: nat, line: nat): nat {
    line * p.lineWidth + col * p.fontWidth
  }

  /** The byte that holds a pixel. */
  function PixelIndex(p: Panel, x: nat, y: nat): nat {
    x + y / 8 * p.lineWidth
  }

  /** One character on, or to the next line if it would not fit. */
  function Advance(p: Panel, cursor: nat): (next: nat)
    requires p.Valid() && OnLine(p, cursor)
    ensures OnLine(p, next)
  {
    var next := cursor + p.fontWidth;
    var remaining := p.lineWidth - next % p.lineWidth;
    LineStart(next, p.lineWidth, p.fontWidth);
    WrapCursor(p, if remaining < p.fontWidth then next + remaining else next)
  }

  // ---------- Drawing ----------

  function Glyph(p: Panel, f: Font, c: u8): (g: seq<u8>)
    requires ValidFont(p, f)
    ensures |g| == p.fontWidth
  {
    if c < f.first || c > f.last then seq(p.fontWidth, _ => 0)
    else
      MulOrder(c - f.first + 1, f.last + 1 - f.first, p.fontWidth);
      Next(c - f.first, p.fontWidth);
      f.bytes[(c - f.first) * p.fontWidth..(c - f.first) * p.fontWidth + p.fontWidth]
  }

  function Inverted(g: seq<u8>): (inverse: seq<u8>)
    ensures |inverse| == |g| && forall i :: 0 <= i < |g| ==> inverse[i] == 255 - g[i]
  {
    seq(|g|, i requires 0 <= i < |g| => 255 - (g[i] as int))
  }

  /** Writes a glyph at the cursor and marks the block of its first byte and that of its last. */
  function PutGlyph(p: Panel, s: State, g: seq<u8>): State
    requires p.Valid() && Shape(p, s) && |g| == p.fontWidth
  {
    GlyphFits(p, s.cursor);
    var buffer := Overwrite(s.buffer, s.cursor, g);
    var marks := {BlockOf(p, s.cursor), BlockOf(p, s.cursor + p.fontWidth - 1)};
    s.(buffer := buffer, cursor := Advance(p, s.cursor), dirty := if buffer == s.buffer then s.dirty else s.dirty + marks)
  }

  /** The same glyph `n` times over. */
  function PutGlyphs(p: Panel, s: State, g: seq<u8>, n: nat): (s': State)
    requires p.Valid() && Shape(p, s) && |g| == p.fontWidth
    ensures Shape(p, s')
  {
    if n == 0 then s
    else
      var before := PutGlyphs(p, s, g, n - 1);
      PutGlyphShape(p, before, g);
      PutGlyph(p, before, g)
  }

  function ClearPageRemainder(p: Panel, f: Font, s: State): State
    requires p.Valid() && ValidFont(p, f) && Shape(p, s)
  {
    PutGlyphs(p, s, Glyph(p, f, SPACE), (p.lineWidth - s.cursor % p.lineWidth) / p.fontWidth)
  }

  /** One byte, marked only if it changes. */
  function Poke(p: Panel, s: State, index: nat, byte: u8): State
    requires p.Valid() && index < |s.buffer|
  {
    if s.buffer[index] == byte then s
    else s.(buffer := s.buffer[index := byte], dirty := s.dirty + {BlockOf(p, index)})
  }

  /** The first `n` bytes of data from the cursor on. */
  function Pokes(p: Panel, s: State, data: seq<u8>, n: nat): (s': State)
    requires p.Valid() && n <= |data| && s.cursor + n <= |s.buffer|
    ensures |s'.buffer| == |s.buffer| && s'.cursor == s.cursor
  {
    if n == 0 then s else Poke(p, Pokes(p, s, data, n - 1), s.cursor + n - 1, data[n - 1])
  }

  function WithDigit(byte: u8, k: nat, on: bool): u8
    requires k < 8
  {
    SmallWeight(k);
    if on then Wrap8(Or(byte, Weight(k))) else Wrap8(And(byte, 255 - Weight(k)))
  }

  /** A pixel is one bit: that bit is set or cleared, and no other. */
  lemma PixelSet(byte: u8, k: nat, on: bool, j: nat)
    requires k < 8 && j < 8
    ensures Digit(WithDigit(byte, k, on), j) <==> if j == k then on else Digit(byte, j)
  {
    SmallWeight(k);
    if on {
      ByteDigits(Or(byte, Weight(k)), j);
      OrDigits(byte, Weight(k), j);
      WeightDigits(k, j);
    } else {
      ByteDigits(And(byte, 255 - Weight(k)), j);
      AndDigits(byte, 255 - Weight(k), j);
      OtherDigits(k, j);
    }
  }

  lemma {:induction false} OtherDigits(k: nat, j: nat)
    requires k < 8 && j < 8
    ensures Weight(k) <= 255 && (Digit(255 - Weight(k), j) <==> j != k)
  {
    SmallWeight(k);
    Complement(8, k, j);
  }

  /** All ones but one. */
  lemma {:induction false} Complement(n: nat, k: nat, j: nat)
    requires k < n && j < n
    ensures Weight(k) < Weight(n) && (Digit(Weight(n) - 1 - Weight(k), j) <==> j != k)
  {
    if k > 0 {
      if j > 0 {
        Complement(n - 1, k - 1, j - 1);
      } else {
        Complement(n - 1, k - 1, 0);
      }
      OddComplement(Weight(n - 1) - 1 - Weight(k - 1), j);
    } else if j > 0 {
      AllOnes(n - 1, j - 1);
      EvenComplement(Weight(n - 1) - 1, j);
    }
  }

  lemma OddComplement(x: nat, j: nat)
    ensures Digit(2 * x + 1, j) <==> j == 0 || Digit(x, j - 1)
  {
    assert (2 * x + 1) / 2 == x;
  }

  lemma EvenComplement(x: nat, j: nat)
    requires j > 0
    ensures Digit(2 * x, j) <==> Digit(x, j - 1)
  {
  }

  lemma {:induction false} AllOnes(n: nat, j: nat)
    requires j < n
    ensures Digit(Weight(n) - 1, j)
  {
    if j > 0 {
      AllOnes(n - 1, j - 1);
    }
  }

  lemma {:induction false} WeightOrder(k: nat, n: nat)
    requires k <= n
    ensures Weight(k) <= Weight(n)
  {
    if k < n {
      WeightOrder(k, n - 1);
    }
  }

  lemma SmallWeight(k: nat)
    requires k < 8
    ensures Weight(k) <= 128
  {
    WeightOrder(k, 7);
    assert Weight(7) == 128 by {
      assert Weight(4) == 16;
    }
  }

  /** Each row moved one byte to the left or right; the byte at the far end stays. */
  function Panned(p: Panel, buffer: seq<u8>, left: bool): (buffer': seq<u8>)
    requires p.Valid() && |buffer| == p.size
    ensures |buffer'| == |buffer|
    ensures forall i :: 0 <= i < |buffer| ==> buffer'[i] == PannedByte(p.width, buffer, left, i)
  {
    seq(|buffer|, i requires 0 <= i < |buffer| => PannedByte(p.width, buffer, left, i))
  }

  /** Where in its row a byte is. */
  function Column(width: nat, i: nat): (x: nat)
    requires width > 0
    ensures x <= i && x < width
  {
    if i < width then i else Column(width, i - width)
  }

  /** The last byte of the buffer ends a row. */
  function PannedByte(width: nat, buffer: seq<u8>, left: bool, i: nat): u8
    requires width > 0 && i < |buffer|
  {
    var x := Column(width, i);
    if left then if x < width - 1 && i + 1 < |buffer| then buffer[i + 1] else buffer[i]
    else if x > 0 then buffer[i - 1]
    else buffer[i]
  }

  // ---------- Rendering ----------

  /** What the display shows of a block once it has been sent. */
  function Shown(p: Panel, window: seq<u8>): seq<u8>
    requires p.Valid() && |window| == p.blockSize + p.beyond
  {
    if p.rotated then RotateBlock(p, window, |p.source|) else window[..p.blockSize]
  }

  /** The lowest dirty block from `from` on, or `n` if there is none. */
  function FirstDirty(dirty: set<nat>, from: nat, n: nat): (b: nat)
    requires from <= n
    ensures from <= b <= n && (b < n ==> b in dirty) && forall x :: from <= x < b ==> x !in dirty
    decreases n - from
  {
    if from == n || from in dirty then from else FirstDirty(dirty, from + 1, n)
  }

  /** Sends the first dirty block, if any; it stays dirty unless both transmissions succeed. */
  function RenderStep(p: Panel, s: State, tx: Tx): State
    requires p.Valid() && Shape(p, s)
  {
    var b := FirstDirty(s.dirty, 0, p.blocks);
    if b == p.blocks || s.scrolling || !tx.command then s
    else if !tx.data then s.(display := s.display[b := tx.garbage])
    else s.(display := s.display[b := Shown(p, Window(p, s.buffer, s.after, b))], dirty := s.dirty - {b})
  }

  // ---------- Steps and runs ----------

  predicate Shape(p: Panel, s: State)
    requires p.Valid()
  {
    && |s.buffer| == p.size && |s.after| == p.beyond && |s.display| == p.blocks
    && OnLine(p, s.cursor)
    && (forall b <- s.dirty :: b < p.blocks)
  }

  predicate Allowed(p: Panel, op: Op)
    requires p.Valid()
  {
    match op
    case SetCursor(col, _) => (col + 1) * p.fontWidth <= p.lineWidth
    case WriteRawByte(_, index) => index < p.size
    case ScrollOff(_, shown) => |shown| == p.blocks
    case Elsewhere(after) => |after| == p.beyond
    case _ => true
  }

  const SPACE: u8 := 32
  const NEWLINE: u8 := 10
  const RETURN: u8 := 13

  function Step(p: Panel, f: Font, s: State, op: Op): State
    requires p.Valid() && ValidFont(p, f) && Shape(p, s) && Allowed(p, op)
  {
    match op
    case Clear => s.(buffer := seq(p.size, _ => 0), cursor := 0, dirty := AllBlocks(p))
    case SetCursor(col, line) => s.(cursor := WrapCursor(p, CharIndex(p, col, line)))
    case WriteChar(c, invert) =>
      if c == NEWLINE then ClearPageRemainder(p, f, s)
      else if c == RETURN then s.(cursor := NextLine(p, s.cursor))
      else PutGlyph(p, s, if invert then Inverted(Glyph(p, f, c)) else Glyph(p, f, c))
    case AdvancePage(clear) => if clear then ClearPageRemainder(p, f, s) else s.(cursor := NextLine(p, s.cursor))
    case WriteRaw(data) => Pokes(p, s, data, if |data| + s.cursor > p.size then p.size - s.cursor else |data|)
    case WriteRawByte(byte, index) => Poke(p, s, index, byte)
    case WritePixel(x, y, on) =>
      var index := PixelIndex(p, x, y);
      if x >= p.lineWidth || index >= p.size then s else Poke(p, s, index, WithDigit(s.buffer[index], y % 8, on))
    case Pan(left) => s.(buffer := Panned(p, s.buffer, left), dirty := AllBlocks(p))
    case Render(tx) => RenderStep(p, s, tx)
    case ScrollOn(ok) => if s.dirty == {} && !s.scrolling && ok then s.(scrolling := true) else s
    case ScrollOff(ok, shown) => if s.scrolling && ok then s.(scrolling := false, dirty := AllBlocks(p), display := shown) else s
    case Elsewhere(after) => s.(after := after)
  }

  // ---------- Coherence ----------

  /** Unless the display scrolls by itself, every clean block shows what the buffer holds. */
  ghost predicate Coherent(p: Panel, s: State)
    requires p.Valid() && Shape(p, s)
  {
    !s.scrolling ==> forall b :: 0 <= b < p.blocks && b !in s.dirty ==> s.display[b] == Shown(p, Window(p, s.buffer, s.after, b))
  }

  /** Every byte that changed lies in a block that is now marked. */
  ghost predicate Marked(p: Panel, s: State, s': State)
    requires p.Valid()
  {
    && |s'.buffer| == |s.buffer| && s'.after == s.after && s'.display == s.display && s'.scrolling == s.scrolling
    && s.dirty <= s'.dirty
    && forall i :: 0 <= i < |s.buffer| && s'.buffer[i] != s.buffer[i] ==> BlockOf(p, i) in s'.dirty
  }

  lemma ByteOfBlock(b: nat, k: nat, blockSize: nat)
    requires k < blockSize
    ensures (Multiple(b, blockSize) + k) / blockSize == b
  {
    MultipleIs(b, blockSize);
    DivisionUnique(Multiple(b, blockSize) + k, blockSize, b, k);
  }

  lemma SameBlock(p: Panel, buffer: seq<u8>, buffer': seq<u8>, b: nat)
    requires p.Valid() && |buffer| == |buffer'| == p.size && b < p.blocks
    requires forall i :: 0 <= i < |buffer| && BlockOf(p, i) == b ==> buffer[i] == buffer'[i]
    ensures Block(p, buffer, b) == Block(p, buffer', b)
  {
    var x, y := Block(p, buffer, b), Block(p, buffer', b);
    var from := Multiple(b, p.blockSize);
    forall k | 0 <= k < p.blockSize
      ensures x[k] == y[k]
    {
      BlockFits(b, p.blockSize, p.blocks);
      ByteOfBlock(b, k, p.blockSize);
      assert BlockOf(p, from + k) == b;
    }
  }

  /** What is shown of a block made up of its own bytes depends on no others. */
  lemma ShownLocal(p: Panel, w: seq<u8>, w': seq<u8>)
    requires p.Valid() && Local(p) && |w| == |w'| == p.blockSize + p.beyond && w[..p.blockSize] == w'[..p.blockSize]
    ensures Shown(p, w) == Shown(p, w')
  {
    if p.rotated {
      RotateLocal(p, w, w', |p.source|);
    }
  }

  lemma {:induction false} RotateLocal(p: Panel, w: seq<u8>, w': seq<u8>, n: nat)
    requires p.Valid() && Local(p) && p.rotated && n <= |p.source|
    requires |w| == |w'| == p.blockSize + p.beyond && w[..p.blockSize] == w'[..p.blockSize]
    ensures RotateBlock(p, w, n) == RotateBlock(p, w', n)
  {
    if n > 0 {
      RotateLocal(p, w, w', n - 1);
      RotateLocalMore(p, w, w', n);
    }
  }

  lemma RotateLocalMore(p: Panel, w: seq<u8>, w': seq<u8>, n: nat)
    requires p.Valid() && Local(p) && p.rotated && 0 < n <= |p.source|
    requires |w| == |w'| == p.blockSize + p.beyond && w[..p.blockSize] == w'[..p.blockSize]
    ensures RotateBlock(p, w, n - 1) == RotateBlock(p, w', n - 1) ==> RotateBlock(p, w, n) == RotateBlock(p, w', n)
  {
    SameGroup(w, w', p.blockSize, p.source[n - 1]);
  }

  lemma SameGroup(w: seq<u8>, w': seq<u8>, n: nat, at: nat)
    requires at + 8 <= n <= |w| == |w'| && w[..n] == w'[..n]
    ensures Group(w, at) == Group(w', at)
  {
    assert w[at..at + 8] == w[..n][at..at + 8] && w'[at..at + 8] == w'[..n][at..at + 8];
  }

  /** A block with the same bytes is shown the same, whatever follows the buffer. */
  lemma ShownSame(p: Panel, buffer: seq<u8>, after: seq<u8>, buffer': seq<u8>, after': seq<u8>, b: nat)
    requires p.Valid() && Local(p) && |buffer| == |buffer'| == p.size && |after| == |after'| == p.beyond && b < p.blocks
    requires Block(p, buffer, b) == Block(p, buffer', b)
    ensures Shown(p, Window(p, buffer, after, b)) == Shown(p, Window(p, buffer', after', b))
  {
    WindowStarts(p, buffer, after, b);
    WindowStarts(p, buffer', after', b);
    ShownLocal(p, Window(p, buffer, after, b), Window(p, buffer', after', b));
  }

  lemma MarkedKeeps(p: Panel, s: State, s': State)
    requires p.Valid() && Local(p) && Shape(p, s) && Shape(p, s') && Coherent(p, s) && Marked(p, s, s')
    ensures Coherent(p, s')
  {
    if !s'.scrolling {
      forall b | 0 <= b < p.blocks && b !in s'.dirty
        ensures s'.display[b] == Shown(p, Window(p, s'.buffer, s'.after, b))
      {
        SameBlock(p, s.buffer, s'.buffer, b);
        ShownSame(p, s.buffer, s.after, s'.buffer, s'.after, b);
      }
    }
  }

  lemma ElsewhereKeeps(p: Panel, s: State, after: seq<u8>)
    requires p.Valid() && Local(p) && Shape(p, s) && Coherent(p, s) && |after| == p.beyond
    ensures Coherent(p, s.(after := after))
  {
    forall b | 0 <= b < p.blocks
      ensures Shown(p, Window(p, s.buffer, after, b)) == Shown(p, Window(p, s.buffer, s.after, b))
    {
      ShownSame(p, s.buffer, s.after, s.buffer, after, b);
    }
  }

  lemma BlockBound(p: Panel, i: nat)
    requires p.Valid() && i < p.size
    ensures i / p.blockSize < p.blocks
  {
    BlockInRange(i, p.blockSize, p.blocks);
  }

  /** A glyph reaches into no other block than those of its first and its last byte. */
  lemma GlyphTouchesTwo(p: Panel, cursor: nat, i: nat)
    requires p.Valid() && cursor <= i < cursor + p.fontWidth
    ensures i / p.blockSize == cursor / p.blockSize || i / p.blockSize == (cursor + p.fontWidth - 1) / p.blockSize
  {
    var last := cursor + p.fontWidth - 1;
    DivisionOrder(cursor, i, p.blockSize);
    DivisionOrder(i, last, p.blockSize);
    NextBlock(cursor, last, p.blockSize);
  }

  lemma PutGlyphShape(p: Panel, s: State, g: seq<u8>)
    requires p.Valid() && Shape(p, s) && |g| == p.fontWidth
    ensures Shape(p, PutGlyph(p, s, g))
  {
    GlyphFits(p, s.cursor);
    BlockBound(p, s.cursor);
    BlockBound(p, s.cursor + p.fontWidth - 1);
  }

  lemma PutGlyphMarks(p: Panel, s: State, g: seq<u8>)
    requires p.Valid() && Shape(p, s) && |g| == p.fontWidth
    ensures Marked(p, s, PutGlyph(p, s, g))
  {
    var s' := PutGlyph(p, s, g);
    GlyphFits(p, s.cursor);
    forall i | 0 <= i < |s.buffer| && s'.buffer[i] != s.buffer[i]
      ensures BlockOf(p, i) in s'.dirty
    {
      GlyphTouchesTwo(p, s.cursor, i);
    }
  }

  lemma PutGlyphKeeps(p: Panel, s: State, g: seq<u8>)
    requires p.Valid() && Local(p) && Shape(p, s) && Coherent(p, s) && |g| == p.fontWidth
    ensures Shape(p, PutGlyph(p, s, g)) && Coherent(p, PutGlyph(p, s, g))
  {
    PutGlyphShape(p, s, g);
    PutGlyphMarks(p, s, g);
    MarkedKeeps(p, s, PutGlyph(p, s, g));
  }

  lemma OneMoreGlyph(p: Panel, s: State, g: seq<u8>, n: nat)
    requires p.Valid() && Shape(p, s) && |g| == p.fontWidth && n > 0
    ensures PutGlyphs(p, s, g, n) == PutGlyph(p, PutGlyphs(p, s, g, n - 1), g)
  {
  }

  lemma {:induction false} GlyphsMark(p: Panel, s: State, g: seq<u8>, n: nat)
    requires p.Valid() && Shape(p, s) && |g| == p.fontWidth
    ensures Marked(p, s, PutGlyphs(p, s, g, n))
  {
    if n > 0 {
      GlyphsMark(p, s, g, n - 1);
      OneMoreMarks(p, s, g, n);
    }
  }

  lemma OneMoreMarks(p: Panel, s: State, g: seq<u8>, n: nat)
    requires p.Valid() && Shape(p, s) && |g| == p.fontWidth && n > 0
    requires Marked(p, s, PutGlyphs(p, s, g, n - 1))
    ensures Marked(p, s, PutGlyphs(p, s, g, n))
  {
    OneMoreGlyph(p, s, g, n);
    PutGlyphMarks(p, PutGlyphs(p, s, g, n - 1), g);
  }

  lemma ClearPageKeeps(p: Panel, f: Font, s: State)
    requires p.Valid() && Local(p) && ValidFont(p, f) && Shape(p, s) && Coherent(p, s)
    ensures Shape(p, ClearPageRemainder(p, f, s)) && Coherent(p, ClearPageRemainder(p, f, s))
  {
    GlyphsMark(p, s, Glyph(p, f, SPACE), (p.lineWidth - s.cursor % p.lineWidth) / p.fontWidth);
    MarkedKeeps(p, s, ClearPageRemainder(p, f, s));
  }

  lemma CursorKeeps(p: Panel, s: State, cursor: nat)
    requires p.Valid() && Shape(p, s) && Coherent(p, s) && OnLine(p, cursor)
    ensures Shape(p, s.(cursor := cursor)) && Coherent(p, s.(cursor := cursor))
  {
  }

  lemma AllDirtyKeeps(p: Panel, s: State, buffer: seq<u8>)
    requires p.Valid() && Shape(p, s) && |buffer| == p.size
    ensures Shape(p, s.(buffer := buffer, dirty := AllBlocks(p))) && Coherent(p, s.(buffer := buffer, dirty := AllBlocks(p)))
  {
  }

  lemma PokeKeeps(p: Panel, s: State, index: nat, byte: u8)
    requires p.Valid() && Local(p) && Shape(p, s) && Coherent(p, s) && index < p.size
    ensures Shape(p, Poke(p, s, index, byte)) && Coherent(p, Poke(p, s, index, byte))
  {
    BlockBound(p, index);
    MarkedKeeps(p, s, Poke(p, s, index, byte));
  }

  lemma {:induction false} PokesKeep(p: Panel, s: State, data: seq<u8>, n: nat)
    requires p.Valid() && Local(p) && Shape(p, s) && Coherent(p, s) && n <= |data| && s.cursor + n <= p.size
    ensures Shape(p, Pokes(p, s, data, n)) && Coherent(p, Pokes(p, s, data, n))
  {
    if n > 0 {
      PokesKeep(p, s, data, n - 1);
      var before := Pokes(p, s, data, n - 1);
      PokeKeeps(p, before, s.cursor + n - 1, data[n - 1]);
      assert Pokes(p, s, data, n) == Poke(p, before, s.cursor + n - 1, data[n - 1]);
    }
  }

  lemma RenderKeeps(p: Panel, s: State, tx: Tx)
    requires p.Valid() && Shape(p, s) && Coherent(p, s)
    ensures Shape(p, RenderStep(p, s, tx)) && Coherent(p, RenderStep(p, s, tx))
  {
  }

  lemma ColumnOf(col: nat, line: nat, lineWidth: nat, fontWidth: nat)
    requires (col + 1) * fontWidth <= lineWidth && fontWidth > 0
    ensures line * lineWidth + col * fontWidth >= 0
    ensures (line * lineWidth + col * fontWidth) % lineWidth + fontWidth <= lineWidth
  {
    Next(col, fontWidth);
    DivisionUnique(line * lineWidth + col * fontWidth, lineWidth, line, col * fontWidth);
  }

  lemma CursorSet(p: Panel, col: nat, line: nat)
    requires p.Valid() && (col + 1) * p.fontWidth <= p.lineWidth
    ensures OnLine(p, WrapCursor(p, CharIndex(p, col, line)))
  {
    ColumnOf(col, line, p.lineWidth, p.fontWidth);
    SmallRemainder(0, p.lineWidth);
  }

  /** Every operation keeps the display coherent and the cursor where a glyph fits. */
  lemma StepKeeps(p: Panel, f: Font, s: State, op: Op)
    requires p.Valid() && Local(p) && ValidFont(p, f) && Shape(p, s) && Allowed(p, op) && Coherent(p, s)
    ensures Shape(p, Step(p, f, s, op)) && Coherent(p, Step(p, f, s, op))
  {
    match op
    case Clear =>
      AllDirtyKeeps(p, s, seq(p.size, _ => 0));
      SmallRemainder(0, p.lineWidth);
    case SetCursor(col, line) =>
      CursorSet(p, col, line);
      CursorKeeps(p, s, WrapCursor(p, CharIndex(p, col, line)));
    case WriteChar(c, invert) =>
      if c == NEWLINE {
        ClearPageKeeps(p, f, s);
      } else if c == RETURN {
        CursorKeeps(p, s, NextLine(p, s.cursor));
      } else {
        PutGlyphKeeps(p, s, if invert then Inverted(Glyph(p, f, c)) else Glyph(p, f, c));
      }
    case AdvancePage(clear) =>
      if clear {
        ClearPageKeeps(p, f, s);
      } else {
        CursorKeeps(p, s, NextLine(p, s.cursor));
      }
    case WriteRaw(data) =>
      PokesKeep(p, s, data, if |data| + s.cursor > p.size then p.size - s.cursor else |data|);
    case WriteRawByte(byte, index) =>
      PokeKeeps(p, s, index, byte);
    case WritePixel(x, y, on) =>
      var index := PixelIndex(p, x, y);
      if x < p.lineWidth && index < p.size {
        PokeKeeps(p, s, index, WithDigit(s.buffer[index], y % 8, on));
      }
    case Pan(left) =>
      AllDirtyKeeps(p, s, Panned(p, s.buffer, left));
    case Render(tx) =>
      RenderKeeps(p, s, tx);
    case ScrollOn(ok) =>
    case ScrollOff(ok, shown) =>
    case Elsewhere(after) =>
      ElsewhereKeeps(p, s, after);
  }

  /** As after initialisation: a cleared buffer, every block dirty, anything on the display. */
  predicate Initial(p: Panel, s: State)
    requires p.Valid()
  {
    s.buffer == seq(p.size, _ => 0) && s.cursor == 0 && s.dirty == AllBlocks(p) && !s.scrolling
    && |s.display| == p.blocks && |s.after| == p.beyond
  }

  /** The states that a sequence of operations goes through. */
  ghost predicate Goes(p: Panel, f: Font, states: seq<State>, ops: seq<Op>)
    requires p.Valid() && ValidFont(p, f)
  {
    && |states| == |ops| + 1 && Initial(p, states[0])
    && forall i :: 0 <= i < |ops| ==> Allowed(p, ops[i]) && Shape(p, states[i]) && states[i + 1] == Step(p, f, states[i], ops[i])
  }

  /** Display coherence over every sequence of operations with any transmissions failing. */
  lemma {:induction false} DisplayCoherence(p: Panel, f: Font, states: seq<State>, ops: seq<Op>, n: nat)
    requires p.Valid() && Local(p) && ValidFont(p, f) && Goes(p, f, states, ops) && n < |states|
    ensures Shape(p, states[n]) && Coherent(p, states[n])
  {
    if n > 0 {
      DisplayCoherence(p, f, states, ops, n - 1);
      StepKeeps(p, f, states[n - 1], ops[n - 1]);
    }
  }

  // ---------- Convergence ----------

  function Renders(p: Panel, s: State, txs: seq<Tx>): (s': State)
    requires p.Valid() && Shape(p, s)
    ensures Shape(p, s') && s'.buffer == s.buffer && s'.after == s.after && s'.scrolling == s.scrolling
  {
    if txs == [] then s else RenderStep(p, Renders(p, s, txs[..|txs| - 1]), txs[|txs| - 1])
  }

  function Successes(txs: seq<Tx>): nat {
    if txs == [] then 0
    else
      var last := txs[|txs| - 1];
      Successes(txs[..|txs| - 1]) + if last.command && last.data then 1 else 0
  }

  lemma {:induction false} RendersClean(p: Panel, s: State, txs: seq<Tx>)
    requires p.Valid() && Shape(p, s) && Coherent(p, s) && !s.scrolling
    ensures Coherent(p, Renders(p, s, txs))
    ensures |Renders(p, s, txs).dirty| + Successes(txs) <= |s.dirty| || Renders(p, s, txs).dirty == {}
  {
    if txs != [] {
      RendersClean(p, s, txs[..|txs| - 1]);
      RenderKeeps(p, Renders(p, s, txs[..|txs| - 1]), txs[|txs| - 1]);
    }
  }

  lemma {:induction false} BlocksBelowSize(n: nat)
    ensures |BlocksBelow(n)| == n
  {
    if n > 0 {
      BlocksBelowSize(n - 1);
    }
  }

  /**
    Without further writes, as many successful renders as there are blocks make the whole display
    show the buffer, whichever others fail in between.
  */
  lemma DisplayConverges(p: Panel, s: State, txs: seq<Tx>)
    requires p.Valid() && Shape(p, s) && Coherent(p, s) && !s.scrolling
    requires Successes(txs) >= p.blocks
    ensures var s' := Renders(p, s, txs);
            && s'.buffer == s.buffer && s'.dirty == {}
            && forall b :: 0 <= b < p.blocks ==> s'.display[b] == Shown(p, Window(p, s.buffer, s.after, b))
  {
    RendersClean(p, s, txs);
    BlocksBelowSize(p.blocks);
    SubsetSize(s.dirty, AllBlocks(p));
  }
}
