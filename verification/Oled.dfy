/** The OLED driver: one frame buffer, drawn into in place and sent block by block. */
module Oled {
  import opened Arithmetic
  import opened Machine
  import opened Bits
  import opened OledModel
  import opened OledDisplay

  class OledDriver {
    const panel: Panel
    const font: Font
    const buffer: array<u8>
    var cursor: nat
    var dirty: set<nat>
    var scrolling: bool
    var display: seq<seq<u8>>
    var after: seq<u8>

    ghost predicate Valid()
      reads this, buffer
    {
      && panel.Valid() && ValidFont(panel, font)
      && buffer.Length == panel.size
      && Shape(panel, View())
    }

    ghost function View(): State
      reads this, buffer
    {
      State(buffer[..], after, cursor, dirty, scrolling, display)
    }

    /** The driver as initialisation leaves it, whatever the display was showing. */
    constructor (panel: Panel, font: Font, shown: seq<seq<u8>>, after: seq<u8>)
      requires panel.Valid() && ValidFont(panel, font) && |shown| == panel.blocks && |after| == panel.beyond
      ensures Valid() && fresh(buffer) && this.panel == panel && this.font == font
      ensures Initial(panel, View()) && display == shown && this.after == after
    {
      this.panel, this.font, this.after := panel, font, after;
      buffer := new u8[panel.size](_ => 0);
      cursor, dirty, scrolling, display := 0, AllBlocks(panel), false, shown;
      new;
      SmallRemainder(0, panel.lineWidth);
    }

    method OledClear()
      requires Valid()
      modifies this`cursor, this`dirty, buffer
      ensures Valid() && View() == Step(panel, font, old(View()), Clear)
    {
      for i := 0 to buffer.Length
        invariant forall j :: 0 <= j < i ==> buffer[j] == 0
      {
        buffer[i] := 0;
      }
      cursor := 0;
      dirty := AllBlocks(panel);
      SmallRemainder(0, panel.lineWidth);
      assert buffer[..] == seq(panel.size, _ => 0);
    }

    /** Moves to a character position; the column must be one of those on a line. */
    method OledSetCursor(col: u8, line: u8)
      requires Valid() && (col + 1) * panel.fontWidth <= panel.lineWidth
      modifies this`cursor
      ensures Valid() && View() == Step(panel, font, old(View()), SetCursor(col, line))
    {
      var index := CharIndex(panel, col, line);
      if index >= panel.size {
        index := 0;
      }
      CursorSet(panel, col, line);
      cursor := index;
    }

    method OledAdvanceChar()
      requires Valid()
      modifies this`cursor
      ensures Valid() && cursor == Advance(panel, old(cursor))
    {
      var nextIndex := cursor + panel.fontWidth;
      var remainingSpace := panel.lineWidth - nextIndex % panel.lineWidth;
      if remainingSpace < panel.fontWidth {
        nextIndex := nextIndex + remainingSpace;
      }
      if nextIndex >= panel.size {
        nextIndex := 0;
      }
      ghost var next := Advance(panel, cursor);
      cursor := nextIndex;
    }

    /** Writes a glyph, marks what it changes, and moves on. */
    method PutGlyphBytes(glyph: seq<u8>)
      requires Valid() && |glyph| == panel.fontWidth
      modifies this`cursor, this`dirty, buffer
      ensures Valid() && View() == PutGlyph(panel, old(View()), glyph)
    {
      GlyphFits(panel, cursor);
      PutGlyphShape(panel, View(), glyph);
      DrawGlyph(glyph);
      OledAdvanceChar();
    }

    /** The bytes of a glyph and the marks for what they change. */
    method DrawGlyph(glyph: seq<u8>)
      requires cursor + |glyph| <= buffer.Length && 0 < |glyph| && panel.blockSize > 0
      modifies this`dirty, buffer
      ensures buffer[..] == Overwrite(old(buffer[..]), cursor, glyph)
      ensures dirty == if buffer[..] == old(buffer[..]) then old(dirty)
                       else old(dirty) + {BlockOf(panel, cursor), BlockOf(panel, cursor + |glyph| - 1)}
    {
      var changed := ReplaceGlyph(glyph);
      if changed {
        dirty := dirty + {BlockOf(panel, cursor)};
        // the glyph may reach into the next block
        dirty := dirty + {BlockOf(panel, cursor + |glyph| - 1)};
      }
    }

    /** Copies a glyph and compares it with what it replaces. */
    method ReplaceGlyph(glyph: seq<u8>) returns (changed: bool)
      requires cursor + |glyph| <= buffer.Length
      modifies buffer
      ensures buffer[..] == Overwrite(old(buffer[..]), cursor, glyph)
      ensures changed <==> buffer[..] != old(buffer[..])
    {
      var end := cursor + |glyph|;
      var before := buffer[cursor..end];
      OverwriteChanges(buffer[..], cursor, glyph);
      assert before == buffer[..][cursor..end];
      CopyGlyph(glyph);
      assert buffer[cursor..end] == buffer[..][cursor..end];
      return buffer[cursor..end] != before;
    }

    method CopyGlyph(glyph: seq<u8>)
      requires cursor + |glyph| <= buffer.Length
      modifies buffer
      ensures buffer[..] == Overwrite(old(buffer[..]), cursor, glyph)
    {
      for i := 0 to |glyph|
        invariant forall j :: 0 <= j < buffer.Length ==>
          buffer[j] == if cursor <= j < cursor + i then glyph[j - cursor] else old(buffer[j])
      {
        buffer[cursor + i] := glyph[i];
      }
    }

    /** The glyph has been written `n` times since `s`. */
    ghost predicate Repeated(s: State, glyph: seq<u8>, n: nat)
      requires panel.Valid() && |glyph| == panel.fontWidth
      reads this, buffer
    {
      Valid() && Shape(panel, s) && View() == PutGlyphs(panel, s, glyph, n)
    }

    method PutOneMore(ghost s: State, glyph: seq<u8>, ghost n: nat)
      requires panel.Valid() && |glyph| == panel.fontWidth && Repeated(s, glyph, n)
      modifies this`cursor, this`dirty, buffer
      ensures Repeated(s, glyph, n + 1)
    {
      OneMoreGlyph(panel, s, glyph, n + 1);
      PutGlyphBytes(glyph);
    }

    method PutGlyphTimes(glyph: seq<u8>, count: nat)
      requires Valid() && |glyph| == panel.fontWidth
      modifies this`cursor, this`dirty, buffer
      ensures Repeated(old(View()), glyph, count)
    {
      ghost var s := View();
      assert Repeated(s, glyph, 0);
      for i := 0 to count
        invariant panel.Valid() && Repeated(s, glyph, i)
      {
        PutOneMore(s, glyph, i);
      }
    }

    /** Fills the rest of the line with blanks. */
    method FillLine()
      requires Valid()
      modifies this`cursor, this`dirty, buffer
      ensures Valid() && View() == ClearPageRemainder(panel, font, old(View()))
    {
      var remaining := panel.lineWidth - cursor % panel.lineWidth;
      PutGlyphTimes(Glyph(panel, font, SPACE), remaining / panel.fontWidth);
    }

    method GoToNextLine()
      requires Valid()
      modifies this`cursor
      ensures Valid() && View() == old(View()).(cursor := NextLine(panel, old(cursor)))
    {
      var index := cursor;
      var remaining := panel.lineWidth - index % panel.lineWidth;
      if index + remaining >= panel.size {
        index := 0;
        remaining := 0;
      }
      ghost var next := NextLine(panel, cursor);
      cursor := index + remaining;
    }

    /** Goes to the next line, filling the rest of this one with blanks if asked to. */
    method OledAdvancePage(clearPageRemainder: bool)
      requires Valid()
      modifies this`cursor, this`dirty, buffer
      ensures Valid() && View() == Step(panel, font, old(View()), AdvancePage(clearPageRemainder))
    {
      if clearPageRemainder {
        FillLine();
      } else {
        GoToNextLine();
      }
    }

    method OledWriteChar(ascii: u8, invert: bool)
      requires Valid()
      modifies this`cursor, this`dirty, buffer
      ensures Valid() && View() == Step(panel, font, old(View()), WriteChar(ascii, invert))
    {
      if ascii == NEWLINE {
        OledAdvancePage(true);
        return;
      }
      if ascii == RETURN {
        OledAdvancePage(false);
        return;
      }
      var glyph := Glyph(panel, font, ascii);
      PutGlyphBytes(if invert then Inverted(glyph) else glyph);
    }

    method PokeByte(index: nat, byte: u8)
      requires Valid() && index < panel.size
      modifies this`dirty, buffer
      ensures Valid() && View() == Poke(panel, old(View()), index, byte)
    {
      if buffer[index] == byte {
        return;
      }
      BlockBound(panel, index);
      buffer[index] := byte;
      dirty := dirty + {BlockOf(panel, index)};
    }

    method OledWriteRawByte(byte: u8, index: nat)
      requires Valid() && index < panel.size
      modifies this`dirty, buffer
      ensures Valid() && View() == Step(panel, font, old(View()), WriteRawByte(byte, index))
    {
      PokeByte(index, byte);
    }

    /** Writes data from the cursor on, as much as there is room for; the cursor stays. */
    method OledWriteRaw(data: seq<u8>)
      requires Valid()
      modifies this`dirty, buffer
      ensures Valid() && View() == Step(panel, font, old(View()), WriteRaw(data))
    {
      var size := |data|;
      if size + cursor > panel.size {
        size := panel.size - cursor;
      }
      ghost var s := View();
      for i := 0 to size
        invariant Valid() && cursor == old(cursor) && View() == Pokes(panel, s, data, i)
      {
        PokeByte(cursor + i, data[i]);
      }
    }

    method OledWritePixel(x: u8, y: u8, on: bool)
      requires Valid()
      modifies this`dirty, buffer
      ensures Valid() && View() == Step(panel, font, old(View()), WritePixel(x, y, on))
    {
      if x >= panel.lineWidth {
        return;
      }
      var index := PixelIndex(panel, x, y);
      if index >= panel.size {
        return;
      }
      PokeByte(index, WithDigit(buffer[index], y % 8, on));
    }

    /** Moves one row, from the given position on, by one byte. */
    method PanRow(from: nat, left: bool)
      requires panel.width > 0 && from + panel.width <= buffer.Length
      modifies buffer
      ensures forall i :: 0 <= i < buffer.Length ==> buffer[i] == MovedByte(panel.width, old(buffer[..]), left, from, i)
    {
      if left {
        for x := 0 to panel.width - 1
          invariant forall i :: 0 <= i < buffer.Length ==>
            buffer[i] == if from <= i < from + x then old(buffer[i + 1]) else old(buffer[i])
        {
          buffer[from + x] := buffer[from + x + 1];
        }
      } else {
        for x := panel.width downto 1
          invariant forall i :: 0 <= i < buffer.Length ==>
            buffer[i] == if from + x <= i < from + panel.width then old(buffer[i - 1]) else old(buffer[i])
        {
          buffer[from + x] := buffer[from + x - 1];
        }
      }
    }

    method PanRows(left: bool)
      requires panel.Valid() && buffer.Length == panel.size
      modifies buffer
      ensures buffer[..] == Panned(panel, old(buffer[..]), left)
    {
      ghost var start := buffer[..];
      var from := 0;
      for y := 0 to panel.pages
        invariant from == y * panel.width <= panel.size && Column(panel.width, from) == 0
        invariant PannedTo(panel.width, start, buffer[..], left, from)
      {
        RowPosition(panel, y);
        ghost var before := buffer[..];
        PanRow(from, left);
        RowPanned(panel.width, start, before, buffer[..], left, from);
        from := from + panel.width;
      }
    }

    method OledPan(left: bool)
      requires Valid()
      modifies this`dirty, buffer
      ensures Valid() && View() == Step(panel, font, old(View()), Pan(left))
    {
      PanRows(left);
      dirty := AllBlocks(panel);
    }

    /** Adds bit `i` of each of eight bytes to byte `i` of a group of the block being made up. */
    method GatherBits(src: seq<u8>, temp: array<u8>, at: nat, i: nat)
      requires |src| == 8 && at < temp.Length && i < 8
      modifies temp
      ensures temp[..] == old(temp[..])[at := Gather(src, old(temp[at]), i, 8)]
    {
      var shift := 7 - i;
      for j := 0 to 8
        invariant temp[..] == old(temp[..])[at := Gather(src, old(temp[at]), i, j)]
      {
        GatherOne(src, old(temp[at]), i, j);
        temp[at] := Wrap8(Or(temp[at], Crot(Wrap8(And(src[j], Weight(i))), shift - j)));
      }
    }

    /** Adds eight bytes, turned by a quarter, to a group of the block being made up. */
    method Rotate90(src: seq<u8>, temp: array<u8>, at: nat)
      requires |src| == 8 && at + 8 <= temp.Length
      modifies temp
      ensures temp[..] == Overwrite(old(temp[..]), at, Turn(src, Group(old(temp[..]), at)))
    {
      for i := 0 to 8
        invariant PartTurned(src, old(temp[..]), temp[..], at, i)
      {
        TurnByte(src, temp, at, i, old(temp[..]));
      }
      AllTurned(src, old(temp[..]), temp[..], at);
    }

    method TurnByte(src: seq<u8>, temp: array<u8>, at: nat, i: nat, ghost was: seq<u8>)
      requires |src| == 8 && at + 8 <= temp.Length == |was| && i < 8 && PartTurned(src, was, temp[..], at, i)
      modifies temp
      ensures PartTurned(src, was, temp[..], at, i + 1)
    {
      PartTurnedMore(src, was, temp[..], at, i);
      GatherBits(src, temp, at + i, i);
    }

    /** What is sent for a block of a rotated panel, from the memory that begins with it. */
    method Rotated(window: seq<u8>) returns (out: seq<u8>)
      requires panel.Valid() && |window| == panel.blockSize + panel.beyond
      ensures out == RotateBlock(panel, window, |panel.source|)
    {
      var temp := new u8[panel.blockSize](_ => 0);
      assert temp[..] == Zeros(panel.blockSize);
      for t := 0 to |panel.source|
        invariant Rotating(panel, window, temp[..], t)
      {
        TurnGroup(window, temp, t);
      }
      return temp[..];
    }

    method TurnGroup(window: seq<u8>, temp: array<u8>, t: nat)
      requires Rotating(panel, window, temp[..], t) && t < |panel.source|
      modifies temp
      ensures Rotating(panel, window, temp[..], t + 1)
    {
      RotateOne(panel, window, t);
      Rotate90(Group(window, panel.source[t]), temp, panel.target[t]);
    }

    /** Sends the first dirty block; `tx` says which transmissions succeed. */
    method OledRender(tx: Tx)
      requires Valid()
      modifies this`dirty, this`display
      ensures Valid() && View() == Step(panel, font, old(View()), Render(tx))
    {
      RenderShape(panel, View(), tx);
      if dirty == {} || scrolling {
        return;
      }
      var updateStart := 0;
      while updateStart !in dirty
        invariant updateStart <= panel.blocks
        invariant FirstDirty(dirty, 0, panel.blocks) == FirstDirty(dirty, updateStart, panel.blocks)
        invariant exists b :: updateStart <= b < panel.blocks && b in dirty
        decreases panel.blocks - updateStart
      {
        updateStart := updateStart + 1;
      }
      if !tx.command {
        return;
      }
      WindowStarts(panel, buffer[..], after, updateStart);
      var block := Block(panel, buffer[..], updateStart);
      if panel.rotated {
        block := Rotated(Window(panel, buffer[..], after, updateStart));
      }
      if !tx.data {
        display := display[updateStart := tx.garbage];
        return;
      }
      display := display[updateStart := block];
      dirty := dirty - {updateStart};
    }

    /** Scrolling starts only when nothing waits to be sent. */
    method OledScrollOn(ok: bool) returns (on: bool)
      requires Valid()
      modifies this`scrolling
      ensures Valid() && View() == Step(panel, font, old(View()), ScrollOn(ok)) && on == scrolling
    {
      if dirty == {} && !scrolling {
        if !ok {
          return scrolling;
        }
        scrolling := true;
      }
      return scrolling;
    }

    /** When scrolling ends the display may show anything, so everything is to be sent again. */
    method OledScrollOff(ok: bool, shown: seq<seq<u8>>)
      requires Valid() && |shown| == panel.blocks
      modifies this`scrolling, this`dirty, this`display
      ensures Valid() && View() == Step(panel, font, old(View()), ScrollOff(ok, shown))
    {
      if scrolling {
        if !ok {
          return;
        }
        scrolling := false;
        dirty := AllBlocks(panel);
        display := shown;
      }
    }

    /** What follows the buffer changes, without the driver knowing. */
    method MemoryChanges(after: seq<u8>)
      requires Valid() && |after| == panel.beyond
      modifies this`after
      ensures Valid() && View() == Step(panel, font, old(View()), Elsewhere(after))
    {
      this.after := after;
    }
  }

  /** The rows before a position have been moved. */
  ghost predicate PannedTo(width: nat, start: seq<u8>, now: seq<u8>, left: bool, from: nat)
    requires width > 0
  {
    && |now| == |start|
    && (forall i :: 0 <= i < |start| && i < from ==> now[i] == PannedByte(width, start, left, i))
    && (forall i :: 0 <= i < |start| && from <= i ==> now[i] == start[i])
  }

  /** The row that starts at `from` moved by one byte. */
  function MovedByte(width: nat, was: seq<u8>, left: bool, from: nat, i: nat): u8
    requires from + width <= |was| && i < |was|
  {
    if from <= i < from + width - 1 && left then was[i + 1]
    else if from < i < from + width && !left then was[i - 1]
    else was[i]
  }

  lemma RowPanned(width: nat, start: seq<u8>, was: seq<u8>, now: seq<u8>, left: bool, from: nat)
    requires width > 0 && |now| == |start| && Column(width, from) == 0 && from + width <= |start|
    requires PannedTo(width, start, was, left, from)
    requires forall i :: 0 <= i < |start| ==> now[i] == MovedByte(width, was, left, from, i)
    ensures PannedTo(width, start, now, left, from + width)
  {
    forall i | from <= i < from + width
      ensures now[i] == PannedByte(width, start, left, i)
    {
      InRow(from, width, i);
    }
  }

  lemma {:induction false} InRow(from: nat, width: nat, i: nat)
    requires width > 0 && Column(width, from) == 0 && from <= i < from + width
    ensures Column(width, i) == i - from
  {
    if from > 0 {
      InRow(from - width, width, i - width);
    }
  }

  lemma RowPosition(p: Panel, y: nat)
    requires p.Valid() && y < p.pages
    ensures y * p.width + p.width <= p.size && (y + 1) * p.width == y * p.width + p.width
  {
    MulOrder(y + 1, p.pages, p.width);
    Next(y, p.width);
  }

  /** The first `n` bytes of a group have been turned. */
  ghost predicate PartTurned(src: seq<u8>, was: seq<u8>, now: seq<u8>, at: nat, n: nat)
    requires |src| == 8 && n <= 8
  {
    |now| == |was| &&
    forall k :: 0 <= k < |was| ==> now[k] == if at <= k < at + n then Gather(src, was[k], k - at, 8) else was[k]
  }

  lemma PartTurnedMore(src: seq<u8>, was: seq<u8>, now: seq<u8>, at: nat, n: nat)
    requires |src| == 8 && n < 8 && at + 8 <= |was| && PartTurned(src, was, now, at, n)
    ensures PartTurned(src, was, now[at + n := Gather(src, now[at + n], n, 8)], at, n + 1)
  {
  }

  lemma AllTurned(src: seq<u8>, was: seq<u8>, now: seq<u8>, at: nat)
    requires |src| == 8 && at + 8 <= |was| && PartTurned(src, was, now, at, 8)
    ensures now == Overwrite(was, at, Turn(src, Group(was, at)))
  {
  }

  lemma GatherOne(src: seq<u8>, init: u8, i: nat, j: nat)
    requires |src| == 8 && i < 8 && j < 8
    ensures Gather(src, init, i, j + 1)
         == Wrap8(Or(Gather(src, init, i, j), Crot(Wrap8(And(src[j], Weight(i))), 7 - i - j)))
  {
  }

  /** The first `n` groups of a block have been turned. */
  ghost predicate Rotating(p: Panel, window: seq<u8>, out: seq<u8>, n: nat) {
    && p.Valid() && |window| == p.blockSize + p.beyond && n <= |p.source|
    && out == RotateBlock(p, window, n)
  }

  lemma RotateOne(p: Panel, window: seq<u8>, t: nat)
    requires p.Valid() && |window| == p.blockSize + p.beyond && t < |p.source|
    ensures var before := RotateBlock(p, window, t);
            RotateBlock(p, window, t + 1)
            == Overwrite(before, p.target[t], Turn(Group(window, p.source[t]), Group(before, p.target[t])))
  {
  }

  lemma RenderShape(p: Panel, s: State, tx: Tx)
    requires p.Valid() && Shape(p, s)
    ensures Shape(p, RenderStep(p, s, tx))
  {
  }
}
