/**
  The OLED frame buffer with its dirty blocks, and the display it is sent to.  A block that is
  not marked dirty must be showing what the buffer holds.
*/
module OledModel {
  import opened Arithmetic
  import opened Machine
  import opened Bits

  /**
    The buffer is `blocks` blocks of `blockSize` bytes.  Text runs in lines of `lineWidth` bytes;
    panning moves rows of `width` bytes.  In a rotated panel each block is turned by `source` and
    `target` before it is sent; a source group may begin in a later block, and reach up to `beyond`
    bytes past the buffer.
  */
  datatype Panel = Panel(
    size: nat, blockSize: nat, blocks: nat, lineWidth: nat, width: nat, pages: nat, fontWidth: nat,
    rotated: bool, source: seq<nat>, target: seq<nat>, beyond: nat)
  {
    predicate Valid() {
      && Tiled()
      && 0 < blockSize && 0 < blocks && 0 < width && 0 < size <= 0x8000
      && 0 < fontWidth <= lineWidth <= 255 && fontWidth <= blockSize + 1
      && |source| == |target|
      && (forall t :: 0 <= t < |source| ==> source[t] + 8 <= blockSize + beyond && target[t] + 8 <= blockSize)
    }

    /** Blocks, rows and lines each make up the whole buffer. */
    predicate Tiled() {
      size == blocks * blockSize && size == pages * width && lineWidth > 0 && size % lineWidth == 0
    }
  }

  function Block(p: Panel, buffer: seq<u8>, b: nat): (block: seq<u8>)
    requires p.Valid() && |buffer| == p.size && b < p.blocks
    ensures |block| == p.blockSize
  {
    BlockFits(b, p.blockSize, p.blocks);
    buffer[Multiple(b, p.blockSize)..Multiple(b, p.blockSize) + p.blockSize]
  }

  lemma BlockFits(b: nat, blockSize: nat, blocks: nat)
    requires b < blocks
    ensures Multiple(b, blockSize) + blockSize <= blocks * blockSize
  {
    MultipleIs(b, blockSize);
    MulOrder(b + 1, blocks, blockSize);
    Next(b, blockSize);
  }

  /** The memory from the start of a block on, as far as a source group of it may reach. */
  function Window(p: Panel, buffer: seq<u8>, after: seq<u8>, b: nat): (window: seq<u8>)
    requires p.Valid() && |buffer| == p.size && |after| == p.beyond && b < p.blocks
    ensures |window| == p.blockSize + p.beyond
  {
    BlockFits(b, p.blockSize, p.blocks);
    (buffer + after)[Multiple(b, p.blockSize)..Multiple(b, p.blockSize) + p.blockSize + p.beyond]
  }

  lemma WindowStarts(p: Panel, buffer: seq<u8>, after: seq<u8>, b: nat)
    requires p.Valid() && |buffer| == p.size && |after| == p.beyond && b < p.blocks
    ensures Window(p, buffer, after, b)[..p.blockSize] == Block(p, buffer, b)
  {
    BlockFits(b, p.blockSize, p.blocks);
  }

  /** The block a byte lies in. */
  function BlockOf(p: Panel, i: nat): nat
    requires p.blockSize > 0
  {
    i / p.blockSize
  }

  function BlocksBelow(n: nat): (s: set<nat>)
    ensures forall b :: b in s <==> 0 <= b < n
  {
    if n == 0 then {} else BlocksBelow(n - 1) + {n - 1}
  }

  function AllBlocks(p: Panel): set<nat> { BlocksBelow(p.blocks) }

  // ---------- Rotation ----------

  /** An 8-bit rotation to the left by `n` modulo 8. */
  function Crot(a: u8, n: int): u8 {
    Wrap8(Or(ShiftLeft(a, n % 8), ShiftRight(a, (8 - n % 8) % 8)))
  }

  lemma ByteDigits(x: nat, k: nat)
    ensures Digit(Wrap8(x), k) <==> k < 8 && Digit(x, k)
  {
    LowIsRemainder(x, 8);
    LowDigits(x, 8, k);
    assert Weight(8) == 256 by {
      assert Weight(4) == 16;
    }
  }

  lemma RotatedIndex(k: nat, n: int)
    requires k < 8
    ensures (k - n) % 8 == if k >= n % 8 then k - n % 8 else k - n % 8 + 8
  {
  }

  lemma CrotDigits(a: u8, n: int, k: nat)
    requires k < 8
    ensures Digit(Crot(a, n), k) <==> Digit(a, (k - n) % 8)
  {
    var l := n % 8;
    var r := (8 - l) % 8;
    RotatedIndex(k, n);
    RotatedDigit(a, l, r, k);
  }

  lemma NoHighDigit(a: u8, k: nat)
    requires k >= 8
    ensures !Digit(a, k)
  {
    ByteDigits(a, k);
  }

  lemma RotatedDigit(a: u8, l: nat, r: nat, k: nat)
    requires l < 8 && r == (8 - l) % 8 && k < 8
    ensures Digit(Wrap8(Or(ShiftLeft(a, l), ShiftRight(a, r))), k) <==> Digit(a, if k >= l then k - l else k - l + 8)
  {
    var x, y := ShiftLeft(a, l), ShiftRight(a, r);
    ShiftLeftDigits(a, l, k);
    WrappedDigit(a, r, k);
    JoinedDigits(x, y, k);
  }

  lemma WrappedDigit(a: u8, r: nat, k: nat)
    ensures Digit(ShiftRight(a, r), k) <==> k + r < 8 && Digit(a, k + r)
  {
    ShiftRightDigits(a, r, k);
    if k + r >= 8 {
      NoHighDigit(a, k + r);
    }
  }

  lemma JoinedDigits(x: nat, y: nat, k: nat)
    requires k < 8
    ensures Digit(Wrap8(Or(x, y)), k) <==> Digit(x, k) || Digit(y, k)
  {
    ByteDigits(Or(x, y), k);
    OrDigits(x, y, k);
  }

  /** Bit `i` of the first `n` columns, gathered into one byte on top of `init`. */
  function Gather(src: seq<u8>, init: u8, i: nat, n: nat): u8
    requires |src| == 8 && n <= 8
  {
    if n == 0 then init
    else Wrap8(Or(Gather(src, init, i, n - 1), Crot(Wrap8(And(src[n - 1], Weight(i))), 7 - i - (n - 1))))
  }

  /** The bits gathered: bit `i` of column `j` arrives at position `7 - j`. */
  lemma {:induction false} GatherDigits(src: seq<u8>, init: u8, i: nat, n: nat, k: nat)
    requires |src| == 8 && n <= 8 && i < 8 && k < 8
    ensures Digit(Gather(src, init, i, n), k) <==> Digit(init, k) || (7 - k < n && Digit(src[7 - k], i))
  {
    if n > 0 {
      GatherDigits(src, init, i, n - 1, k);
      GatherOneMore(src, init, i, n, k);
      TurnedDigit(src[n - 1], i, n - 1, k);
    }
  }

  lemma GatherOneMore(src: seq<u8>, init: u8, i: nat, n: nat, k: nat)
    requires |src| == 8 && 0 < n <= 8 && i < 8 && k < 8
    ensures Digit(Gather(src, init, i, n), k) <==>
              Digit(Gather(src, init, i, n - 1), k) || Digit(Crot(Wrap8(And(src[n - 1], Weight(i))), 7 - i - (n - 1)), k)
  {
    JoinedDigits(Gather(src, init, i, n - 1), Crot(Wrap8(And(src[n - 1], Weight(i))), 7 - i - (n - 1)), k);
  }

  lemma TurnedDigit(a: u8, i: nat, j: nat, k: nat)
    requires i < 8 && j < 8 && k < 8
    ensures Digit(Crot(Wrap8(And(a, Weight(i))), 7 - i - j), k) <==> k == 7 - j && Digit(a, i)
  {
    var n := 7 - i - j;
    CrotDigits(Wrap8(And(a, Weight(i))), n, k);
    SelectedDigit(a, i, (k - n) % 8);
    ArrivesAt(i, j, k);
  }

  lemma ArrivesAt(i: nat, j: nat, k: nat)
    requires i < 8 && j < 8 && k < 8
    ensures (k - (7 - i - j)) % 8 == i <==> k == 7 - j
  {
  }

  lemma SelectedDigit(a: u8, i: nat, k: nat)
    requires k < 8
    ensures Digit(Wrap8(And(a, Weight(i))), k) <==> k == i && Digit(a, i)
  {
    ByteDigits(And(a, Weight(i)), k);
    AndDigits(a, Weight(i), k);
    WeightDigits(i, k);
  }

  /** Eight bytes turned by a quarter, on top of what is there. */
  function Turn(src: seq<u8>, dest: seq<u8>): (turned: seq<u8>)
    requires |src| == |dest| == 8
    ensures |turned| == 8 && forall i :: 0 <= i < 8 ==> turned[i] == Gather(src, dest[i], i, 8)
  {
    seq(8, i requires 0 <= i < 8 => Gather(src, dest[i], i, 8))
  }

  /** Bit `i` of column `j` becomes bit `7 - j` of column `i`. */
  ghost predicate QuarterTurn(src: seq<u8>, dest: seq<u8>)
    requires |src| == |dest| == 8
  {
    forall i, k :: 0 <= i < 8 && 0 <= k < 8 ==> (Digit(dest[i], k) <==> Digit(src[7 - k], i))
  }

  lemma TurnIsQuarterTurn(src: seq<u8>)
    requires |src| == 8
    ensures QuarterTurn(src, Turn(src, EIGHT_ZEROS))
  {
    var dest := Turn(src, EIGHT_ZEROS);
    forall i, k | 0 <= i < 8 && 0 <= k < 8
      ensures Digit(dest[i], k) <==> Digit(src[7 - k], i)
    {
      GatherDigits(src, 0, i, 8, k);
      NoDigits(k);
    }
  }

  function Overwrite(mem: seq<u8>, at: nat, bytes: seq<u8>): (mem': seq<u8>)
    requires at + |bytes| <= |mem|
    ensures |mem'| == |mem|
    ensures forall i :: 0 <= i < |mem| ==> mem'[i] == if at <= i < at + |bytes| then bytes[i - at] else mem[i]
  {
    mem[..at] + bytes + mem[at + |bytes|..]
  }

  lemma OverwriteChanges(mem: seq<u8>, at: nat, bytes: seq<u8>)
    requires at + |bytes| <= |mem|
    ensures Overwrite(mem, at, bytes) == mem <==> mem[at..at + |bytes|] == bytes
    ensures Overwrite(mem, at, bytes)[at..at + |bytes|] == bytes
  {
    var mem' := Overwrite(mem, at, bytes);
    assert mem'[at..at + |bytes|] == bytes;
    if mem[at..at + |bytes|] == bytes {
      forall i | at <= i < at + |bytes|
        ensures mem'[i] == mem[i]
      {
        assert mem[i] == mem[at..at + |bytes|][i - at];
      }
      assert mem' == mem;
    }
  }

  /** Eight bytes from a position on. */
  function Group(mem: seq<u8>, at: nat): (g: seq<u8>)
    requires at + 8 <= |mem|
    ensures |g| == 8
  {
    mem[at..at + 8]
  }

  lemma OverwriteGroup(mem: seq<u8>, at: nat, bytes: seq<u8>, other: nat)
    requires at + 8 <= |mem| && other + 8 <= |mem| && |bytes| == 8
    requires at == other || at + 8 <= other || other + 8 <= at
    ensures Group(Overwrite(mem, at, bytes), other) == if at == other then bytes else Group(mem, other)
  {
  }

  function Zeros(n: nat): (zeros: seq<u8>)
    ensures |zeros| == n
  {
    seq(n, _ => 0)
  }

  /** The first `n` groups of eight bytes turned into their places. */
  function RotateBlock(p: Panel, window: seq<u8>, n: nat): (out: seq<u8>)
    requires p.Valid() && |window| == p.blockSize + p.beyond && n <= |p.source|
    ensures |out| == p.blockSize
  {
    if n == 0 then Zeros(p.blockSize)
    else
      var before := RotateBlock(p, window, n - 1);
      Overwrite(before, p.target[n - 1], Turn(Group(window, p.source[n - 1]), Group(before, p.target[n - 1])))
  }

  /** Every block is made up of its own bytes only. */
  predicate Local(p: Panel) {
    p.rotated ==> forall t :: 0 <= t < |p.source| ==> p.source[t] + 8 <= p.blockSize
  }

  predicate TargetsApart(p: Panel) {
    forall i, j :: 0 <= i < j < |p.target| ==> p.target[i] + 8 <= p.target[j] || p.target[j] + 8 <= p.target[i]
  }

  /** The 128x32 panel as it comes; turned by a quarter its text lines are as wide as it is high. */
  function Panel128x32(rotated: bool): Panel {
    Panel(512, 32, 16, if rotated then 32 else 128, 128, 4, 6, rotated, [0, 8, 16, 24], [24, 16, 8, 0], 0)
  }

  function Panel128x64(rotated: bool): Panel {
    Panel(1024, 64, 16, if rotated then 64 else 128, 128, 8, 6, rotated,
          [0, 8, 16, 24, 32, 40, 48, 56], [56, 48, 40, 32, 24, 16, 8, 0], 0)
  }

  /** The standard panels meet what the theorems ask of a panel. */
  lemma Panel128x32Fits(rotated: bool)
    ensures Panel128x32(rotated).Valid() && TargetsApart(Panel128x32(rotated)) && Local(Panel128x32(rotated))
  {
    assert Panel128x32(rotated).Tiled();
  }

  lemma Panel128x64Fits(rotated: bool)
    ensures Panel128x64(rotated).Valid() && TargetsApart(Panel128x64(rotated)) && Local(Panel128x64(rotated))
  {
    assert Panel128x64(rotated).Tiled();
  }

  const EIGHT_ZEROS: seq<u8> := [0, 0, 0, 0, 0, 0, 0, 0]

  lemma {:induction false} GroupsTurned(p: Panel, window: seq<u8>, n: nat, g: nat)
    requires p.Valid() && TargetsApart(p) && |window| == p.blockSize + p.beyond && n <= |p.source| && g < |p.target|
    ensures Group(RotateBlock(p, window, n), p.target[g])
         == if g < n then Turn(Group(window, p.source[g]), EIGHT_ZEROS) else EIGHT_ZEROS
  {
    if n > 0 {
      GroupsTurned(p, window, n - 1, g);
      OneMoreTurned(p, window, n, g);
    }
  }

  lemma OneMoreTurned(p: Panel, window: seq<u8>, n: nat, g: nat)
    requires p.Valid() && TargetsApart(p) && |window| == p.blockSize + p.beyond && 0 < n <= |p.source| && g < |p.target|
    ensures var before := Group(RotateBlock(p, window, n - 1), p.target[g]);
            Group(RotateBlock(p, window, n), p.target[g]) == if g == n - 1 then Turn(Group(window, p.source[g]), before) else before
  {
    var before, t := RotateBlock(p, window, n - 1), p.target[n - 1];
    OverwriteGroup(before, t, Turn(Group(window, p.source[n - 1]), Group(before, t)), p.target[g]);
  }

  /** In a rotated block every group of eight bytes is the quarter turn of its source group. */
  lemma BlockRotates(p: Panel, window: seq<u8>, g: nat)
    requires p.Valid() && TargetsApart(p) && |window| == p.blockSize + p.beyond && g < |p.source|
    ensures QuarterTurn(Group(window, p.source[g]), Group(RotateBlock(p, window, |p.source|), p.target[g]))
  {
    GroupsTurned(p, window, |p.source|, g);
    TurnIsQuarterTurn(Group(window, p.source[g]));
  }
}
