/** The bitwise CRC-8 with polynomial 0x31, and the errors it is sure to detect. */
module Crc8 {
  /** A byte as its bits, most significant first. */
  datatype Byte = Byte(b7: bool, b6: bool, b5: bool, b4: bool, b3: bool, b2: bool, b1: bool, b0: bool)

  const ZERO := Byte(false, false, false, false, false, false, false, false)
  const INITIAL := Byte(true, true, true, true, true, true, true, true)
  /** 0x31 */
  const POLYNOMIAL := Byte(false, false, true, true, false, false, false, true)

  function Xor(a: Byte, b: Byte): Byte {
    Byte(a.b7 != b.b7, a.b6 != b.b6, a.b5 != b.b5, a.b4 != b.b4, a.b3 != b.b3, a.b2 != b.b2, a.b1 != b.b1, a.b0 != b.b0)
  }

  function ShiftLeft(a: Byte): Byte {
    Byte(a.b6, a.b5, a.b4, a.b3, a.b2, a.b1, a.b0, false)
  }

  /** One bit of the division: shift, and subtract the polynomial if a one is shifted out. */
  function BitStep(crc: Byte): Byte {
    if crc.b7 then Xor(ShiftLeft(crc), POLYNOMIAL) else ShiftLeft(crc)
  }

  function BitSteps(crc: Byte, n: nat): Byte {
    if n == 0 then crc else BitStep(BitSteps(crc, n - 1))
  }

  function ByteStep(crc: Byte): Byte { BitSteps(crc, 8) }

  /** The checksum register after the data, started at `init`. */
  function Register(init: Byte, data: seq<Byte>): Byte {
    if data == [] then init else ByteStep(Xor(Register(init, data[..|data| - 1]), data[|data| - 1]))
  }

  method Crc(data: seq<Byte>) returns (crc: Byte)
    ensures crc == Register(INITIAL, data)
  {
    crc := INITIAL;
    for i := 0 to |data|
      invariant crc == Register(INITIAL, data[..i])
    {
      crc := Xor(crc, data[i]);
      ghost var mixed := crc;
      for j := 0 to 8
        invariant crc == BitSteps(mixed, j)
      {
        if crc.b7 {
          crc := Xor(ShiftLeft(crc), POLYNOMIAL);
        } else {
          crc := ShiftLeft(crc);
        }
      }
      assert data[..i + 1][..i] == data[..i];
    }
    assert data[..|data|] == data;
  }

  // ---------- Linearity ----------

  /** The step bit by bit. */
  lemma BitStepIs(c: Byte)
    ensures BitStep(c) == Byte(c.b6, c.b5, c.b4 != c.b7, c.b3 != c.b7, c.b2, c.b1, c.b0, c.b7)
  {
  }

  lemma BitLinear(a: Byte, b: Byte)
    ensures BitStep(Xor(a, b)) == Xor(BitStep(a), BitStep(b))
  {
    BitStepIs(a);
    BitStepIs(b);
    BitStepIs(Xor(a, b));
  }

  lemma Exchange(a: Byte, b: Byte, c: Byte, d: Byte)
    ensures Xor(Xor(a, b), Xor(c, d)) == Xor(Xor(a, c), Xor(b, d))
  {
  }

  lemma {:induction false} StepsLinear(a: Byte, b: Byte, n: nat)
    ensures BitSteps(Xor(a, b), n) == Xor(BitSteps(a, n), BitSteps(b, n))
  {
    if n > 0 {
      StepsLinear(a, b, n - 1);
      BitLinear(BitSteps(a, n - 1), BitSteps(b, n - 1));
    }
  }

  /** A step loses nothing: only zero goes to zero. */
  lemma {:induction false} StepsNonzero(a: Byte, n: nat)
    ensures BitSteps(a, n) == ZERO <==> a == ZERO
  {
    if n > 0 {
      StepsNonzero(a, n - 1);
    }
  }

  function Difference(a: seq<Byte>, b: seq<Byte>): (d: seq<Byte>)
    requires |a| == |b|
    ensures |d| == |a|
    ensures forall i :: 0 <= i < |a| ==> d[i] == Xor(a[i], b[i])
  {
    seq(|a|, i requires 0 <= i < |a| => Xor(a[i], b[i]))
  }

  /** The checksums of two messages differ by the checksum of their difference, started at zero. */
  lemma {:induction false} ChecksumsDiffer(init: Byte, a: seq<Byte>, b: seq<Byte>)
    requires |a| == |b|
    ensures Xor(Register(init, a), Register(init, b)) == Register(ZERO, Difference(a, b))
  {
    if a != [] {
      var n := |a| - 1;
      assert Difference(a, b)[..n] == Difference(a[..n], b[..n]);
      ChecksumsDiffer(init, a[..n], b[..n]);
      var ra, rb := Register(init, a[..n]), Register(init, b[..n]);
      StepsLinear(Xor(ra, a[n]), Xor(rb, b[n]), 8);
      Exchange(ra, a[n], rb, b[n]);
    }
  }

  // ---------- The checksum bit by bit ----------

  /** Bit `i` of a byte, counted from the most significant. */
  predicate Bit(x: Byte, i: nat)
    requires i < 8
  {
    if i == 0 then x.b7 else if i == 1 then x.b6 else if i == 2 then x.b5 else if i == 3 then x.b4
    else if i == 4 then x.b3 else if i == 5 then x.b2 else if i == 6 then x.b1 else x.b0
  }

  /** The byte with only bit `i` set, or none. */
  function Single(i: nat, on: bool): Byte
    requires i < 8
  {
    Byte(on && i == 0, on && i == 1, on && i == 2, on && i == 3, on && i == 4, on && i == 5, on && i == 6, on && i == 7)
  }

  /** The byte that begins with the given bits and continues with zeros. */
  function Pad(w: seq<bool>): Byte
    requires |w| <= 8
  {
    if w == [] then ZERO else Xor(Pad(w[..|w| - 1]), Single(|w| - 1, w[|w| - 1]))
  }

  /** One message bit into the register. */
  function Feed(crc: Byte, bit: bool): Byte {
    BitStep(Xor(crc, Single(0, bit)))
  }

  function Serial(init: Byte, bits: seq<bool>): Byte {
    if bits == [] then init else Feed(Serial(init, bits[..|bits| - 1]), bits[|bits| - 1])
  }

  lemma {:induction false} SingleRises(i: nat, on: bool)
    requires i < 8
    ensures BitSteps(Single(i, on), i) == Single(0, on)
  {
    if i > 0 {
      StepInside(Single(i, on), i);
      BitStepIs(Single(i, on));
      assert BitStep(Single(i, on)) == Single(i - 1, on);
      SingleRises(i - 1, on);
    }
  }

  lemma {:induction false} StepInside(x: Byte, n: nat)
    requires n > 0
    ensures BitSteps(x, n) == BitSteps(BitStep(x), n - 1)
  {
    if n > 1 {
      StepInside(x, n - 1);
    } else {
      assert BitSteps(x, 0) == x;
    }
  }

  lemma XorMoves(a: Byte, b: Byte, c: Byte)
    ensures Xor(a, Xor(b, c)) == Xor(Xor(a, b), c)
    ensures Xor(a, ZERO) == a
  {
  }

  /** Up to eight message bits fed one by one are the same as mixed in at once. */
  lemma {:induction false} SerialIsAtOnce(crc: Byte, w: seq<bool>)
    requires |w| <= 8
    ensures Serial(crc, w) == BitSteps(Xor(crc, Pad(w)), |w|)
  {
    if w == [] {
      XorMoves(crc, ZERO, ZERO);
    } else {
      var k := |w| - 1;
      var before := Pad(w[..k]);
      SerialIsAtOnce(crc, w[..k]);
      XorMoves(crc, before, Single(k, w[k]));
      StepsLinear(Xor(crc, before), Single(k, w[k]), k);
      SingleRises(k, w[k]);
    }
  }

  function BitsOf(x: Byte): (bits: seq<bool>)
    ensures |bits| == 8
  {
    [x.b7, x.b6, x.b5, x.b4, x.b3, x.b2, x.b1, x.b0]
  }

  lemma {:induction false} PadBit(w: seq<bool>, i: nat)
    requires |w| <= 8 && i < 8
    ensures Bit(Pad(w), i) == (i < |w| && w[i])
  {
    if w != [] {
      PadBit(w[..|w| - 1], i);
    }
  }

  lemma SameBits(x: Byte, y: Byte)
    requires forall i :: 0 <= i < 8 ==> Bit(x, i) == Bit(y, i)
    ensures x == y
  {
    assert Bit(x, 0) == Bit(y, 0) && Bit(x, 1) == Bit(y, 1) && Bit(x, 2) == Bit(y, 2) && Bit(x, 3) == Bit(y, 3);
    assert Bit(x, 4) == Bit(y, 4) && Bit(x, 5) == Bit(y, 5) && Bit(x, 6) == Bit(y, 6) && Bit(x, 7) == Bit(y, 7);
  }

  lemma PadBits(x: Byte)
    ensures Pad(BitsOf(x)) == x
  {
    forall i | 0 <= i < 8
      ensures Bit(Pad(BitsOf(x)), i) == Bit(x, i)
    {
      PadBit(BitsOf(x), i);
    }
    SameBits(Pad(BitsOf(x)), x);
  }

  /** The bits of a message in the order they are transmitted. */
  function AllBits(data: seq<Byte>): (bits: seq<bool>)
    ensures |bits| == 8 * |data|
  {
    if data == [] then [] else AllBits(data[..|data| - 1]) + BitsOf(data[|data| - 1])
  }

  lemma {:induction false} SerialSplits(init: Byte, a: seq<bool>, b: seq<bool>)
    ensures Serial(init, a + b) == Serial(Serial(init, a), b)
  {
    if b == [] {
      assert a + b == a;
    } else {
      assert (a + b)[..|a + b| - 1] == a + b[..|b| - 1];
      SerialSplits(init, a, b[..|b| - 1]);
    }
  }

  /** The bytewise checksum is the serial one. */
  lemma {:induction false} RegisterIsSerial(init: Byte, data: seq<Byte>)
    ensures Register(init, data) == Serial(init, AllBits(data))
  {
    if data != [] {
      var n := |data| - 1;
      RegisterIsSerial(init, data[..n]);
      SerialSplits(init, AllBits(data[..n]), BitsOf(data[n]));
      SerialIsAtOnce(Register(init, data[..n]), BitsOf(data[n]));
      PadBits(data[n]);
    }
  }

  // ---------- Bursts ----------

  /** Some bit is set, and all set bits lie among eight consecutive ones. */
  ghost predicate Burst(bits: seq<bool>, start: nat) {
    && (exists i :: 0 <= i < |bits| && bits[i])
    && (forall i :: 0 <= i < |bits| && bits[i] ==> start <= i < start + 8)
  }

  predicate Clear(bits: seq<bool>) {
    forall j :: 0 <= j < |bits| ==> !bits[j]
  }

  /** Zero bits neither create nor remove a difference. */
  lemma {:induction false} ZerosKeep(crc: Byte, bits: seq<bool>)
    requires Clear(bits)
    ensures Serial(crc, bits) == ZERO <==> crc == ZERO
  {
    if bits != [] {
      ZerosKeep(crc, bits[..|bits| - 1]);
      var before := Serial(crc, bits[..|bits| - 1]);
      XorMoves(before, ZERO, ZERO);
      assert Single(0, false) == ZERO;
      StepsNonzero(before, 1);
      assert BitSteps(before, 1) == BitStep(BitSteps(before, 0));
    }
  }

  lemma WindowShows(w: seq<bool>, i: nat)
    requires i < |w| <= 8 && w[i]
    ensures Serial(ZERO, w) != ZERO
  {
    SerialIsAtOnce(ZERO, w);
    PadBit(w, i);
    assert Pad(w) != ZERO;
    assert Xor(ZERO, Pad(w)) == Pad(w);
    StepsNonzero(Pad(w), |w|);
  }

  lemma SurroundedWindow(a: seq<bool>, w: seq<bool>, b: seq<bool>, i: nat)
    requires i < |w| <= 8 && w[i]
    requires Clear(a) && Clear(b)
    ensures Serial(ZERO, a + (w + b)) != ZERO
  {
    SerialSplits(ZERO, a, w + b);
    ZerosKeep(ZERO, a);
    SerialSplits(ZERO, w, b);
    WindowShows(w, i);
    ZerosKeep(Serial(ZERO, w), b);
  }

  lemma InThree(bits: seq<bool>, start: nat, end: nat)
    requires Burst(bits, start) && start <= end <= |bits| && (end == start + 8 || end == |bits|)
    ensures bits == bits[..start] + (bits[start..end] + bits[end..])
    ensures Clear(bits[..start]) && Clear(bits[end..])
  {
    forall j | 0 <= j < |bits| - end
      ensures !bits[end..][j]
    {
      assert bits[end..][j] == bits[end + j];
    }
  }

  lemma BurstWindow(bits: seq<bool>, start: nat, end: nat, i: nat)
    requires Burst(bits, start) && start <= i < end <= |bits| && bits[i]
    requires end <= start + 8 && (end == start + 8 || end == |bits|)
    ensures Serial(ZERO, bits) != ZERO
  {
    var w := bits[start..end];
    assert w[i - start] == bits[i];
    InThree(bits, start, end);
    SurroundedWindow(bits[..start], w, bits[end..], i - start);
  }

  lemma BurstShows(bits: seq<bool>, start: nat)
    requires Burst(bits, start)
    ensures Serial(ZERO, bits) != ZERO
  {
    var i :| 0 <= i < |bits| && bits[i];
    BurstWindow(bits, start, if start + 8 <= |bits| then start + 8 else |bits|, i);
  }

  /**
    Two messages of the same length whose difference is a burst of at most eight bits, anywhere
    and across byte boundaries, always have different checksums.
  */
  lemma BurstsDetected(a: seq<Byte>, b: seq<Byte>, start: nat)
    requires |a| == |b| && Burst(AllBits(Difference(a, b)), start)
    ensures Register(INITIAL, a) != Register(INITIAL, b)
  {
    ChecksumsDiffer(INITIAL, a, b);
    RegisterIsSerial(ZERO, Difference(a, b));
    BurstShows(AllBits(Difference(a, b)), start);
    assert Xor(Register(INITIAL, a), Register(INITIAL, a)) == ZERO;
  }

  lemma TwoBytes(a: Byte, b: Byte)
    ensures Register(INITIAL, [a, b]) == ByteStep(Xor(ByteStep(Xor(INITIAL, a)), b))
  {
    assert [a, b][..1] == [a] && [a][..0] == [];
    assert Register(INITIAL, [a]) == ByteStep(Xor(INITIAL, a));
  }

  lemma LastBitStep()
    ensures ByteStep(Single(7, true)) == POLYNOMIAL
  {
    SingleRises(7, true);
    var top := BitSteps(Single(7, true), 7);
    assert ByteStep(Single(7, true)) == BitStep(top);
  }

  lemma Cancels(x: Byte, p: Byte, b: Byte)
    ensures Xor(Xor(x, p), Xor(b, p)) == Xor(x, b)
  {
  }

  /** Nine bits are too many: a message may change by the polynomial itself unnoticed. */
  lemma NineBitsEscape(a: Byte, b: Byte)
    ensures Register(INITIAL, [a, b])
         == Register(INITIAL, [Xor(a, Single(7, true)), Xor(b, POLYNOMIAL)])
  {
    var last, x := Single(7, true), Xor(INITIAL, a);
    TwoBytes(a, b);
    TwoBytes(Xor(a, last), Xor(b, POLYNOMIAL));
    XorMoves(INITIAL, a, last);
    StepsLinear(x, last, 8);
    LastBitStep();
    Cancels(ByteStep(x), POLYNOMIAL, b);
  }
}
