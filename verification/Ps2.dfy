/** PS/2 reception bit by bit from the clock interrupt, and the ring of received bytes. */
module Ps2Model {
  import opened Arithmetic
  import opened Machine
  import opened Bits

  const PBUF_SIZE := 32

  /** Receiver states: INIT, START, BIT0 to BIT7, PARITY, STOP. */
  const INIT := 0
  const START := 1
  const PARITY := 10
  const STOP := 11

  /** An interrupt with the clock high or, on a falling edge, a data bit; or a byte taken out. */
  datatype Op = Rising | Falling(bit: bool) | Dequeue

  datatype Receiver = Receiver(state: nat, data: nat, parity: u8)

  const IDLE := Receiver(INIT, 0, 1)

  datatype State = State(rx: Receiver, error: nat, queue: seq<u8>)

  function ShiftIn(data: nat, bit: bool): nat {
    data / 2 + if bit then 0x80 else 0
  }

  function Enqueue(queue: seq<u8>, byte: u8): seq<u8> {
    if |queue| + 1 < PBUF_SIZE then queue + [byte] else queue
  }

  function Edge(s: State, bit: bool): State {
    var rx := s.rx;
    var n := rx.state + 1;
    var wait := s.(rx := rx.(state := n));
    var fail := s.(rx := IDLE, error := n);
    if n == START then if bit then fail else wait
    else if START < n < PARITY then
      s.(rx := Receiver(n, ShiftIn(rx.data, bit), if bit then Wrap8(rx.parity + 1) else rx.parity))
    else if n == PARITY then if bit == (rx.parity % 2 == 1) then wait else fail
    else if n == STOP && bit then s.(rx := IDLE, queue := Enqueue(s.queue, Wrap8(rx.data)))
    else fail
  }

  function Step(s: State, op: Op): State {
    match op
    case Rising => s
    case Falling(bit) => Edge(s, bit)
    case Dequeue => if s.queue == [] then s else s.(queue := s.queue[1..])
  }

  const START_STATE := State(IDLE, 0, [])

  function Run(ops: seq<Op>): State {
    if ops == [] then START_STATE else Step(Run(ops[..|ops| - 1]), ops[|ops| - 1])
  }

  /** The bits read on falling edges. */
  function BitsIn(ops: seq<Op>): seq<bool> {
    if ops == [] then []
    else
      var last := ops[|ops| - 1];
      BitsIn(ops[..|ops| - 1]) + if last.Falling? then [last.bit] else []
  }

  /** The bytes handed out. */
  function BytesOut(ops: seq<Op>): seq<u8> {
    if ops == [] then []
    else
      var before := ops[..|ops| - 1];
      BytesOut(before) + if ops[|ops| - 1].Dequeue? && Run(before).queue != [] then [Run(before).queue[0]] else []
  }

  // ---------- Frames ----------

  const FRAME := 11

  /** The number whose digits are the given bits, least significant first. */
  function Number(bits: seq<bool>): nat {
    if bits == [] then 0 else (if bits[0] then 1 else 0) + 2 * Number(bits[1..])
  }

  function Ones(bits: seq<bool>): (n: nat)
    ensures n <= |bits|
  {
    if bits == [] then 0 else Ones(bits[..|bits| - 1]) + if bits[|bits| - 1] then 1 else 0
  }

  /** The eight data bits and the parity bit together hold an odd number of ones. */
  predicate OddParity(frame: seq<bool>)
    requires |frame| >= 10
  {
    Ones(frame[1..10]) % 2 == 1
  }

  function DataByte(frame: seq<bool>): nat
    requires |frame| >= 10
  {
    Number(frame[1..9])
  }

  /** The bytes of the complete frames with correct parity. */
  function Decode(bits: seq<bool>): seq<u8>
    decreases |bits|
  {
    if |bits| < FRAME then []
    else (if OddParity(bits[..FRAME]) then [Wrap8(DataByte(bits[..FRAME]))] else []) + Decode(bits[FRAME..])
  }

  /** What a stream of bits comes to: bytes, the last error, and an unfinished frame. */
  datatype Parsed = Parsed(bytes: seq<u8>, error: nat, rest: seq<bool>)

  /**
    Any stream of bits, frame by frame.  A frame ends early at a start bit that is 1 or at a parity
    bit that is wrong; the next one then begins with the next bit.
  */
  function Parse(bits: seq<bool>, error: nat): Parsed
    decreases |bits|
  {
    if bits == [] then Parsed([], error, [])
    else if bits[0] then Parse(bits[1..], START)
    else if |bits| < 10 then Parsed([], error, bits)
    else if !OddParity(bits) then Parse(bits[10..], PARITY)
    else if |bits| == 10 then Parsed([], error, bits)
    else if !bits[10] then Parse(bits[FRAME..], STOP)
    else
      var more := Parse(bits[FRAME..], error);
      more.(bytes := [Wrap8(DataByte(bits))] + more.bytes)
  }

  /** Frames begin with a 0 and end with a 1. */
  predicate Framed(bits: seq<bool>) {
    forall i :: 0 <= i < |bits| ==> (i % FRAME == 0 ==> !bits[i]) && (i % FRAME == 10 ==> bits[i])
  }

  /** The byte that an edge delivers to the ring: the one a stop bit completes. */
  function Delivered(s: State, bit: bool): seq<u8> {
    if s.rx.state == PARITY && bit then [Wrap8(s.rx.data)] else []
  }

  predicate HasRoom(s: State) { |s.queue| + 1 < PBUF_SIZE }

  /** No byte is delivered while the ring is full. */
  predicate NeverFull(ops: seq<Op>) {
    ops == [] ||
    var before, last := Run(ops[..|ops| - 1]), ops[|ops| - 1];
    NeverFull(ops[..|ops| - 1]) && (last.Falling? && Delivered(before, last.bit) != [] ==> HasRoom(before))
  }

  // ---------- Shifting in ----------

  function Shifted(bits: seq<bool>): nat {
    if bits == [] then 0 else ShiftIn(Shifted(bits[..|bits| - 1]), bits[|bits| - 1])
  }

  lemma {:induction false} NumberSnoc(bits: seq<bool>, b: bool)
    ensures Number(bits + [b]) == Number(bits) + if b then Weight(|bits|) else 0
  {
    if bits == [] {
      assert [b][1..] == [];
      assert [] + [b] == [b];
    } else {
      assert (bits + [b])[1..] == bits[1..] + [b];
      NumberSnoc(bits[1..], b);
    }
  }

  lemma {:induction false} WeightProduct(a: nat, b: nat)
    ensures Weight(a + b) == Weight(a) * Weight(b)
  {
    if a > 0 {
      WeightProduct(a - 1, b);
    }
  }

  lemma Halved(a: nat, w: nat)
    ensures a * (2 * w) / 2 == a * w
  {
    assert a * (2 * w) == 2 * (a * w);
  }

  lemma Byte()
    ensures Weight(7) == 128 && Weight(8) == 256
  {
    assert Weight(4) == 16;
  }

  /** The shift register holds the bits so far at its upper end. */
  lemma {:induction false} ShiftedNumber(bits: seq<bool>)
    requires |bits| <= 8
    ensures Shifted(bits) == Number(bits) * Weight(8 - |bits|)
  {
    if bits != [] {
      var k := |bits| - 1;
      var before, b := bits[..k], bits[k];
      var w := Weight(7 - k);
      ShiftedNumber(before);
      Halved(Number(before), w);
      assert before + [b] == bits;
      NumberSnoc(before, b);
      WeightProduct(k, 7 - k);
      Byte();
      Distributes(Number(before), Weight(k), w);
    }
  }

  lemma {:induction false} NumberBound(bits: seq<bool>)
    ensures Number(bits) < Weight(|bits|)
  {
    if bits != [] {
      NumberBound(bits[1..]);
    }
  }

  lemma ByteShifted(bits: seq<bool>)
    requires |bits| == 8
    ensures Shifted(bits) == Number(bits) < 0x100
  {
    ShiftedNumber(bits);
    NumberBound(bits);
    Byte();
  }

  // ---------- The receiver within a frame ----------

  /** The bits of a frame that may still become whole. */
  predicate Unfinished(partial: seq<bool>) {
    && |partial| <= 10 && (partial != [] ==> !partial[0]) && (|partial| == 10 ==> OddParity(partial))
  }

  /** The receiver after the bits of an unfinished frame. */
  predicate Receiving(rx: Receiver, partial: seq<bool>) {
    var n := |partial|;
    if n == 0 then rx == IDLE
    else if n < 10 then rx == Receiver(n, Shifted(partial[1..]), 1 + Ones(partial[1..]))
    else n == 10 && rx == Receiver(PARITY, Shifted(partial[1..9]), 1 + Ones(partial[1..9]))
  }

  /** The receiver and its last error are what the stream comes to. */
  predicate InStep(s: State, p: Parsed) {
    Unfinished(p.rest) && Receiving(s.rx, p.rest) && s.error == p.error
  }

  lemma OnesSnoc(bits: seq<bool>, b: bool)
    ensures Ones(bits + [b]) == Ones(bits) + if b then 1 else 0
    ensures Shifted(bits + [b]) == ShiftIn(Shifted(bits), b)
  {
    assert (bits + [b])[..|bits|] == bits;
  }

  lemma FirstEdge(s: State, bit: bool)
    requires s.rx == IDLE
    ensures InStep(Edge(s, bit), Parse([bit], s.error)) && Delivered(s, bit) == Parse([bit], s.error).bytes == []
  {
    if bit {
      assert [bit][1..] == [];
    }
  }

  lemma ParseShort(bits: seq<bool>, error: nat)
    requires 0 < |bits| <= 10 && !bits[0]
    ensures |bits| < 10 || OddParity(bits) ==> Parse(bits, error) == Parsed([], error, bits)
    ensures |bits| == 10 && !OddParity(bits) ==> Parse(bits, error) == Parsed([], PARITY, [])
  {
    if |bits| == 10 {
      assert bits[10..] == [];
    }
  }

  lemma MiddleBit(s: State, partial: seq<bool>, bit: bool)
    requires Receiving(s.rx, partial) && 0 < |partial| < 9
    ensures Receiving(Edge(s, bit).rx, partial + [bit]) && Edge(s, bit).error == s.error && Delivered(s, bit) == []
  {
    assert (partial + [bit])[1..] == partial[1..] + [bit];
    OnesSnoc(partial[1..], bit);
  }

  lemma MiddleEdge(s: State, partial: seq<bool>, bit: bool)
    requires Receiving(s.rx, partial) && 0 < |partial| < 9 && !partial[0]
    ensures var p := Parse(partial + [bit], s.error);
            InStep(Edge(s, bit), p) && Delivered(s, bit) == p.bytes == []
  {
    MiddleBit(s, partial, bit);
    ParseShort(partial + [bit], s.error);
  }

  lemma ParityBitRead(s: State, partial: seq<bool>, bit: bool)
    requires Receiving(s.rx, partial) && |partial| == 9
    ensures Delivered(s, bit) == []
    ensures if OddParity(partial + [bit]) then Receiving(Edge(s, bit).rx, partial + [bit]) && Edge(s, bit).error == s.error
            else Edge(s, bit).rx == IDLE && Edge(s, bit).error == PARITY
  {
    var all := partial + [bit];
    assert all[1..10] == partial[1..] + [bit] && all[1..9] == partial[1..];
    OnesSnoc(partial[1..], bit);
  }

  lemma ParityEdge(s: State, partial: seq<bool>, bit: bool)
    requires Receiving(s.rx, partial) && |partial| == 9 && !partial[0]
    ensures var p := Parse(partial + [bit], s.error);
            InStep(Edge(s, bit), p) && Delivered(s, bit) == p.bytes == []
  {
    ParityBitRead(s, partial, bit);
    ParseShort(partial + [bit], s.error);
  }

  lemma StopEdge(s: State, partial: seq<bool>, bit: bool)
    requires Receiving(s.rx, partial) && |partial| == 10 && Unfinished(partial)
    ensures var p := Parse(partial + [bit], s.error);
            InStep(Edge(s, bit), p) && Delivered(s, bit) == p.bytes == if bit then [Wrap8(DataByte(partial))] else []
  {
    var all := partial + [bit];
    assert all[FRAME..] == [] && all[1..10] == partial[1..10] && all[1..9] == partial[1..9];
    ByteShifted(partial[1..9]);
  }

  /** One more bit of a frame, right or wrong: the receiver follows it, and a good stop bit delivers the byte. */
  lemma EdgeFollows(s: State, partial: seq<bool>, bit: bool)
    requires Receiving(s.rx, partial) && Unfinished(partial)
    ensures var p := Parse(partial + [bit], s.error);
            InStep(Edge(s, bit), p) && Delivered(s, bit) == p.bytes
  {
    if partial == [] {
      assert [] + [bit] == [bit];
      FirstEdge(s, bit);
    } else if |partial| < 9 {
      MiddleEdge(s, partial, bit);
    } else if |partial| == 9 {
      ParityEdge(s, partial, bit);
    } else {
      StopEdge(s, partial, bit);
    }
  }

  // ---------- Streams ----------

  /** A longer stream comes to what its unfinished frame and the rest come to, after the bytes so far. */
  lemma {:induction false} ParseAppends(bits: seq<bool>, more: seq<bool>, error: nat)
    ensures var p := Parse(bits, error);
            Parse(bits + more, error) == (var q := Parse(p.rest + more, p.error); q.(bytes := p.bytes + q.bytes))
    decreases |bits|
  {
    if bits == [] {
    } else if bits[0] {
      assert (bits + more)[1..] == bits[1..] + more;
      ParseAppends(bits[1..], more, START);
    } else if |bits| >= 10 {
      assert (bits + more)[1..10] == bits[1..10] && (bits + more)[1..9] == bits[1..9];
      if !OddParity(bits) {
        assert (bits + more)[10..] == bits[10..] + more;
        ParseAppends(bits[10..], more, PARITY);
      } else if |bits| > 10 {
        assert (bits + more)[FRAME..] == bits[FRAME..] + more;
        ParseAppends(bits[FRAME..], more, if bits[10] then error else STOP);
      }
    }
  }

  lemma EdgeInStream(s: State, bits: seq<bool>, bit: bool)
    requires InStep(s, Parse(bits, 0))
    ensures InStep(Edge(s, bit), Parse(bits + [bit], 0))
    ensures Parse(bits + [bit], 0).bytes == Parse(bits, 0).bytes + Delivered(s, bit)
  {
    ParseAppends(bits, [bit], 0);
    EdgeFollows(s, Parse(bits, 0).rest, bit);
  }

  /** A delivered byte is kept if there is room, and else it is lost. */
  lemma EdgeKeeps(s: State, bit: bool, out: seq<u8>, decoded: seq<u8>)
    requires |out + s.queue| <= |decoded|
    ensures var now, all' := out + Edge(s, bit).queue, decoded + Delivered(s, bit);
            && |now| <= |all'|
            && (now == all' <==> out + s.queue == decoded && (Delivered(s, bit) != [] ==> HasRoom(s)))
  {
    var more := Delivered(s, bit);
    if more == [] {
      assert decoded + more == decoded;
    } else if HasRoom(s) {
      assert out + (s.queue + more) == out + s.queue + more;
      SameEnd(out + s.queue, decoded, more);
    }
  }

  lemma SameEnd(a: seq<u8>, b: seq<u8>, end: seq<u8>)
    ensures a + end == b + end <==> a == b
  {
    if a + end == b + end {
      assert a == (a + end)[..|a|] && b == (b + end)[..|b|];
    }
  }

  /**
    For every stream of bits, good or bad, however the bytes are taken out in between, the receiver
    and its last error are what the stream comes to; and the bytes handed out and waiting are exactly
    those of its good frames, in order, if and only if no byte is delivered while the ring is full.
  */
  lemma {:induction false} StreamDecodes(ops: seq<Op>)
    ensures InStep(Run(ops), Parse(BitsIn(ops), 0))
    ensures |BytesOut(ops) + Run(ops).queue| <= |Parse(BitsIn(ops), 0).bytes|
    ensures BytesOut(ops) + Run(ops).queue == Parse(BitsIn(ops), 0).bytes <==> NeverFull(ops)
  {
    if ops != [] {
      var before, last := ops[..|ops| - 1], ops[|ops| - 1];
      StreamDecodes(before);
      if last.Falling? {
        EdgeInStream(Run(before), BitsIn(before), last.bit);
        assert BytesOut(ops) == BytesOut(before);
        EdgeKeeps(Run(before), last.bit, BytesOut(before), Parse(BitsIn(before), 0).bytes);
      } else {
        assert BitsIn(ops) == BitsIn(before);
        TakeOut(before, last);
      }
    }
  }

  lemma FramedTail(bits: seq<bool>, n: nat)
    requires Framed(bits) && n <= |bits| && n % FRAME == 0
    ensures Framed(bits[n..])
  {
    forall i | 0 <= i < |bits[n..]|
      ensures (i % FRAME == 0 ==> !bits[n..][i]) && (i % FRAME == 10 ==> bits[n..][i])
    {
      assert bits[n + i] == bits[n..][i] && (n + i) % FRAME == i % FRAME;
    }
  }

  /** In frames that begin with a 0 and end with a 1, the bytes are those with correct parity, whatever goes wrong. */
  lemma {:induction false} FramedBytes(bits: seq<bool>, error: nat)
    requires Framed(bits)
    ensures Parse(bits, error).bytes == Decode(bits)
    decreases |bits|
  {
    if |bits| >= FRAME {
      var frame := bits[..FRAME];
      assert !bits[0] && bits[10] && bits[1..10] == frame[1..10] && bits[1..9] == frame[1..9];
      FramedTail(bits, FRAME);
      FramedBytes(bits[FRAME..], if OddParity(bits) then error else START);
      if !OddParity(bits) {
        assert bits[10..][1..] == bits[FRAME..];
      }
    } else if |bits| == 10 {
      assert !bits[0] && bits[10..] == [];
    } else if bits != [] {
      assert !bits[0];
    }
  }

  lemma TakeOut(before: seq<Op>, last: Op)
    requires !last.Falling?
    ensures BytesOut(before + [last]) + Run(before + [last]).queue == BytesOut(before) + Run(before).queue
    ensures Run(before + [last]).rx == Run(before).rx
  {
    assert (before + [last])[..|before|] == before;
    var queue := Run(before).queue;
    if queue != [] {
      assert [queue[0]] + queue[1..] == queue;
    }
  }

  // ---------- What the host sends ----------

  function Digits(n: nat, count: nat): (bits: seq<bool>)
    ensures |bits| == count
    ensures forall i :: 0 <= i < count ==> bits[i] == Digit(n, i)
  {
    seq(count, i requires 0 <= i < count => Digit(n, i))
  }

  lemma {:induction false} DigitsNumber(n: nat, count: nat)
    ensures Number(Digits(n, count)) == Low(n, count)
  {
    if count > 0 {
      assert Digits(n, count)[1..] == Digits(n / 2, count - 1);
      DigitsNumber(n / 2, count - 1);
    }
  }

  predicate EvenOnes(bits: seq<bool>) { Ones(bits) % 2 == 0 }

  /** The start bit and the first data bits of a byte. */
  function FirstBits(byte: nat, count: nat): seq<bool> { [false] + Digits(byte, count) }

  /** A byte as the host puts it on the line. */
  function HostFrame(byte: u8): seq<bool> {
    FirstBits(byte, 8) + [EvenOnes(Digits(byte, 8))] + [true]
  }

  lemma DataDigits(byte: u8)
    ensures Number(Digits(byte, 8)) == byte
  {
    DigitsNumber(byte, 8);
    Byte();
    AllDigits(byte, 8);
  }

  lemma HostFrameFramed(byte: u8)
    ensures |HostFrame(byte)| == FRAME && Framed(HostFrame(byte))
  {
  }

  lemma ParityBit(bits: seq<bool>)
    ensures Ones(bits + [Ones(bits) % 2 == 0]) % 2 == 1
  {
    var ones := Ones(bits);
    OnesSnoc(bits, ones % 2 == 0);
    OddWithParity(ones);
  }

  lemma OddWithParity(ones: nat)
    ensures (ones + if ones % 2 == 0 then 1 else 0) % 2 == 1
  {
  }

  lemma Prepended(first: bool, bits: seq<bool>, last: bool)
    ensures [first] + (bits + [last]) == [first] + bits + [last]
  {
  }

  lemma DigitsGrow(n: nat, i: nat)
    ensures Digits(n, i + 1) == Digits(n, i) + [Digit(n, i)]
    ensures FirstBits(n, i + 1) == FirstBits(n, i) + [Digit(n, i)]
    ensures EvenOnes(Digits(n, i + 1)) <==> EvenOnes(Digits(n, i)) != Digit(n, i)
  {
    assert Digits(n, i + 1) == Digits(n, i) + [Digit(n, i)];
    Prepended(false, Digits(n, i), Digit(n, i));
    EvenMore(Digits(n, i), Digit(n, i));
  }

  lemma EvenMore(bits: seq<bool>, last: bool)
    ensures EvenOnes(bits + [last]) <==> EvenOnes(bits) != last
  {
    OnesSnoc(bits, last);
  }

  lemma HostFrameFields(byte: u8)
    ensures OddParity(HostFrame(byte)) && DataByte(HostFrame(byte)) == byte
  {
    var bits := Digits(byte, 8);
    ParityBit(bits);
    DataDigits(byte);
    assert HostFrame(byte)[1..9] == bits;
    assert HostFrame(byte)[1..10] == bits + [Ones(bits) % 2 == 0];
  }

  lemma DecodeOne(frame: seq<bool>)
    requires |frame| == FRAME
    ensures Decode(frame) == if OddParity(frame) then [Wrap8(DataByte(frame))] else []
  {
    assert frame[..FRAME] == frame && frame[FRAME..] == [];
  }

  /** The frame the host sends is well formed, and a receiver decodes the byte from it. */
  lemma HostFrameDecodes(byte: u8)
    ensures Framed(HostFrame(byte)) && Decode(HostFrame(byte)) == [byte]
  {
    HostFrameFramed(byte);
    HostFrameFields(byte);
    DecodeOne(HostFrame(byte));
  }
}

module Ps2 {
  import opened Machine
  import opened Bits
  import opened Ps2Model

  class Ps2Host {
    var state: nat
    var data: nat
    var parity: u8
    var error: nat
    const pbuf: array<u8>
    var head: nat
    var tail: nat

    predicate Valid()
      reads this`head, this`tail
    {
      pbuf.Length == PBUF_SIZE && head < PBUF_SIZE && tail < PBUF_SIZE
    }

    function Queue(): seq<u8>
      requires Valid()
      reads this`head, this`tail, pbuf
    {
      if tail <= head then pbuf[tail..head] else pbuf[tail..] + pbuf[..head]
    }

    ghost function View(): State
      requires Valid()
      reads this, pbuf
    {
      State(Receiver(state, data, parity), error, Queue())
    }

    constructor ()
      ensures Valid() && View() == START_STATE && fresh(pbuf)
    {
      state, data, parity, error := INIT, 0, 1, 0;
      pbuf := new u8[PBUF_SIZE](_ => 0);
      head, tail := 0, 0;
    }

    method InterruptServiceRoutine(clock: bool, dataIn: bool)
      requires Valid()
      modifies this, pbuf
      ensures Valid() && View() == Step(old(View()), if clock then Rising else Falling(dataIn))
    {
      if clock {
        return;
      }
      state := state + 1;
      if state == START {
        if !dataIn {
          return;
        }
      } else if START < state < PARITY {
        data := data / 2;
        if dataIn {
          data := data + 0x80;
          parity := Wrap8(parity + 1);
        }
        return;
      } else if state == PARITY {
        if dataIn {
          if parity % 2 == 1 {
            return;
          }
        } else if parity % 2 == 0 {
          return;
        }
      } else if state == STOP && dataIn {
        PbufEnqueue(Wrap8(data));
        state, data, parity := INIT, 0, 1;
        return;
      }
      error := state;
      state, data, parity := INIT, 0, 1;
    }

    method PbufEnqueue(byte: u8)
      requires Valid()
      modifies this`head, pbuf
      ensures Valid() && Queue() == Enqueue(old(Queue()), byte)
    {
      var next := (head + 1) % PBUF_SIZE;
      assert next == if head + 1 == PBUF_SIZE then 0 else head + 1;
      if next != tail {
        pbuf[head] := byte;
        head := next;
      }
    }

    /** Takes the oldest byte out; 0 if there is none. */
    method PbufDequeue() returns (byte: u8)
      requires Valid()
      modifies this`tail
      ensures Valid() && View() == Step(old(View()), Dequeue)
      ensures byte == if old(Queue()) == [] then 0 else old(Queue())[0]
    {
      byte := 0;
      if head != tail {
        byte := pbuf[tail];
        assert (tail + 1) % PBUF_SIZE == if tail + 1 == PBUF_SIZE then 0 else tail + 1;
        tail := (tail + 1) % PBUF_SIZE;
      }
    }

    /** The data line levels of a transmission in which every clock edge arrives in time. */
    method HostSend(byte: u8) returns (levels: seq<bool>)
      ensures levels == HostFrame(byte)
    {
      var parity := true;
      levels := [false];
      for i := 0 to 8
        invariant levels == FirstBits(byte, i)
        invariant parity == EvenOnes(Digits(byte, i))
      {
        DigitsGrow(byte, i);
        if Digit(byte, i) {
          parity := !parity;
          levels := levels + [true];
        } else {
          levels := levels + [false];
        }
      }
      levels := levels + [parity] + [true];
    }
  }
}
