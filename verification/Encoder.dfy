/** Quadrature decoding of rotary encoders, and keeping the two halves of a split board in step. */
module EncoderModel {
  import opened Arithmetic
  import opened Machine

  type i8 = x: int | -128 <= x < 128

  /** The value of an 8-bit pattern read as two's complement. */
  function Signed8(x: int): i8 {
    var b := Wrap8(x);
    if b < 128 then b else b - 256
  }

  /** C's remainder, which takes the sign of the dividend. */
  function Rem(a: int, b: int): (r: int)
    requires b > 0
    ensures -b < r < b
    ensures -b < a < b ==> r == a
    ensures a == b || a == -b ==> r == 0
    ensures -128 <= a < 128 ==> -128 <= r < 128
  {
    Modulus(if a >= 0 then a else -a, b);
    if a >= 0 then a % b else -((-a) % b)
  }

  lemma Modulus(a: nat, b: nat)
    requires b > 0
    ensures 0 <= a % b < b && a % b <= a
    ensures a < b ==> a % b == a
    ensures a == b ==> a % b == 0
  {
    if a < b {
    } else {
      assert a % b < b <= a;
    }
  }

  const LUT: seq<i8> := [0, -1, 1, 0, 1, 0, 0, -1, -1, 0, 0, 1, 0, 1, -1, 0]

  function Pulse(state: u8): i8 { LUT[state % 16] }

  /** The two pins, A in bit 0 and B in bit 1. */
  type Pins = p: int | 0 <= p < 4

  /** One encoder: pin history, pulses not yet counted, the count byte, and the net callbacks made. */
  datatype Knob = Knob(state: u8, pulses: i8, value: u8, net: int)

  /** The detents completed: one up, one down, or none. */
  function Detents(pulses: int, resolution: int): int {
    (if pulses >= resolution then 1 else 0) - if pulses <= -resolution then 1 else 0
  }

  /** One pulse more or less, and a callback when a detent is complete. */
  function Update(k: Knob, resolution: int): Knob
    requires 0 < resolution < 256
  {
    var pulses := Signed8(k.pulses + Pulse(k.state));
    var turns := Detents(pulses, resolution);
    k.(pulses := Rem(pulses, resolution), value := Wrap8(k.value + turns), net := k.net + turns)
  }

  function Sample(k: Knob, pins: Pins, resolution: int): Knob
    requires 0 < resolution < 256
  {
    Update(k.(state := Wrap8(4 * k.state + pins)), resolution)
  }

  function Run(k: Knob, samples: seq<Pins>, resolution: int): Knob
    requires 0 < resolution < 256
  {
    if samples == [] then k
    else Sample(Run(k, samples[..|samples| - 1], resolution), samples[|samples| - 1], resolution)
  }

  // ---------- The shaft ----------

  /** What the pins read at a shaft position: a Gray code with period four. */
  function PinsAt(position: int): Pins {
    var phase := position % 4;
    if phase == 0 then 0 else if phase == 1 then 2 else if phase == 2 then 3 else 1
  }

  function Readings(positions: seq<int>): (pins: seq<Pins>)
    ensures |pins| == |positions|
  {
    seq(|positions|, i requires 0 <= i < |positions| => PinsAt(positions[i]))
  }

  /** Successive values differ from the one before by at least `low` and at most `high`. */
  predicate StepsWithin(start: int, values: seq<int>, low: int, high: int) {
    values == [] ||
    var n := |values| - 1;
    StepsWithin(start, values[..n], low, high) && low <= values[n] - Last(start, values[..n]) <= high
  }

  /** The shaft moves at most one step between samples. */
  predicate Smooth(start: int, positions: seq<int>) {
    StepsWithin(start, positions, -1, 1)
  }

  function Last(start: int, positions: seq<int>): int {
    if positions == [] then start else positions[|positions| - 1]
  }

  /** The table knows the direction of every single step. */
  lemma LutStep(a: int, b: int, state: u8)
    requires -1 <= b - a <= 1 && state % 4 == PinsAt(a)
    ensures Pulse(Wrap8(4 * state + PinsAt(b))) == b - a
    ensures Wrap8(4 * state + PinsAt(b)) % 4 == PinsAt(b)
  {
    Shifted(state, PinsAt(b));
    PhaseStep(a, b);
  }

  /** A jump of two steps, of which the direction is not known, is ignored. */
  lemma LutJump(a: int, state: u8)
    requires state % 4 == PinsAt(a)
    ensures Pulse(Wrap8(4 * state + PinsAt(a + 2))) == 0
  {
    Shifted(state, PinsAt(a + 2));
    PhaseJump(a);
  }

  lemma PhaseJump(a: int)
    ensures LUT[4 * PinsAt(a) + PinsAt(a + 2)] == 0
  {
    assert (a + 2) % 4 == (a % 4 + 2) % 4;
  }

  lemma Shifted(state: u8, pins: Pins)
    ensures Wrap8(4 * state + pins) % 16 == 4 * (state % 4) + pins
    ensures Wrap8(4 * state + pins) % 4 == pins
  {
    var q, r := state / 4, state % 4;
    assert 4 * state + pins == q * 16 + (4 * r + pins) == state * 4 + pins;
    LowOfByte(4 * state + pins, 16);
    LowOfByte(4 * state + pins, 4);
    DivisionUnique(4 * state + pins, 16, q, 4 * r + pins);
    DivisionUnique(4 * state + pins, 4, state, pins);
  }

  lemma LowOfByte(x: nat, w: nat)
    requires w == 4 || w == 16
    ensures Wrap8(x) % w == x % w
  {
    var high, low := x / 256, x % 256;
    var q := low / w;
    assert x == (256 / w * high + q) * w + low % w;
    DivisionUnique(x, w, 256 / w * high + q, low % w);
  }

  lemma PhaseStep(a: int, b: int)
    requires -1 <= b - a <= 1
    ensures LUT[4 * PinsAt(a) + PinsAt(b)] == b - a
  {
    assert b % 4 == (a % 4 + (b - a)) % 4;
  }

  /**
    Conservation: for every smooth turn of the shaft, detents counted and pulses in hand account
    exactly for the displacement, and less than a detent is ever in hand.
  */
  lemma {:induction false} Conservation(k: Knob, start: int, positions: seq<int>, resolution: int)
    requires 0 < resolution <= 127
    requires k.state % 4 == PinsAt(start) && -resolution < k.pulses < resolution
    requires Smooth(start, positions)
    ensures var k' := Run(k, Readings(positions), resolution);
            && k'.state % 4 == PinsAt(Last(start, positions))
            && -resolution < k'.pulses < resolution
            && resolution * k'.net + k'.pulses == resolution * k.net + k.pulses + (Last(start, positions) - start)
            && Wrap8(k'.value - k'.net) == Wrap8(k.value - k.net)
  {
    if positions != [] {
      var n := |positions| - 1;
      Conservation(k, start, positions[..n], resolution);
      assert Readings(positions)[..n] == Readings(positions[..n]);
      var before := Run(k, Readings(positions[..n]), resolution);
      var a, b := Last(start, positions[..n]), positions[n];
      Detent(before, a, b, resolution);
    }
  }

  /** One pulse either completes a detent, leaving none in hand, or stays in hand. */
  lemma DetentCases(k: Knob, d: int, resolution: int)
    requires 0 < resolution <= 127 && -resolution < k.pulses < resolution
    requires -1 <= d <= 1 && Pulse(k.state) == d
    ensures var k', pulses := Update(k, resolution), k.pulses + d;
            if pulses == resolution then k'.pulses == 0 && k'.net == k.net + 1
            else if pulses == -resolution then k'.pulses == 0 && k'.net == k.net - 1
            else k'.pulses == pulses && k'.net == k.net
    ensures var k' := Update(k, resolution);
            k'.state == k.state && k'.value == Wrap8(k.value + (k'.net - k.net))
  {
    var pulses := k.pulses + d;
    assert Signed8(pulses) == pulses;
    assert -resolution <= pulses <= resolution;
  }

  lemma CountsAlike(value: int, net: int, turns: int)
    ensures Wrap8(Wrap8(value + turns) - (net + turns)) == Wrap8(value - net)
  {
  }

  lemma Times(r: int, n: int)
    ensures r * (n + 1) == r * n + r && r * (n - 1) == r * n - r
  {
  }

  /** What a pulse does to the account of detents and pulses. */
  lemma Account(k: Knob, d: int, resolution: int)
    requires 0 < resolution <= 127 && -resolution < k.pulses < resolution
    requires -1 <= d <= 1 && Pulse(k.state) == d
    ensures var k' := Update(k, resolution);
            && -resolution < k'.pulses < resolution
            && resolution * k'.net + k'.pulses == resolution * k.net + k.pulses + d
  {
    DetentCases(k, d, resolution);
    Times(resolution, k.net);
  }

  lemma Detent(k: Knob, a: int, b: int, resolution: int)
    requires 0 < resolution <= 127 && -resolution < k.pulses < resolution
    requires -1 <= b - a <= 1 && k.state % 4 == PinsAt(a)
    ensures var k' := Sample(k, PinsAt(b), resolution);
            && -resolution < k'.pulses < resolution
            && k'.state % 4 == PinsAt(b)
            && resolution * k'.net + k'.pulses == resolution * k.net + k.pulses + (b - a)
            && Wrap8(k'.value - k'.net) == Wrap8(k.value - k.net)
  {
    LutStep(a, b, k.state);
    var shifted := k.(state := Wrap8(4 * k.state + PinsAt(b)));
    Account(shifted, b - a, resolution);
    DetentCases(shifted, b - a, resolution);
    CountsAlike(k.value, k.net, Sample(k, PinsAt(b), resolution).net - k.net);
  }

  /** Steadily upwards. */
  function Upwards(n: nat): (positions: seq<int>)
    ensures |positions| == n && Last(0, positions) == n && Smooth(0, positions)
  {
    if n == 0 then []
    else
      assert (Upwards(n - 1) + [n])[..n - 1] == Upwards(n - 1);
      Upwards(n - 1) + [n]
  }

  /** Below a full detent nothing is counted, as long as the pulses fit in a signed byte. */
  lemma Pile(k: Knob, a: int, resolution: int)
    requires 128 <= resolution < 256 && 0 <= k.pulses < 127 && k.state % 4 == PinsAt(a)
    ensures var k' := Sample(k, PinsAt(a + 1), resolution);
            k'.pulses == k.pulses + 1 && k'.net == k.net && k'.state % 4 == PinsAt(a + 1)
  {
    LutStep(a, a + 1, k.state);
    assert Signed8(k.pulses + 1) == k.pulses + 1;
  }

  lemma {:induction false} PulsesPileUp(resolution: int, n: nat)
    requires 128 <= resolution < 256 && n <= 127
    ensures var k := Run(Knob(0, 0, 0, 0), Readings(Upwards(n)), resolution);
            k.pulses == n && k.net == 0 && k.state % 4 == PinsAt(n)
  {
    if n > 0 {
      assert Readings(Upwards(n))[..n - 1] == Readings(Upwards(n - 1));
      PulsesPileUp(resolution, n - 1);
      Pile(Run(Knob(0, 0, 0, 0), Readings(Upwards(n - 1)), resolution), n - 1, resolution);
    }
  }

  /** The next pulse overflows the byte, and the knob seems to have turned the other way. */
  lemma Overflow(k: Knob, resolution: int)
    requires 128 <= resolution < 256 && k.pulses == 127 && k.net == 0 && k.state % 4 == PinsAt(127)
    ensures var k' := Sample(k, PinsAt(128), resolution);
            k'.net <= 0 && k'.pulses <= 0
  {
    LutStep(127, 128, k.state);
    assert Signed8(128) == -128;
  }

  ghost predicate Conserves(resolution: int)
    requires 0 < resolution < 256
  {
    forall positions :: Smooth(0, positions) ==>
      var k := Run(Knob(0, 0, 0, 0), Readings(positions), resolution);
      resolution * k.net + k.pulses == Last(0, positions)
  }

  lemma FailsBeyond(resolution: int)
    requires 128 <= resolution < 256
    ensures !Conserves(resolution)
  {
    var up := Upwards(128);
    var before := Run(Knob(0, 0, 0, 0), Readings(Upwards(127)), resolution);
    PulsesPileUp(resolution, 127);
    assert Readings(up)[..127] == Readings(Upwards(127));
    Overflow(before, resolution);
    var k := Run(Knob(0, 0, 0, 0), Readings(up), resolution);
    assert k == Sample(before, PinsAt(128), resolution);
    assert Smooth(0, up) && Last(0, up) == 128;
    NoGain(resolution, k.net);
  }

  lemma NoGain(resolution: int, net: int)
    requires resolution > 0 && net <= 0
    ensures resolution * net <= 0
  {
  }

  /** The pulse count is a signed byte: conservation holds exactly for resolutions up to 127. */
  lemma ConservesExactly(resolution: int)
    requires 0 < resolution < 256
    ensures Conserves(resolution) <==> resolution <= 127
  {
    if resolution <= 127 {
      forall positions | Smooth(0, positions)
        ensures var k := Run(Knob(0, 0, 0, 0), Readings(positions), resolution);
                resolution * k.net + k.pulses == Last(0, positions)
      {
        Conservation(Knob(0, 0, 0, 0), 0, positions, resolution);
      }
    } else {
      FailsBeyond(resolution);
    }
  }

  // ---------- The two halves ----------

  /** The master's net callbacks when it is sent the slave's byte. */
  function Delta(slave: u8, master: u8): i8 { Signed8(slave - master) }

  /** One sync reports exactly the slave's turns when they fit in a signed byte. */
  lemma SyncExact(before: int, after: int)
    ensures Delta(Wrap8(after), Wrap8(before)) == after - before <==> -128 <= after - before < 128
  {
    WrapDifference(after, before);
    SignedWrap(after - before);
  }

  lemma WrapDifference(a: int, b: int)
    ensures Wrap8(Wrap8(a) - Wrap8(b)) == Wrap8(a - b)
  {
  }

  lemma SignedWrap(d: int)
    ensures Signed8(Wrap8(d)) == d <==> -128 <= d < 128
  {
  }

  /** The net callbacks of successive syncs; `turns` are the slave's totals at each of them. */
  function Synced(start: int, turns: seq<int>): int {
    if turns == [] then 0
    else
      var n := |turns| - 1;
      Synced(start, turns[..n]) + Delta(Wrap8(turns[n]), Wrap8(Last(start, turns[..n])))
  }

  /** Over any number of syncs, no turn is lost if each brings a change that fits in a signed byte. */
  lemma {:induction false} SyncsConserve(start: int, turns: seq<int>)
    requires StepsWithin(start, turns, -128, 127)
    ensures Synced(start, turns) == Last(start, turns) - start
  {
    if turns != [] {
      var n := |turns| - 1;
      SyncsConserve(start, turns[..n]);
      SyncExact(Last(start, turns[..n]), turns[n]);
    }
  }
}

module Encoder {
  import opened Machine
  import opened EncoderModel

  /** A callback for one encoder: upwards is counter-clockwise here. */
  datatype Callback = Callback(index: nat, up: bool)

  function Net(log: seq<Callback>, index: nat): int {
    if log == [] then 0
    else
      var c := log[|log| - 1];
      Net(log[..|log| - 1], index) + if c.index != index then 0 else if c.up then 1 else -1
  }

  lemma NetSnoc(log: seq<Callback>, c: Callback, index: nat)
    ensures Net(log + [c], index) == Net(log, index) + if c.index != index then 0 else if c.up then 1 else -1
  {
    assert (log + [c])[..|log|] == log;
  }

  /** The encoders of one half; the counts cover both halves, this one's from `thisHand` on. */
  class Encoders {
    const count: nat
    const resolutions: seq<int>
    const thisHand: nat
    const thatHand: nat
    const state: array<u8>
    const pulses: array<i8>
    const value: array<u8>
    var log: seq<Callback>

    ghost predicate Valid() {
      && |resolutions| == count && (forall i :: 0 <= i < count ==> 0 < resolutions[i] < 256)
      && state.Length == count && pulses.Length == count && value.Length == 2 * count
      && state != value
      && ((thisHand == 0 && thatHand == count) || (thisHand == count && thatHand == 0))
    }

    ghost function At(i: nat): Knob
      requires Valid() && i < count
      reads this`log, state, pulses, value
    {
      Knob(state[i], pulses[i], value[i + thisHand], Net(log, i + thisHand))
    }

    /** As initialisation leaves them, with the pins read once. */
    constructor (resolutions: seq<int>, pins: seq<Pins>, left: bool)
      requires |pins| == |resolutions| && forall i :: 0 <= i < |resolutions| ==> 0 < resolutions[i] < 256
      ensures Valid() && fresh(state) && fresh(pulses) && fresh(value)
      ensures this.resolutions == resolutions && forall i :: 0 <= i < count ==> At(i) == Knob(pins[i], 0, 0, 0)
      ensures thisHand == if left then 0 else count
    {
      var n := |resolutions|;
      this.resolutions, count := resolutions, n;
      thisHand, thatHand := if left then 0 else n, if left then n else 0;
      state := new u8[n](i requires 0 <= i < n => pins[i]);
      pulses := new i8[n](_ => 0);
      value := new u8[2 * n](_ => 0);
      log := [];
    }

    /** A count byte, and the net callbacks made for it. */
    ghost function Count(index: nat): (u8, int)
      requires index < value.Length
      reads this`log, value
    {
      (value[index], Net(log, index))
    }

    method Turn(index: nat, up: bool)
      requires index < value.Length
      modifies this`log, value
      ensures var d := if up then 1 else -1;
              Count(index) == (Wrap8(old(Count(index)).0 + d), old(Count(index)).1 + d)
      ensures forall j :: 0 <= j < value.Length && j != index ==> Count(j) == old(Count(j))
    {
      value[index] := Wrap8((value[index] as int) + if up then 1 else -1);
      forall j: nat
        ensures Net(log + [Callback(index, up)], j) == Net(log, j) + if j != index then 0 else if up then 1 else -1
      {
        NetSnoc(log, Callback(index, up), j);
      }
      log := log + [Callback(index, up)];
    }

    method CountDetents(index: nat, pulses: int, resolution: int)
      requires Valid() && index < value.Length
      modifies this`log, value
      ensures var d := Detents(pulses, resolution);
              Count(index) == (Wrap8(old(Count(index)).0 + d), old(Count(index)).1 + d)
      ensures forall j :: 0 <= j < value.Length && j != index ==> Count(j) == old(Count(j))
    {
      if pulses >= resolution {
        Turn(index, true);
      }
      if pulses <= -resolution {
        Turn(index, false);
      }
    }

    method EncoderUpdate(i: nat)
      requires Valid() && i < count
      modifies this`log, pulses, value
      ensures At(i) == Update(old(At(i)), resolutions[i])
      ensures forall j :: 0 <= j < count && j != i ==> At(j) == old(At(j))
    {
      var resolution := resolutions[i];
      pulses[i] := Signed8((pulses[i] as int) + Pulse(state[i]));
      CountDetents(i + thisHand, pulses[i], resolution);
      assert Count(i + thisHand) == (value[i + thisHand], Net(log, i + thisHand));
      pulses[i] := Rem(pulses[i], resolution);
      forall j | 0 <= j < count && j != i
        ensures At(j) == old(At(j))
      {
        assert Count(j + thisHand) == old(Count(j + thisHand));
      }
    }

    /** Samples every encoder once. */
    method EncoderRead(pins: seq<Pins>)
      requires Valid() && |pins| == count
      modifies this`log, state, pulses, value
      ensures forall i :: 0 <= i < count ==> At(i) == Sample(old(At(i)), pins[i], resolutions[i])
    {
      for i := 0 to count
        invariant forall j :: 0 <= j < i ==> At(j) == Sample(old(At(j)), pins[j], resolutions[j])
        invariant forall j :: i <= j < count ==> At(j) == old(At(j))
      {
        SampleOne(i, pins[i]);
      }
    }

    method SampleOne(i: nat, pins: Pins)
      requires Valid() && i < count
      modifies this`log, state, pulses, value
      ensures At(i) == Sample(old(At(i)), pins, resolutions[i])
      ensures forall j :: 0 <= j < count && j != i ==> At(j) == old(At(j))
    {
      state[i] := Wrap8(4 * (state[i] as int) + pins);
      EncoderUpdate(i);
    }

    /** Takes over the other half's counts, calling back for each turn in between. */
    method EncoderUpdateRaw(slave: seq<u8>)
      requires Valid() && |slave| == count
      modifies this`log, value
      ensures forall index :: 0 <= index < 2 * count ==>
        Count(index) ==
          if thatHand <= index < thatHand + count
          then (slave[index - thatHand], old(Count(index)).1 + Delta(slave[index - thatHand], old(Count(index)).0))
          else old(Count(index))
    {
      for i := 0 to count
        invariant forall index :: 0 <= index < 2 * count ==>
          Count(index) ==
            if thatHand <= index < thatHand + i
            then (slave[index - thatHand], old(Count(index)).1 + Delta(slave[index - thatHand], old(Count(index)).0))
            else old(Count(index))
      {
        TakeOver(i + thatHand, slave[i]);
      }
    }

    method TakeOver(index: nat, target: u8)
      requires Valid() && index < value.Length
      modifies this`log, value
      ensures Count(index) == (target, old(Count(index)).1 + Delta(target, old(Count(index)).0))
      ensures forall j :: 0 <= j < value.Length && j != index ==> Count(j) == old(Count(j))
    {
      var delta: int := Signed8(target - (value[index] as int));
      ghost var total := Net(log, index) + delta;
      while delta > 0
        invariant Wrap8(Count(index).0 + delta) == target && Count(index).1 + delta == total
        invariant forall j :: 0 <= j < value.Length && j != index ==> Count(j) == old(Count(j))
      {
        CountOn(Count(index).0, 1, delta);
        delta := delta - 1;
        Turn(index, true);
      }
      while delta < 0
        invariant delta <= 0 && Wrap8(Count(index).0 + delta) == target && Count(index).1 + delta == total
        invariant forall j :: 0 <= j < value.Length && j != index ==> Count(j) == old(Count(j))
        decreases -delta
      {
        CountOn(Count(index).0, -1, delta);
        delta := delta + 1;
        Turn(index, false);
      }
    }
  }

  lemma CountOn(value: u8, d: int, delta: int)
    ensures Wrap8(Wrap8(value + d) + (delta - d)) == Wrap8(value + delta)
  {
  }
}
