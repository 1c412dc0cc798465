/**
  Two macros recorded from opposite ends of one buffer.  `MacroModel` says what the
  commands mean for two independent event lists; the class shares one array between them.
*/
module MacroModel {
  import opened KeyRecords

  datatype Keycode = RecStart1 | RecStart2 | RecStop | Play1 | Play2 | Other

  datatype Input = Input(keycode: Keycode, record: Record)

  /** Slot 1 or 2. */
  type Slot = n: int | 1 <= n <= 2 witness 1

  /** While one macro is being recorded its earlier contents are gone; the other is kept. */
  datatype Macros =
    | Idle(first: seq<Record>, second: seq<Record>)
    | Recording(slot: Slot, current: seq<Record>, kept: seq<Record>)

  function Content(m: Macros, slot: Slot): seq<Record>
    requires m.Idle?
  {
    if slot == 1 then m.first else m.second
  }

  function Opposite(slot: Slot): Slot { 3 - slot }

  /** Drops the keys still held when the recording stops. */
  function Trim(rs: seq<Record>): (t: seq<Record>)
    ensures t <= rs
    ensures t == [] || !t[|t| - 1].event.pressed
    ensures forall i :: |t| <= i < |rs| ==> rs[i].event.pressed
  {
    if rs != [] && rs[|rs| - 1].event.pressed then Trim(rs[..|rs| - 1]) else rs
  }

  lemma TrimSnoc(rs: seq<Record>, r: Record)
    ensures Trim(rs + [r]) == if r.event.pressed then Trim(rs) else rs + [r]
  {
    assert (rs + [r])[..|rs|] == rs;
  }

  /** Recording skips leading releases and stops at the edge of the other macro. */
  function Append(size: nat, m: Macros, r: Record): Macros
    requires m.Recording?
  {
    if !r.event.pressed && m.current == [] then m
    else if |m.current| + |m.kept| < size then m.(current := m.current + [r])
    else m
  }

  function Stop(m: Macros): Macros
    requires m.Recording?
  {
    if m.slot == 1 then Idle(Trim(m.current), m.kept) else Idle(m.kept, Trim(m.current))
  }

  function Start(m: Macros, slot: Slot): Macros
    requires m.Idle?
  {
    Recording(slot, [], Content(m, Opposite(slot)))
  }

  function Step(size: nat, m: Macros, input: Input): Macros {
    var pressed := input.record.event.pressed;
    match m
    case Idle(_, _) =>
      if input.keycode.RecStart1? && !pressed then Start(m, 1)
      else if input.keycode.RecStart2? && !pressed then Start(m, 2)
      else m
    case Recording(_, _, _) =>
      match input.keycode
      case RecStop => if pressed then Stop(m) else m
      case Play1 => m
      case Play2 => m
      case _ => Append(size, m, input.record)
  }

  datatype Output = ClearKeyboard | LayerClear | Process(record: Record)

  function Processed(rs: seq<Record>): (out: seq<Output>)
    ensures |out| == |rs|
  {
    seq(|rs|, i requires 0 <= i < |rs| => Process(rs[i]))
  }

  /** The keyboard is cleared, the records are processed one after another, and it is cleared again. */
  predicate Plays(macro: seq<Record>, out: seq<Output>) {
    && |out| == |macro| + 3
    && out[0] == ClearKeyboard && out[1] == LayerClear && out[|macro| + 2] == ClearKeyboard
    && forall i :: 0 <= i < |macro| ==> out[2 + i] == Process(macro[i])
  }

  function Playback(macro: seq<Record>): seq<Output> {
    [ClearKeyboard, LayerClear] + Processed(macro) + [ClearKeyboard]
  }

  lemma PlaybackPlays(macro: seq<Record>)
    ensures Plays(macro, Playback(macro))
  {
  }

  lemma PlaybackAdded(was: seq<Output>, now: seq<Output>, macro: seq<Record>)
    requires now == was + Playback(macro)
    ensures Plays(macro, now[|was|..])
  {
    PlaybackPlays(macro);
    assert now[|was|..] == Playback(macro);
  }

  lemma ProcessedMore(macro: seq<Record>, n: nat, was: seq<Output>)
    requires n < |macro|
    ensures was + Processed(macro[..n + 1]) == was + Processed(macro[..n]) + [Process(macro[n])]
  {
    assert Processed(macro[..n + 1]) == Processed(macro[..n]) + [Process(macro[n])];
  }

  lemma PlaybackEnds(was: seq<Output>, macro: seq<Record>, n: nat)
    requires n == |macro|
    ensures was + [ClearKeyboard, LayerClear] + Processed(macro[..n]) + [ClearKeyboard] == was + Playback(macro)
  {
    assert macro[..n] == macro;
  }

  /** What a command makes the keyboard do. */
  function Emitted(m: Macros, input: Input): seq<Output> {
    if m.Recording? || input.record.event.pressed then []
    else
      match input.keycode
      case RecStart1 => [ClearKeyboard, LayerClear]
      case RecStart2 => [ClearKeyboard, LayerClear]
      case Play1 => Playback(m.first)
      case Play2 => Playback(m.second)
      case _ => []
  }

  /** Whether the key goes on to be processed as usual. */
  predicate Further(m: Macros, input: Input) {
    if m.Recording? then !(input.keycode.RecStop? || input.keycode.Play1? || input.keycode.Play2?)
    else input.record.event.pressed || input.keycode.RecStop? || input.keycode.Other?
  }

  function Run(size: nat, m: Macros, inputs: seq<Input>): Macros {
    if inputs == [] then m
    else Step(size, Run(size, m, inputs[..|inputs| - 1]), inputs[|inputs| - 1])
  }

  // ---------- Laws ----------

  /** A key goes on to be processed if it is recorded, and otherwise unless it has made the keyboard do something. */
  lemma KeysGoOn(m: Macros, input: Input)
    ensures m.Recording? ==> (Further(m, input) <==> Offered([input]) == [input.record])
    ensures m.Idle? ==> (Further(m, input) <==> Emitted(m, input) == [])
  {
    assert [input][..0] == [];
    assert Offered([input]) == [] || Offered([input]) == [input.record];
    var rs := if m.Recording? then [] else if input.keycode.Play1? then m.first else m.second;
    assert Playback(rs) != [];
  }

  /** A saved macro is empty, or starts with a press and ends with a release. */
  predicate Saved(rs: seq<Record>) {
    rs != [] ==> rs[0].event.pressed && !rs[|rs| - 1].event.pressed
  }

  predicate Sound(size: nat, m: Macros) {
    match m
    case Idle(first, second) => Saved(first) && Saved(second) && |first| + |second| <= size
    case Recording(_, current, kept) =>
      Saved(kept) && |current| + |kept| <= size && (current != [] ==> current[0].event.pressed)
  }

  lemma StepSound(size: nat, m: Macros, input: Input)
    requires Sound(size, m)
    ensures Sound(size, Step(size, m, input))
  {
  }

  /** Over every run both macros fit the buffer together and are well bracketed. */
  lemma {:induction false} RunSound(size: nat, m: Macros, inputs: seq<Input>)
    requires Sound(size, m)
    ensures Sound(size, Run(size, m, inputs))
  {
    if inputs != [] {
      RunSound(size, m, inputs[..|inputs| - 1]);
      StepSound(size, Run(size, m, inputs[..|inputs| - 1]), inputs[|inputs| - 1]);
    }
  }

  lemma {:induction false} RunSplits(size: nat, m: Macros, a: seq<Input>, b: seq<Input>)
    ensures Run(size, m, a + b) == Run(size, Run(size, m, a), b)
  {
    if b == [] {
      assert a + b == a;
    } else {
      assert (a + b)[..|a + b| - 1] == a + b[..|b| - 1];
      RunSplits(size, m, a, b[..|b| - 1]);
    }
  }

  predicate IsStop(input: Input) {
    input.keycode.RecStop? && input.record.event.pressed
  }

  predicate IsStart(input: Input, slot: Slot) {
    (if slot == 1 then input.keycode.RecStart1? else input.keycode.RecStart2?) && !input.record.event.pressed
  }

  /** The records among the inputs that a recording is offered. */
  function Offered(inputs: seq<Input>): seq<Record> {
    if inputs == [] then []
    else
      var last := inputs[|inputs| - 1];
      Offered(inputs[..|inputs| - 1]) +
      if last.keycode.RecStop? || last.keycode.Play1? || last.keycode.Play2? then [] else [last.record]
  }

  function DropLeadingReleases(rs: seq<Record>): seq<Record> {
    if rs != [] && !rs[0].event.pressed then DropLeadingReleases(rs[1..]) else rs
  }

  /** What is left begins with a press, and only releases are gone. */
  lemma {:induction false} LeadingDropped(rs: seq<Record>)
    ensures var t := DropLeadingReleases(rs);
            && (t == [] || t[0].event.pressed)
            && |t| <= |rs| && t == rs[|rs| - |t|..]
            && forall i :: 0 <= i < |rs| - |t| ==> !rs[i].event.pressed
  {
    if rs != [] && !rs[0].event.pressed {
      LeadingDropped(rs[1..]);
      var t := DropLeadingReleases(rs[1..]);
      forall i | 0 <= i < |rs| - |t|
        ensures !rs[i].event.pressed
      {
        assert i > 0 ==> rs[i] == rs[1..][i - 1];
      }
    }
  }

  function Take(rs: seq<Record>, n: nat): seq<Record> {
    if |rs| <= n then rs else rs[..n]
  }

  lemma {:induction false} DropLeadingSnoc(rs: seq<Record>, r: Record)
    ensures DropLeadingReleases(rs + [r])
         == if DropLeadingReleases(rs) == [] && !r.event.pressed then [] else DropLeadingReleases(rs) + [r]
  {
    if rs == [] {
      assert rs + [r] == [r] && [] + [r] == [r];
    } else if !rs[0].event.pressed {
      assert (rs + [r])[1..] == rs[1..] + [r];
      DropLeadingSnoc(rs[1..], r);
    }
  }

  lemma {:induction false} RecordingAccumulates(size: nat, m: Macros, body: seq<Input>)
    requires m.Recording? && m.current == [] && |m.kept| <= size
    requires forall input <- body :: !IsStop(input)
    ensures Run(size, m, body)
         == m.(current := Take(DropLeadingReleases(Offered(body)), size - |m.kept|))
  {
    if body != [] {
      var before, last := body[..|body| - 1], body[|body| - 1];
      assert last in body && forall input <- before :: input in body;
      RecordingAccumulates(size, m, before);
      var kept := DropLeadingReleases(Offered(before));
      DropLeadingSnoc(Offered(before), last.record);
      assert Offered(before) + [] == Offered(before);
      TakeMore(kept, last.record, size - |m.kept|);
    }
  }

  /** Up to the edge, and then no further. */
  lemma TakeMore(rs: seq<Record>, r: Record, room: nat)
    ensures Take(rs + [r], room) == if |rs| < room then Take(rs, room) + [r] else Take(rs, room)
  {
  }

  /** What a recording of `body` leaves in a slot beside a macro of length `kept`. */
  function Recorded(size: nat, body: seq<Input>, kept: nat): seq<Record>
    requires kept <= size
  {
    Trim(Take(DropLeadingReleases(Offered(body)), size - kept))
  }

  /** A slot's recording never begins in the run. */
  predicate NeverStarts(size: nat, m: Macros, inputs: seq<Input>, slot: Slot) {
    inputs == [] ||
    var before, last := inputs[..|inputs| - 1], inputs[|inputs| - 1];
    NeverStarts(size, m, before, slot) && !(Run(size, m, before).Idle? && IsStart(last, slot))
  }

  /** A slot holds the given macro: saved while idle, or kept while the other is recorded. */
  predicate Holds(m: Macros, slot: Slot, macro: seq<Record>) {
    if m.Idle? then Content(m, slot) == macro else m.slot != slot && m.kept == macro
  }

  /** Nothing but recording a slot changes what it plays. */
  lemma {:induction false} Isolation(size: nat, m: Macros, inputs: seq<Input>, slot: Slot, macro: seq<Record>)
    requires Holds(m, slot, macro) && NeverStarts(size, m, inputs, slot)
    ensures Holds(Run(size, m, inputs), slot, macro)
  {
    if inputs != [] {
      Isolation(size, m, inputs[..|inputs| - 1], slot, macro);
    }
  }

  lemma WhileRecording(size: nat, m: Macros, slot: Slot, start: Input, body: seq<Input>)
    requires m.Idle? && Sound(size, m)
    requires IsStart(start, slot) && forall input <- body :: !IsStop(input)
    ensures var kept := Content(m, Opposite(slot));
            |kept| <= size
            && Run(size, m, [start] + body) == Start(m, slot).(current := Take(DropLeadingReleases(Offered(body)), size - |kept|))
  {
    var recording := Start(m, slot);
    assert [start][..0] == [];
    assert Run(size, m, [start]) == recording;
    RunSplits(size, m, [start], body);
    RecordingAccumulates(size, recording, body);
  }

  lemma Stopped(size: nat, m: Macros, slot: Slot, start: Input, body: seq<Input>, stop: Input)
    requires m.Idle? && Sound(size, m)
    requires IsStart(start, slot) && IsStop(stop) && forall input <- body :: !IsStop(input)
    ensures Holds(Run(size, m, [start] + body + [stop]), slot, Recorded(size, body, |Content(m, Opposite(slot))|))
  {
    WhileRecording(size, m, slot, start, body);
    assert ([start] + body + [stop])[..|body| + 1] == [start] + body;
  }

  predicate IsPlay(input: Input, slot: Slot) {
    input.keycode == (if slot == 1 then Play1 else Play2) && !input.record.event.pressed
  }

  lemma HeldPlays(m: Macros, slot: Slot, macro: seq<Record>, play: Input)
    requires Holds(m, slot, macro) && m.Idle? && IsPlay(play, slot)
    ensures Plays(macro, Emitted(m, play))
  {
    PlaybackPlays(macro);
  }

  /**
    Round trip.  Whatever came before, recording a slot and stopping, and whatever follows
    that does not record the slot again, playing the slot plays what was recorded: leading
    releases dropped, cut off at the other macro's edge, trailing presses trimmed.
  */
  lemma RoundTrip(size: nat, m: Macros, slot: Slot, start: Input, body: seq<Input>, stop: Input, after: seq<Input>, play: Input)
    requires m.Idle? && Sound(size, m)
    requires IsStart(start, slot) && IsStop(stop) && forall input <- body :: !IsStop(input)
    requires NeverStarts(size, Run(size, m, [start] + body + [stop]), after, slot)
    ensures Holds(Run(size, m, [start] + body + [stop] + after), slot,
                  Recorded(size, body, |Content(m, Opposite(slot))|))
    ensures var end := Run(size, m, [start] + body + [stop] + after);
            end.Idle? && IsPlay(play, slot) ==> Plays(Recorded(size, body, |Content(m, Opposite(slot))|), Emitted(end, play))
  {
    Stopped(size, m, slot, start, body, stop);
    var stopped := Run(size, m, [start] + body + [stop]);
    RunSplits(size, m, [start] + body + [stop], after);
    var macro := Recorded(size, body, |Content(m, Opposite(slot))|);
    Isolation(size, stopped, after, slot, macro);
    var end := Run(size, m, [start] + body + [stop] + after);
    if end.Idle? && IsPlay(play, slot) {
      HeldPlays(end, slot, macro, play);
    }
  }
}

module DynamicMacro {
  import opened KeyRecords
  import opened Machine
  import opened MacroModel

  type Direction = d: int | d == 1 || d == -1 witness 1

  /** How many steps in `direction` lead from `start` to `end`. */
  function Steps(start: int, end: int, direction: Direction): int {
    if direction == 1 then end - start else start - end
  }

  /** The records met going from `start` to just before `end` in steps of `direction`. */
  function Segment(b: seq<Record>, start: int, end: int, direction: Direction): (s: seq<Record>)
    requires 0 <= Steps(start, end, direction)
    requires start != end ==> 0 <= start < |b| && 0 <= end - direction < |b|
    ensures |s| == Steps(start, end, direction)
    ensures forall i :: 0 <= i < |s| ==> s[i] == b[if direction == 1 then start + i else start - i]
  {
    seq(Steps(start, end, direction),
        i requires 0 <= i < Steps(start, end, direction) => b[if direction == 1 then start + i else start - i])
  }

  lemma SegmentLast(b: seq<Record>, start: int, end: int, direction: Direction)
    requires 0 < Steps(start, end, direction)
    requires 0 <= start < |b| && 0 <= end - direction < |b|
    ensures Segment(b, start, end, direction) == Segment(b, start, end - direction, direction) + [b[end - direction]]
  {
  }

  lemma TrimLast(b: seq<Record>, start: int, end: int, direction: Direction)
    requires 0 < Steps(start, end, direction)
    requires 0 <= start < |b| && 0 <= end - direction < |b|
    ensures Trim(Segment(b, start, end, direction))
         == if b[end - direction].event.pressed then Trim(Segment(b, start, end - direction, direction))
            else Segment(b, start, end, direction)
  {
    SegmentLast(b, start, end, direction);
    TrimSnoc(Segment(b, start, end - direction, direction), b[end - direction]);
  }

  class MacroRecorder {
    const buffer: array<Record>
    var macroEnd: int
    var rMacroEnd: int
    var macroPointer: int
    var macroId: int
    var layerState: u32
    var log: seq<Output>

    ghost predicate Valid()
      reads this, buffer
    {
      && 0 < buffer.Length
      && 0 <= macroEnd <= rMacroEnd + 1 <= buffer.Length
      && 0 <= macroId <= 2
      && (macroId == 1 ==> 0 <= macroPointer <= rMacroEnd + 1)
      && (macroId == 2 ==> macroEnd <= macroPointer + 1 <= buffer.Length)
    }

    ghost function View(): Macros
      requires Valid()
      reads this, buffer
    {
      var first := Segment(buffer[..], 0, macroEnd, 1);
      var second := Segment(buffer[..], buffer.Length - 1, rMacroEnd, -1);
      if macroId == 0 then Idle(first, second)
      else if macroId == 1 then Recording(1, Segment(buffer[..], 0, macroPointer, 1), second)
      else Recording(2, Segment(buffer[..], buffer.Length - 1, macroPointer, -1), first)
    }

    constructor (size: nat)
      requires size > 0
      ensures Valid() && fresh(buffer) && buffer.Length == size
      ensures View() == Idle([], []) && log == []
    {
      buffer := new Record[size](_ => NO_RECORD);
      macroEnd, rMacroEnd := 0, size - 1;
      macroPointer, macroId := 0, 0;
      layerState, log := 0, [];
    }

    /** Returns whether the key is to be processed further. */
    method ProcessRecordDynamicMacro(keycode: Keycode, record: Record, effect: (u32, Record) -> u32) returns (further: bool)
      requires Valid()
      modifies this, buffer
      ensures Valid()
      ensures View() == Step(buffer.Length, old(View()), Input(keycode, record))
      ensures log == old(log) + Emitted(old(View()), Input(keycode, record))
      ensures further == Further(old(View()), Input(keycode, record))
      ensures layerState == if old(View()).Idle? && View().Recording? then 0 else old(layerState)
    {
      if macroId == 0 {
        further := WhileIdle(keycode, record, effect);
      } else {
        further := WhileRecording(keycode, record);
      }
    }

    method WhileIdle(keycode: Keycode, record: Record, effect: (u32, Record) -> u32) returns (further: bool)
      requires Valid() && macroId == 0
      modifies this
      ensures Valid() && View() == Step(buffer.Length, old(View()), Input(keycode, record))
      ensures log == old(log) + Emitted(old(View()), Input(keycode, record))
      ensures further == Further(old(View()), Input(keycode, record))
      ensures layerState == if View().Recording? then 0 else old(layerState)
    {
      if !record.event.pressed {
        match keycode {
          case RecStart1 =>
            RecordStart(0);
            macroId := 1;
            return false;
          case RecStart2 =>
            RecordStart(buffer.Length - 1);
            macroId := 2;
            return false;
          case Play1 =>
            Play(0, macroEnd, 1, effect);
            return false;
          case Play2 =>
            Play(buffer.Length - 1, rMacroEnd, -1, effect);
            return false;
          case _ =>
        }
      }
      return true;
    }

    method WhileRecording(keycode: Keycode, record: Record) returns (further: bool)
      requires Valid() && macroId != 0
      modifies this`macroEnd, this`rMacroEnd, this`macroId, this`macroPointer, buffer
      ensures Valid() && View() == Step(buffer.Length, old(View()), Input(keycode, record))
      ensures further == Further(old(View()), Input(keycode, record))
    {
      match keycode {
        case RecStop =>
          if record.event.pressed {
            StopRecording();
          }
          return false;
        case Play1 =>
          return false;
        case Play2 =>
          return false;
        case _ =>
          Store(record);
          return true;
      }
    }

    method StopRecording()
      requires Valid() && macroId != 0
      modifies this`macroEnd, this`rMacroEnd, this`macroId
      ensures Valid() && View() == Stop(old(View()))
    {
      if macroId == 1 {
        macroEnd := RecordEnd(0, macroPointer, 1);
      } else {
        rMacroEnd := RecordEnd(buffer.Length - 1, macroPointer, -1);
      }
      macroId := 0;
    }

    method Store(record: Record)
      requires Valid() && macroId != 0
      modifies this`macroPointer, buffer
      ensures Valid() && View() == Append(buffer.Length, old(View()), record)
    {
      if macroId == 1 {
        RecordKey(0, rMacroEnd, 1, record);
      } else {
        RecordKey(buffer.Length - 1, macroEnd, -1, record);
      }
    }

    method RecordStart(start: int)
      modifies this`macroPointer, this`log, this`layerState
      ensures macroPointer == start && layerState == 0 && log == old(log) + [ClearKeyboard, LayerClear]
    {
      log := log + [ClearKeyboard, LayerClear];
      layerState := 0;
      macroPointer := start;
    }

    /** Plays the segment; layer changes made by its keys are undone at the end. */
    method Play(start: int, end: int, direction: Direction, effect: (u32, Record) -> u32)
      requires 0 <= Steps(start, end, direction)
      requires start != end ==> 0 <= start < buffer.Length && 0 <= end - direction < buffer.Length
      modifies this`layerState, this`log
      ensures layerState == old(layerState)
      ensures log == old(log) + Playback(Segment(buffer[..], start, end, direction))
      ensures Plays(Segment(buffer[..], start, end, direction), log[|old(log)|..])
    {
      var saved := layerState;
      log := log + [ClearKeyboard, LayerClear];
      layerState := 0;
      ghost var before := log;
      ghost var all := Segment(buffer[..], start, end, direction);
      var p := start;
      ghost var n := 0;
      while p != end
        invariant 0 <= n <= |all| && n == Steps(start, p, direction)
        invariant log == before + Processed(all[..n])
        decreases |all| - n
      {
        ProcessedMore(all, n, before);
        log := log + [Process(buffer[p])];
        layerState := effect(layerState, buffer[p]);
        p := p + direction;
        n := n + 1;
      }
      PlaybackEnds(old(log), all, n);
      log := log + [ClearKeyboard];
      layerState := saved;
      PlaybackAdded(old(log), log, all);
    }

    method RecordKey(start: int, macro2End: int, direction: Direction, record: Record)
      requires 0 <= start < buffer.Length
      requires 0 <= Steps(start, macroPointer, direction) <= Steps(start, macro2End, direction) + 1 <= buffer.Length
      requires macro2End != start - direction ==> 0 <= macro2End < buffer.Length
      modifies this`macroPointer, buffer
      ensures 0 <= Steps(start, macroPointer, direction) <= Steps(start, macro2End, direction) + 1
      ensures var room := Steps(start, macro2End, direction) + 1;
              var was := old(Segment(buffer[..], start, macroPointer, direction));
              Segment(buffer[..], start, macroPointer, direction)
              == if (!record.event.pressed && was == []) || |was| >= room then was else was + [record]
      ensures forall i :: 0 <= i < buffer.Length && Steps(macro2End, i, direction) > 0 ==> buffer[i] == old(buffer[i])
    {
      if !record.event.pressed && macroPointer == start {
        return;
      }
      if macroPointer - direction != macro2End {
        buffer[macroPointer] := record;
        macroPointer := macroPointer + direction;
      }
    }

    method RecordEnd(start: int, end: int, direction: Direction) returns (trimmed: int)
      requires 0 <= Steps(start, end, direction)
      requires start != end ==> 0 <= start < buffer.Length && 0 <= end - direction < buffer.Length
      ensures 0 <= Steps(start, trimmed, direction) <= Steps(start, end, direction)
      ensures Segment(buffer[..], start, trimmed, direction) == Trim(Segment(buffer[..], start, end, direction))
    {
      trimmed := end;
      ghost var b := buffer[..];
      ghost var result := Trim(Segment(b, start, end, direction));
      while trimmed != start && buffer[trimmed - direction].event.pressed
        invariant 0 <= Steps(start, trimmed, direction) <= Steps(start, end, direction)
        invariant start != trimmed ==> 0 <= trimmed - direction < |b|
        invariant Trim(Segment(b, start, trimmed, direction)) == result
        decreases Steps(start, trimmed, direction)
      {
        TrimLast(b, start, trimmed, direction);
        trimmed := trimmed - direction;
      }
      if trimmed != start {
        TrimLast(b, start, trimmed, direction);
      }
    }
  }
}
