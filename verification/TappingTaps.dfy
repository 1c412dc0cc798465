/** How consecutive taps of a key are counted, and when another key ends the count. */
module TappingTaps {
  import opened KeyRecords
  import opened Machine
  import opened TappingModel
  import opened TappingOrder
  import opened TappingProgress
  import opened TappingRules

  predicate IsTapOf(d: Dispatch, k: Key) {
    d.Direct? && d.record.event.key == k && d.record.event.pressed && d.record.tap.count > 0
  }

  /** The presses of a key dispatched as taps since it was last settled, which begins a series anew. */
  function Taps(log: seq<Dispatch>, k: Key): nat {
    if log == [] then 0
    else
      var before, d := log[..|log| - 1], log[|log| - 1];
      if d.Settled? && d.record.event.key == k then if d.record.tap.count > 0 then 1 else 0
      else if IsTapOf(d, k) then Taps(before, k) + 1
      else Taps(before, k)
  }

  /** The counter has four bits. */
  function Capped(n: nat): nat {
    if n < 15 then n else 15
  }

  /** No press has been dispatched since the last release of the key. */
  predicate Open(log: seq<Dispatch>, k: Key) {
    log != [] &&
    var before, d := log[..|log| - 1], log[|log| - 1];
    d.Direct? && if d.record.event.pressed then false else d.record.event.key == k || Open(before, k)
  }

  /** What a tap count says, where it is dispatched. */
  predicate Counted(before: seq<Dispatch>, d: Dispatch) {
    match d
    case Direct(r) =>
      && (r.tap.count > 1 ==> r.tap.count == Capped(Taps(before + [d], r.event.key)))
      && (r.event.pressed && r.tap.count > 0 ==> r.tap.count > 1 && Open(before, r.event.key))
    case Unregister(r) => r.tap.count == Capped(Taps(before, r.event.key))
    case _ => true
  }

  predicate AllCounted(log: seq<Dispatch>) {
    forall j :: 0 <= j < |log| ==> Counted(log[..j], log[j])
  }

  predicate Counts(s: State) {
    && AllCounted(s.log)
    && (IsTapping(s) && s.tapping.tap.count > 0 ==> s.tapping.tap.count == Capped(Taps(s.log, s.tapping.event.key)))
    && (IsTapping(s) && !s.tapping.event.pressed && !s.tapping.tap.interrupted ==> Open(s.log, s.tapping.event.key))
    && (forall r <- s.buf :: r.tap.count <= 1)
  }

  lemma TapsSnoc(log: seq<Dispatch>, d: Dispatch, k: Key)
    ensures Taps(log + [d], k) ==
              if d.Settled? && d.record.event.key == k then if d.record.tap.count > 0 then 1 else 0
              else if IsTapOf(d, k) then Taps(log, k) + 1
              else Taps(log, k)
  {
    assert (log + [d])[..|log|] == log;
  }

  lemma OpenSnoc(log: seq<Dispatch>, d: Dispatch, k: Key)
    ensures Open(log + [d], k) <==> d.Direct? && !d.record.event.pressed && (d.record.event.key == k || Open(log, k))
  {
    assert (log + [d])[..|log|] == log;
  }

  lemma CountedSnoc(log: seq<Dispatch>, d: Dispatch)
    requires AllCounted(log) && Counted(log, d)
    ensures AllCounted(log + [d])
  {
    forall j | 0 <= j < |log + [d]|
      ensures Counted((log + [d])[..j], (log + [d])[j])
    {
      assert (log + [d])[..j] == if j < |log| then log[..j] else log;
    }
  }

  lemma EmitCounted(log: seq<Dispatch>, d: Dispatch)
    requires AllCounted(log) && Counted(log, d) && !d.ClearKeyboard?
    ensures AllCounted(Emit(log, d))
    ensures !IsNoEvent(d.record.event) ==> Emit(log, d) == log + [d]
    ensures IsNoEvent(d.record.event) ==> Emit(log, d) == log
  {
    CountedSnoc(log, d);
  }

  /** An undecided key is settled by the release of its first tap, or becomes undecided again. */
  lemma SettleCounts(env: Env, s: State, t: Record, cause: Record)
    requires Counts(s) && IsPending(s) && t.event == s.tapping.event && t.tap.count == 1
    ensures Counts(s.(tapping := Settle(env, s.log, t, cause).0, log := Settle(env, s.log, t, cause).1))
  {
    var d := if Cancels(env, s.log, t) then Cancelled(t, cause, env.term) else Settled(t, cause, env.term);
    CountedSnoc(s.log, d);
    TapsSnoc(s.log, d, t.event.key);
  }

  lemma ScanCounts(env: Env, s: State)
    requires Counts(s)
    ensures Counts(ScanTap(env, s))
  {
    var i := FirstSettling(env.term, s.tapping, s.buf);
    if !(s.tapping.tap.count > 0 || !s.tapping.event.pressed || i == |s.buf|) {
      SettleCounts(env, s, s.tapping.(tap := s.tapping.tap.(count := 1)), s.buf[i]);
    }
  }

  /** What examining a record keeps. */
  predicate KeepsCounts(o: Outcome) {
    Counts(o.state) && (!o.done ==> o.record.tap.count <= 1)
  }

  lemma StartTapCounts(env: Env, s: State, r: Record)
    requires Counts(s) && r.event.pressed && r.tap == NO_TAP
    ensures KeepsCounts(StartTap(env, s, r))
  {
    ScanCounts(env, s.(tapping := r));
  }

  /** A record without a further tap's count leaves every count as it is, and a press ends the window. */
  lemma PlainCounts(s: State, t: Record, r: Record)
    requires Counts(s) && r.tap.count <= 1 && Fresh(r)
    requires t.event == s.tapping.event && t.tap.count == s.tapping.tap.count
    requires IsTapping(s) && !t.event.pressed && !t.tap.interrupted ==> !s.tapping.tap.interrupted && !r.event.pressed
    ensures KeepsCounts(Dispatched(s.(tapping := t), r))
  {
    var d := Direct(r);
    EmitCounted(s.log, d);
    TapsSnoc(s.log, d, t.event.key);
    OpenSnoc(s.log, d, t.event.key);
  }

  lemma WhilePendingCounts(env: Env, s: State, r: Record)
    requires Counts(s) && Fresh(r) && r.tap.count <= 1 && IsPending(s)
    ensures KeepsCounts(WhilePending(env, s, r))
  {
    var t := s.tapping;
    if !Within(env.term, t, r.event) {
      EmitCounted(s.log, Settled(t, r, env.term));
    } else if IsTappingRecord(t, r) && !r.event.pressed {
      SettleCounts(env, s, t.(tap := t.tap.(count := 1)), r);
    } else if IsReleased(r.event) && !Typed(s.buf, r.event) {
      PlainCounts(s, t, r);
    }
  }

  /** The release of a tapped key carries the count of its press. */
  lemma ReleaseCounts(s: State, r: Record, closed: bool)
    requires Counts(s) && IsTapping(s) && s.tapping.tap.count > 0
    requires r.event.key == s.tapping.event.key && !r.event.pressed && r.tap == s.tapping.tap
    ensures KeepsCounts(Dispatched(s.(tapping := if closed then NO_RECORD else r), r))
  {
    var d := Direct(r);
    TapsSnoc(s.log, d, r.event.key);
    OpenSnoc(s.log, d, r.event.key);
    EmitCounted(s.log, d);
  }

  lemma FurtherCounts(s: State, r: Record)
    requires Counts(s) && IsTapping(s) && s.tapping.tap.count > 0 && !s.tapping.event.pressed && !s.tapping.tap.interrupted
    requires r.event.key == s.tapping.event.key && r.event.pressed && r.tap.count == Capped(s.tapping.tap.count + 1)
    ensures KeepsCounts(Dispatched(s.(tapping := r), r))
  {
    var d := Direct(r);
    TapsSnoc(s.log, d, r.event.key);
    EmitCounted(s.log, d);
  }

  lemma WhileTappedCounts(env: Env, s: State, r: Record)
    requires Counts(s) && Fresh(r) && r.tap.count <= 1
    requires IsTapping(s) && s.tapping.event.pressed && s.tapping.tap.count > 0
    ensures KeepsCounts(WhileTapped(env, s, r))
  {
    var t := s.tapping;
    if IsTappingRecord(t, r) && !r.event.pressed {
      ReleaseCounts(s, r.(tap := t.tap), !Within(env.term, t, r.event));
    } else if env.isTap(s.log, r.event.key) && r.event.pressed {
      var d := Unregister(Record(Event(t.event.key, false, r.event.time), t.tap));
      EmitCounted(s.log, d);
      TapsSnoc(s.log, d, t.event.key);
      StartTapCounts(env, if t.tap.count > 1 then s.(log := Emit(s.log, d)) else s, r);
    } else {
      PlainCounts(s, t, r);
    }
  }

  lemma AfterReleaseCounts(env: Env, s: State, r: Record)
    requires Counts(s) && Fresh(r) && r.tap.count <= 1
    requires IsTapping(s) && !s.tapping.event.pressed
    ensures KeepsCounts(AfterRelease(env, s, r))
  {
    var t := s.tapping;
    if !Within(env.term, t, r.event) {
    } else if !r.event.pressed {
      PlainCounts(s, t, r);
    } else if IsTappingRecord(t, r) {
      if !t.tap.interrupted && t.tap.count > 0 {
        FurtherCounts(s, r.(tap := if t.tap.count < 15 then t.tap.(count := t.tap.count + 1) else t.tap));
      }
    } else if env.isTap(s.log, r.event.key) {
      StartTapCounts(env, s, r);
    } else {
      PlainCounts(s, t.(tap := t.tap.(interrupted := true)), r);
    }
  }

  lemma ExamineCounts(env: Env, s: State, r: Record)
    requires Counts(s) && Fresh(r) && r.tap.count <= 1
    ensures KeepsCounts(ProcessTapping(env, s, r))
  {
    if IsPending(s) {
      WhilePendingCounts(env, s, r);
    } else if IsTapping(s) && s.tapping.event.pressed {
      WhileTappedCounts(env, s, r);
    } else if IsTapping(s) {
      AfterReleaseCounts(env, s, r);
    } else if r.event.pressed && env.isTap(s.log, r.event.key) {
      StartTapCounts(env, s, r);
    } else {
      PlainCounts(s, s.tapping, r);
    }
  }

  lemma {:induction false} DrainCounts(env: Env, s: State)
    requires WellFormed(s) && Counts(s)
    ensures Counts(Drain(env, s))
    decreases |s.buf|
  {
    if s.buf != [] {
      var o := ProcessTapping(env, s, s.buf[0]);
      ProcessTappingKeeps(env, s, s.buf[0]);
      ExamineCounts(env, s, s.buf[0]);
      if o.done {
        PopKeeps(s, o);
        EventsTail(o.state.buf);
        DrainCounts(env, o.state.(buf := o.state.buf[1..]));
      }
    }
  }

  lemma EnqueueCounts(s: State, r: Record)
    requires Counts(s) && r.tap.count <= 1
    ensures Counts(Enqueue(s, r))
  {
    CountedSnoc(s.log, ClearKeyboard(Lost(s, r)));
  }

  lemma StepCounts(s: State, input: Input)
    requires WellFormed(s) && Counts(s)
    ensures Counts(Step(s, input))
  {
    var r := Record(input.event, NO_TAP);
    var o := ProcessTapping(input.env, s, r);
    ProcessTappingKeeps(input.env, s, r);
    ExamineCounts(input.env, s, r);
    if !o.done {
      EnqueueCounts(o.state, o.record);
    }
    AdmitKeeps(s, input);
    DrainCounts(input.env, Admit(s, input));
  }

  /**
    Over every run: a tap count above one is the number of consecutive taps of the key, up to 15;
    a press dispatched at once with a count is a further tap, with no press since the last release of its key.
  */
  lemma {:induction false} TapCounts(inputs: seq<Input>)
    ensures Counts(Run(INITIAL, inputs))
  {
    if inputs != [] {
      var before := inputs[..|inputs| - 1];
      TapCounts(before);
      Conservation(before);
      StepCounts(Run(INITIAL, before), inputs[|inputs| - 1]);
    }
  }

  // ---------- What goes out at once ----------

  /** With no undecided press, an event goes out at once unless it is the press of a tap key. */
  lemma OtherAtOnce(s: State, input: Input)
    requires !IsPending(s) && !IsNoEvent(input.event) && !WindowOver(s, input)
    requires IsTapping(s) ==> input.event.key != s.tapping.event.key
    ensures Starts(s, Step(s, input), Direct(Record(input.event, NO_TAP)))
       <==> !(input.event.pressed && input.env.isTap(s.log, input.event.key))
  {
    var r := Record(input.event, NO_TAP);
    StepFrom(s, input);
    if input.event.pressed && input.env.isTap(s.log, input.event.key) {
      TapNotAtOnce(s, input);
    } else {
      StartsWith(s, Admit(s, input), Step(s, input), Direct(r));
    }
  }

  predicate WindowOver(s: State, input: Input) {
    IsTapping(s) && !s.tapping.event.pressed && !Within(input.env.term, s.tapping, input.event)
  }

  /** The press of a tap key is not dispatched by the call it arrives in, unless its release was already waiting. */
  lemma TapNotAtOnce(s: State, input: Input)
    requires !IsPending(s) && !IsNoEvent(input.event) && !WindowOver(s, input)
    requires input.event.pressed && input.env.isTap(s.log, input.event.key)
    requires IsTapping(s) ==> input.event.key != s.tapping.event.key
    ensures !Starts(s, Step(s, input), Direct(Record(input.event, NO_TAP)))
  {
    var r := Record(input.event, NO_TAP);
    var a := Admit(s, input);
    StartsAt(s, Step(s, input), Direct(r));
    StepFrom(s, input);
    if a.log == s.log {
      assert IsPending(a);
      DrainWaits(input.env, a);
      FirstWaits(a, Step(s, input), input.env, r);
    } else {
      assert a.log[|s.log|].Settled? || a.log[|s.log|].Cancelled? || a.log[|s.log|].Unregister?;
    }
  }

  /** The release of a tapped key goes out at once with the tap of its press, and opens a window only within the term. */
  lemma ReleaseAtOnce(s: State, input: Input)
    requires IsTapping(s) && s.tapping.event.pressed && s.tapping.tap.count > 0
    requires IsReleased(input.event) && input.event.key == s.tapping.event.key
    ensures Starts(s, Step(s, input), Direct(Record(input.event, s.tapping.tap)))
    ensures s.buf == [] ==> (IsTapping(Step(s, input)) <==> Within(input.env.term, s.tapping, input.event))
  {
    StepFrom(s, input);
    StartsWith(s, Admit(s, input), Step(s, input), Direct(Record(input.event, s.tapping.tap)));
  }

  /** A press within the window is a further tap of the key, at once, if and only if nothing has interrupted it. */
  lemma FurtherTap(s: State, input: Input)
    requires IsTapping(s) && !s.tapping.event.pressed && s.tapping.tap.count > 0 && !WindowOver(s, input)
    requires !IsNoEvent(input.event) && input.event.pressed && input.event.key == s.tapping.event.key
    ensures Starts(s, Step(s, input), Direct(Record(input.event, s.tapping.tap.(count := Capped(s.tapping.tap.count + 1)))))
       <==> !s.tapping.tap.interrupted
  {
    var d := Direct(Record(input.event, s.tapping.tap.(count := Capped(s.tapping.tap.count + 1))));
    var a := Admit(s, input);
    StepFrom(s, input);
    if s.tapping.tap.interrupted {
      DrainWaits(input.env, a);
      FirstWaits(a, Step(s, input), input.env, d.record);
    } else {
      StartsWith(s, a, Step(s, input), d);
    }
  }

  /** Another tap key pressed while a tapped key is held releases it if and only if it was tapped more than once. */
  lemma NewTapReleases(s: State, input: Input)
    requires IsTapping(s) && s.tapping.event.pressed && s.tapping.tap.count > 0
    requires !IsNoEvent(input.event) && input.event.pressed && input.env.isTap(s.log, input.event.key)
    ensures Starts(s, Step(s, input), Unregister(Record(Event(s.tapping.event.key, false, input.event.time), s.tapping.tap)))
       <==> s.tapping.tap.count > 1
  {
    var t := s.tapping;
    var d := Unregister(Record(Event(t.event.key, false, input.event.time), t.tap));
    var a := Admit(s, input);
    StepFrom(s, input);
    StartsAt(s, Step(s, input), d);
    if t.tap.count > 1 {
      ScanGrows(input.env, s.(log := s.log + [d], tapping := Record(input.event, NO_TAP)));
    } else if a.log == s.log {
      DrainWaits(input.env, a);
      assert !DecidedIn(Step(s, input).log, |s.log|, |s.log|, a.tapping);
    } else {
      assert a.log[|s.log|].Settled?;
    }
  }

  // ---------- Taps in quick succession ----------

  /** Presses and releases of one tap key, each within the term of the one before. */
  predicate Quick(log: seq<Dispatch>, inputs: seq<Input>, k: Key) {
    && (inputs != [] ==> inputs[0].env.isTap(log, k))
    && (forall i :: 0 <= i < |inputs| ==> QuickEvent(inputs, i, k))
    && (forall i :: 0 < i < |inputs| ==> Wrap16(inputs[i].event.time - inputs[i - 1].event.time) < inputs[i].env.term)
  }

  predicate QuickEvent(inputs: seq<Input>, i: nat, k: Key)
    requires i < |inputs|
  {
    !IsNoEvent(inputs[i].event) && inputs[i].event.key == k && (inputs[i].event.pressed <==> i % 2 == 0)
  }

  /** The record of the i-th event, with the number of the tap that it belongs to. */
  function TapRecord(inputs: seq<Input>, i: nat): Record
    requires i < |inputs|
  {
    Record(inputs[i].event, Tap(false, Capped(i / 2 + 1)))
  }

  /** Nothing but the taps, in order: the first press settled by its release, the others at once. */
  predicate TapsDispatched(s: State, s': State, inputs: seq<Input>) {
    && |s'.log| == |s.log| + |inputs| && s.log <= s'.log
    && (|inputs| > 1 ==> s'.log[|s.log|] == Settled(TapRecord(inputs, 0), Record(inputs[1].event, NO_TAP), inputs[1].env.term))
    && (forall i :: 1 <= i < |inputs| ==> s'.log[|s.log| + i] == Direct(TapRecord(inputs, i)))
  }

  predicate Idle(s: State) {
    !IsTapping(s) && s.buf == []
  }

  lemma FirstPress(s: State, input: Input)
    requires Idle(s) && !IsNoEvent(input.event) && input.event.pressed && input.env.isTap(s.log, input.event.key)
    ensures Step(s, input) == s.(tapping := Record(input.event, NO_TAP))
  {
  }

  lemma FirstRelease(s: State, input: Input)
    requires IsPending(s) && s.buf == [] && !s.tapping.tap.interrupted && !IsNoEvent(input.event)
    requires Settles(input.env.term, s.tapping, Record(input.event, NO_TAP))
    ensures var tap := Tap(false, 1);
            Step(s, input) == State(Record(input.event, tap), [],
              s.log + [Settled(s.tapping.(tap := tap), Record(input.event, NO_TAP), input.env.term)] + [Direct(Record(input.event, tap))])
  {
    var tap := Tap(false, 1);
    var t, r := s.tapping.(tap := tap), Record(input.event, NO_TAP);
    var a := State(t, [r.(tap := tap)], s.log + [Settled(t, r, input.env.term)]);
    assert Admit(s, input) == a;
    var b := State(r.(tap := tap), a.buf, a.log + [Direct(r.(tap := tap))]);
    assert ProcessTapping(input.env, a, r.(tap := tap)) == Outcome(true, b, r.(tap := tap));
    assert a.buf[1..] == [];
    assert Drain(input.env, b.(buf := [])) == b.(buf := []);
  }

  lemma NextTapEvent(s: State, input: Input, tap: Tap)
    requires IsTapping(s) && s.buf == [] && s.tapping.tap.count > 0 && !s.tapping.tap.interrupted && !IsNoEvent(input.event)
    requires input.event.key == s.tapping.event.key && Within(input.env.term, s.tapping, input.event)
    requires input.event.pressed != s.tapping.event.pressed
    requires tap == if input.event.pressed then s.tapping.tap.(count := Capped(s.tapping.tap.count + 1)) else s.tapping.tap
    ensures Step(s, input) == State(Record(input.event, tap), [], s.log + [Direct(Record(input.event, tap))])
  {
  }

  lemma QuickPrefix(log: seq<Dispatch>, inputs: seq<Input>, k: Key, n: nat)
    requires Quick(log, inputs, k) && n <= |inputs|
    ensures Quick(log, inputs[..n], k)
  {
    var before := inputs[..n];
    forall i | 0 <= i < n
      ensures QuickEvent(before, i, k)
    {
      assert QuickEvent(inputs, i, k);
    }
  }

  predicate TapsGoOn(s: State, s': State, inputs: seq<Input>) {
    && s'.buf == []
    && (|inputs| == 0 ==> s' == s)
    && (|inputs| == 1 ==> s' == s.(tapping := Record(inputs[0].event, NO_TAP)))
    && (|inputs| > 1 ==> s'.tapping == TapRecord(inputs, |inputs| - 1) && TapsDispatched(s, s', inputs))
  }

  lemma SecondQuick(s: State, m: State, inputs: seq<Input>, k: Key)
    requires Idle(s) && Quick(s.log, inputs, k) && |inputs| == 2
    requires m == s.(tapping := Record(inputs[0].event, NO_TAP))
    ensures TapsGoOn(s, Step(m, inputs[1]), inputs)
  {
    assert QuickEvent(inputs, 0, k) && QuickEvent(inputs, 1, k);
    FirstRelease(m, inputs[1]);
  }

  lemma NextQuick(s: State, m: State, inputs: seq<Input>, k: Key, n: nat)
    requires Quick(s.log, inputs, k) && |inputs| == n + 1 && n > 1
    requires TapsGoOn(s, m, inputs[..n])
    ensures Step(m, inputs[n]) == State(TapRecord(inputs, n), [], m.log + [Direct(TapRecord(inputs, n))])
  {
    assert QuickEvent(inputs, n, k) && QuickEvent(inputs, n - 1, k);
    NextTapEvent(m, inputs[n], Tap(false, Capped(n / 2 + 1)));
  }

  lemma OneMoreTap(s: State, m: State, s': State, inputs: seq<Input>, n: nat)
    requires |inputs| == n + 1 && n > 1
    requires TapsGoOn(s, m, inputs[..n])
    requires s' == State(TapRecord(inputs, n), [], m.log + [Direct(TapRecord(inputs, n))])
    ensures TapsGoOn(s, s', inputs)
  {
    assert forall i :: 0 <= i < n ==> TapRecord(inputs[..n], i) == TapRecord(inputs, i);
  }

  /**
    From an idle state, quick taps of a tap key: the first press waits for its release, and then all
    are dispatched one by one, numbered from 1 and capped at 15.
  */
  lemma {:induction false} QuickTaps(s: State, inputs: seq<Input>, k: Key)
    requires Idle(s) && Quick(s.log, inputs, k)
    ensures TapsGoOn(s, Run(s, inputs), inputs)
  {
    if inputs != [] {
      var n := |inputs| - 1;
      QuickPrefix(s.log, inputs, k, n);
      QuickTaps(s, inputs[..n], k);
      if n == 0 {
        assert QuickEvent(inputs, 0, k);
        FirstPress(s, inputs[0]);
      } else if n == 1 {
        SecondQuick(s, Run(s, inputs[..n]), inputs, k);
      } else {
        NextQuick(s, Run(s, inputs[..n]), inputs, k, n);
        OneMoreTap(s, Run(s, inputs[..n]), Run(s, inputs), inputs, n);
      }
    }
  }

  // ---------- Only presses interrupt ----------

  predicate Uninterrupted(d: Dispatch) {
    d.Settled? || d.Cancelled? || d.Direct? ==> !d.record.tap.interrupted
  }

  /** No press waits, and nothing has been interrupted. */
  predicate Quiet(s: State) {
    !s.tapping.tap.interrupted && forall r <- s.buf :: !r.event.pressed && !r.tap.interrupted
  }

  /** From `s` to `s'` nothing has been interrupted. */
  predicate StaysQuiet(s: State, s': State) {
    Quiet(s') && s.log <= s'.log && forall j :: |s.log| <= j < |s'.log| ==> Uninterrupted(s'.log[j])
  }

  lemma QuietExamined(env: Env, s: State, r: Record)
    requires Quiet(s) && !r.event.pressed && !r.tap.interrupted
    ensures var o := ProcessTapping(env, s, r);
            StaysQuiet(s, o.state) && o.state.buf == s.buf && o.record.event == r.event && !o.record.tap.interrupted
  {
  }

  lemma QuietOn(s: State, m: State, s': State)
    requires StaysQuiet(s, m) && StaysQuiet(m, s')
    ensures StaysQuiet(s, s')
  {
    assert forall j :: |s.log| <= j < |m.log| ==> s'.log[j] == m.log[j];
  }

  lemma {:induction false} DrainQuiet(env: Env, s: State)
    requires Quiet(s)
    ensures StaysQuiet(s, Drain(env, s))
    decreases |s.buf|
  {
    if s.buf != [] {
      var o := ProcessTapping(env, s, s.buf[0]);
      QuietExamined(env, s, s.buf[0]);
      if o.done {
        var m := o.state.(buf := o.state.buf[1..]);
        assert forall r <- m.buf :: r in s.buf;
        DrainQuiet(env, m);
        QuietOn(s, m, Drain(env, m));
      }
    }
  }

  lemma StepQuiet(s: State, input: Input)
    requires Quiet(s) && !input.event.pressed
    ensures StaysQuiet(s, Step(s, input))
  {
    QuietExamined(input.env, s, Record(input.event, NO_TAP));
    DrainQuiet(input.env, Admit(s, input));
    QuietOn(s, Admit(s, input), Step(s, input));
  }

  /** Over every run of ticks and releases, with no press waiting, what is dispatched has not been interrupted. */
  lemma {:induction false} OnlyPressesInterrupt(s: State, inputs: seq<Input>)
    requires Quiet(s) && forall i :: 0 <= i < |inputs| ==> !inputs[i].event.pressed
    ensures StaysQuiet(s, Run(s, inputs))
  {
    if inputs != [] {
      var n := |inputs| - 1;
      OnlyPressesInterrupt(s, inputs[..n]);
      StepQuiet(Run(s, inputs[..n]), inputs[n]);
      QuietOn(s, Run(s, inputs[..n]), Run(s, inputs));
    }
  }

  // ---------- Rolling over from one tap key to another ----------

  /** `p` is the press of a tap key, `x` that of another one, and `r` the release of the first, in time for both. */
  ghost predicate Rolled(env: Env, p: Record, x: Record, r: Record) {
    && (forall log :: env.isTap(log, p.event.key) && env.isTap(log, x.event.key)) && (forall log, d :: !env.retains(log, d))
    && p.event.pressed && x.event.pressed && IsReleased(r.event) && !IsNoEvent(p.event) && !IsNoEvent(x.event)
    && p.tap == x.tap == r.tap == NO_TAP && x.event.key != p.event.key
    && Settles(env.term, p, r) && Within(env.term, x, r.event)
  }

  /**
    Both presses have waited for another key, which is held in the end.  The release of the first goes
    out as that of a tap, as its press did, although the other key is undecided by then.
  */
  lemma RolledTap(s: State, tick: Input, p: Record, x: Record, r: Record)
    requires IsPending(s) && s.buf == [p, x, r] && IsTick(tick.event) && Late(s, tick) && Rolled(tick.env, p, x, r)
    ensures var tap, term := Tap(false, 1), tick.env.term;
            Step(s, tick) == State(x, [], s.log + [Settled(s.tapping, Record(tick.event, NO_TAP), term)]
              + [Settled(p.(tap := tap), r, term)] + [Direct(r.(tap := tap))])
  {
    var env, tap, term := tick.env, Tap(false, 1), tick.env.term;
    var a := State(NO_RECORD, [p, x, r], s.log + [Settled(s.tapping, Record(tick.event, NO_TAP), term)]);
    assert Admit(s, tick) == a;
    var b := State(p.(tap := tap), [p, x, r.(tap := tap)], a.log + [Settled(p.(tap := tap), r, term)]);
    RollScans(env, a, p, x, r, b);
    assert ProcessTapping(env, a, p) == Outcome(true, b, p);
    var c := b.(buf := [x, r.(tap := tap)]);
    assert b.buf[1..] == c.buf;
    RollStarts(env, c, p, x, r.(tap := tap));
    var d := c.(tapping := x, buf := [r.(tap := tap)]);
    assert c.buf[1..] == d.buf;
    var e := d.(log := d.log + [Direct(r.(tap := tap))]);
    assert ProcessTapping(env, d, r.(tap := tap)) == Outcome(true, e, r.(tap := tap));
    assert d.buf[1..] == [];
    assert Drain(env, d) == Drain(env, e.(buf := []));
    assert Drain(env, c) == Drain(env, d);
  }

  lemma RollScans(env: Env, a: State, p: Record, x: Record, r: Record, b: State)
    requires Rolled(env, p, x, r) && a.buf == [p, x, r]
    requires var tap := Tap(false, 1);
             b == State(p.(tap := tap), [p, x, r.(tap := tap)], a.log + [Settled(p.(tap := tap), r, env.term)])
    ensures ScanTap(env, a.(tapping := p)) == b
  {
    var i := FirstSettling(env.term, p, a.buf);
    assert !Settles(env.term, p, a.buf[0]) && !Settles(env.term, p, a.buf[1]) && Settles(env.term, p, a.buf[2]);
    assert i == 2;
  }

  lemma RollStarts(env: Env, c: State, p: Record, x: Record, r: Record)
    requires Rolled(env, p, x, r.(tap := NO_TAP)) && c.tapping == p.(tap := Tap(false, 1)) && c.buf == [x, r]
    ensures ProcessTapping(env, c, x) == Outcome(true, c.(tapping := x), x)
  {
    assert c.buf[1..] == [r];
    assert FirstSettling(env.term, x, c.buf) == 2;
  }
}
