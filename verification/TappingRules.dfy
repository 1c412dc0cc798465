/** What has to wait for an undecided tap key, what goes out at once, and how taps are counted. */
module TappingRules {
  import opened KeyRecords
  import opened Machine
  import opened TappingModel
  import opened TappingOrder
  import opened TappingProgress

  // ---------- Waiting for the decision ----------

  /** The entry decides the press of `t`, or an overflow throws it away; an interruption is remembered. */
  predicate Decides(d: Dispatch, t: Record) {
    || d.ClearKeyboard?
    || ((d.Settled? || d.Cancelled?) && d.record.event == t.event && (t.tap.interrupted ==> d.record.tap.interrupted))
  }

  predicate DecidedIn(log: seq<Dispatch>, lo: nat, hi: nat, t: Record)
    requires hi <= |log|
  {
    exists i :: lo <= i < hi && Decides(log[i], t)
  }

  /** A release of another key that some of the surroundings, asked at that point, does not retain. */
  predicate LetThrough(d: Dispatch, before: seq<Dispatch>, envs: seq<Env>, t: Record) {
    && d.Direct? && IsReleased(d.record.event) && d.record.event.key != t.event.key
    && exists i :: 0 <= i < |envs| && !envs[i].retains(before, d.record)
  }

  /** From `s` to `s'` nothing but releases let through is dispatched before the press is decided. */
  predicate Waits(s: State, s': State, envs: seq<Env>) {
    && s.log <= s'.log
    && (forall j :: |s.log| <= j < |s'.log| && !DecidedIn(s'.log, |s.log|, j, s.tapping) ==>
          Decides(s'.log[j], s.tapping) || LetThrough(s'.log[j], s'.log[..j], envs, s.tapping))
    && (!DecidedIn(s'.log, |s.log|, |s'.log|, s.tapping) ==> StillPending(s, s'))
  }

  predicate StillPending(s: State, s': State) {
    IsPending(s') && s'.tapping.event == s.tapping.event && (s.tapping.tap.interrupted ==> s'.tapping.tap.interrupted)
  }

  lemma WaitsOn(s: State, m: State, s': State, envs: seq<Env>)
    requires Waits(s, m, envs) && m.log <= s'.log
    requires StillPending(s, m) ==> Waits(m, s', envs)
    ensures Waits(s, s', envs)
  {
    forall j | |s.log| <= j < |s'.log| && !DecidedIn(s'.log, |s.log|, j, s.tapping)
      ensures Decides(s'.log[j], s.tapping) || LetThrough(s'.log[j], s'.log[..j], envs, s.tapping)
    {
      if j < |m.log| {
        assert m.log[..j] == s'.log[..j];
        assert forall i :: |s.log| <= i < j ==> m.log[i] == s'.log[i];
      } else {
        assert forall i :: |s.log| <= i < |m.log| ==> m.log[i] == s'.log[i];
      }
    }
    if DecidedIn(m.log, |s.log|, |m.log|, s.tapping) {
      var i :| |s.log| <= i < |m.log| && Decides(m.log[i], s.tapping);
      assert s'.log[i] == m.log[i];
    }
  }

  lemma MoreSurroundings(s: State, s': State, a: seq<Env>, b: seq<Env>)
    requires Waits(s, s', a)
    requires forall i :: 0 <= i < |a| ==> exists j :: 0 <= j < |b| && b[j] == a[i]
    ensures Waits(s, s', b)
  {
  }

  lemma ScanGrows(env: Env, s: State)
    ensures s.log <= ScanTap(env, s).log
  {
  }

  lemma ExamineGrows(env: Env, s: State, r: Record)
    ensures s.log <= ProcessTapping(env, s, r).state.log
  {
    ScanGrows(env, s.(tapping := r));
    var t := s.tapping;
    ScanGrows(env, s.(log := Emit(s.log, Unregister(Record(Event(t.event.key, false, r.event.time), t.tap))), tapping := r));
  }

  lemma {:induction false} DrainGrows(env: Env, s: State)
    ensures s.log <= Drain(env, s).log
    decreases |s.buf|
  {
    if s.buf != [] {
      ExamineGrows(env, s, s.buf[0]);
      var o := ProcessTapping(env, s, s.buf[0]);
      if o.done {
        DrainGrows(env, o.state.(buf := o.state.buf[1..]));
      }
    }
  }

  lemma OneEntry(s: State, s': State, d: Dispatch, envs: seq<Env>)
    requires s'.log == s.log + [d]
    requires Decides(d, s.tapping) || (LetThrough(d, s.log, envs, s.tapping) && StillPending(s, s'))
    ensures Waits(s, s', envs)
  {
    assert s'.log[..|s.log|] == s.log && s'.log[|s.log|] == d;
  }

  lemma ExamineWaits(env: Env, s: State, r: Record)
    requires IsPending(s)
    ensures Waits(s, WhilePending(env, s, r).state, [env])
  {
    var s' := WhilePending(env, s, r).state;
    if s'.log != s.log {
      var d := s'.log[|s.log|];
      assert s'.log == s.log + [d];
      assert d.Direct? ==> LetThrough(d, s.log, [env], s.tapping) by {
        assert d.Direct? ==> !([env][0]).retains(s.log, d.record);
      }
      OneEntry(s, s', d, [env]);
    }
  }

  lemma {:induction false} DrainWaits(env: Env, s: State)
    requires IsPending(s)
    ensures Waits(s, Drain(env, s), [env])
    decreases |s.buf|
  {
    if s.buf != [] {
      var o := ProcessTapping(env, s, s.buf[0]);
      ExamineWaits(env, s, s.buf[0]);
      if o.done {
        var m := o.state.(buf := o.state.buf[1..]);
        DrainGrows(env, m);
        if IsPending(m) {
          DrainWaits(env, m);
        }
        WaitsOn(s, m, Drain(env, s), [env]);
      }
    }
  }

  lemma EnqueueWaits(s: State, r: Record, envs: seq<Env>)
    requires IsPending(s)
    ensures Waits(s, Enqueue(s, r), envs)
  {
    var s' := Enqueue(s, r);
    if s'.log != s.log {
      OneEntry(s, s', s'.log[|s.log|], envs);
    }
  }

  /** Whatever the arriving record leaves behind, the rest of the call waits too. */
  lemma FinishWaits(env: Env, s: State, o: Outcome)
    requires Waits(s, o.state, [env])
    ensures Waits(s, Drain(env, if o.done then o.state else Enqueue(o.state, o.record)), [env])
  {
    var m := if o.done then o.state else Enqueue(o.state, o.record);
    if IsPending(o.state) && !o.done {
      EnqueueWaits(o.state, o.record, [env]);
    }
    WaitsOn(s, o.state, m, [env]);
    DrainGrows(env, m);
    if IsPending(m) {
      DrainWaits(env, m);
    }
    WaitsOn(s, m, Drain(env, m), [env]);
  }

  lemma StepWaits(s: State, input: Input)
    requires IsPending(s)
    ensures Waits(s, Step(s, input), [input.env])
  {
    var r := Record(input.event, NO_TAP);
    ExamineWaits(input.env, s, r);
    FinishWaits(input.env, s, ProcessTapping(input.env, s, r));
  }

  lemma StepGrows(s: State, input: Input)
    ensures s.log <= Step(s, input).log
  {
    ExamineGrows(input.env, s, Record(input.event, NO_TAP));
    DrainGrows(input.env, Admit(s, input));
  }

  function Surroundings(inputs: seq<Input>): (envs: seq<Env>)
    ensures |envs| == |inputs|
    ensures forall i :: 0 <= i < |inputs| ==> envs[i] == inputs[i].env
  {
    seq(|inputs|, i requires 0 <= i < |inputs| => inputs[i].env)
  }

  /**
    Over every run from a state with an undecided press, all that is dispatched before the entry
    that decides it are releases of other keys that the surroundings, at that point, did not retain.
  */
  lemma {:induction false} UndecidedWaits(s: State, inputs: seq<Input>)
    requires IsPending(s)
    ensures Waits(s, Run(s, inputs), Surroundings(inputs))
  {
    if inputs != [] {
      var n := |inputs| - 1;
      var m := Run(s, inputs[..n]);
      var envs := Surroundings(inputs);
      UndecidedWaits(s, inputs[..n]);
      assert forall i :: 0 <= i < n ==> Surroundings(inputs[..n])[i] == envs[i];
      MoreSurroundings(s, m, Surroundings(inputs[..n]), envs);
      StepGrows(m, inputs[n]);
      if IsPending(m) {
        StepWaits(m, inputs[n]);
        assert envs[n] == [inputs[n].env][0];
        MoreSurroundings(m, Step(m, inputs[n]), [inputs[n].env], envs);
      }
      WaitsOn(s, m, Run(s, inputs), envs);
    }
  }

  /** At every point of the log the surroundings retain the release `e`. */
  ghost predicate KeepsRetaining(inputs: seq<Input>, log: seq<Dispatch>, e: Event) {
    forall i, n, tap :: 0 <= i < |inputs| && 0 <= n <= |log| ==> inputs[i].env.retains(log[..n], Record(e, tap))
  }

  /** A release that goes on being retained is dispatched only after the undecided press has been decided. */
  lemma RetainedWaits(s: State, inputs: seq<Input>, e: Event, j: nat)
    requires var log := Run(s, inputs).log;
             && IsPending(s) && KeepsRetaining(inputs, log, e)
             && |s.log| <= j < |log| && log[j].Direct? && log[j].record.event == e
    ensures DecidedIn(Run(s, inputs).log, |s.log|, j, s.tapping)
  {
    UndecidedWaits(s, inputs);
    var d := Run(s, inputs).log[j];
    assert d.record == Record(e, d.record.tap);
  }

  /** The first entry that a call adds. */
  predicate Starts(s: State, s': State, d: Dispatch) {
    s.log + [d] <= s'.log
  }

  lemma StartsWith(s: State, m: State, s': State, d: Dispatch)
    requires m.log == s.log + [d] && m.log <= s'.log
    ensures Starts(s, s', d)
  {
  }

  /** While the press is undecided, the first entry of a call is never a press, nor a release that is retained. */
  lemma FirstWaits(s: State, s': State, env: Env, r: Record)
    requires Waits(s, s', [env])
    requires r.event.pressed || env.retains(s.log, r)
    ensures !Starts(s, s', Direct(r))
  {
    var n := |s.log|;
    assert s'.log[..n] == s.log && !DecidedIn(s'.log, n, n, s.tapping);
    StartsAt(s, s', Direct(r));
  }

  lemma StartsAt(s: State, s': State, d: Dispatch)
    ensures Starts(s, s', d) ==> |s'.log| > |s.log| && s'.log[|s.log|] == d
  {
    assert (s.log + [d])[|s.log|] == d;
  }

  lemma StepFrom(s: State, input: Input)
    ensures Admit(s, input).log <= Step(s, input).log
  {
    DrainGrows(input.env, Admit(s, input));
  }

  /** The early release of a key pressed before the tap key: at once, if and only if it is not retained. */
  lemma ReleasedAtOnce(s: State, input: Input)
    requires IsPending(s) && IsReleased(input.event) && input.event.key != s.tapping.event.key
    requires Within(input.env.term, s.tapping, input.event) && !Typed(s.buf, input.event)
    ensures Starts(s, Step(s, input), Direct(Record(input.event, NO_TAP)))
       <==> !input.env.retains(s.log, Record(input.event, NO_TAP))
    ensures !input.env.retains(s.log, Record(input.event, NO_TAP)) ==>
              Sent(s.log) + [input.event] <= Sent(Step(s, input).log)
  {
    var r := Record(input.event, NO_TAP);
    StepFrom(s, input);
    if input.env.retains(s.log, r) {
      StepWaits(s, input);
      FirstWaits(s, Step(s, input), input.env, r);
    } else {
      StartsWith(s, Admit(s, input), Step(s, input), Direct(r));
      SentStarts(s.log, Direct(r), Step(s, input).log);
    }
  }

  /** Every call asks again about the oldest waiting release. */
  lemma RetainedAskedAgain(s: State, input: Input)
    requires IsPending(s) && IsTick(input.event) && Within(input.env.term, s.tapping, input.event)
    requires s.buf != [] && IsReleased(s.buf[0].event) && s.buf[0].event.key != s.tapping.event.key
    requires Within(input.env.term, s.tapping, s.buf[0].event) && !Typed(s.buf, s.buf[0].event)
    ensures Starts(s, Step(s, input), Direct(s.buf[0])) <==> !input.env.retains(s.log, s.buf[0])
  {
    var r := s.buf[0];
    assert Admit(s, input) == s;
    if input.env.retains(s.log, r) {
      DrainWaits(input.env, s);
      FirstWaits(s, Step(s, input), input.env, r);
    } else {
      var m := s.(log := s.log + [Direct(r)], buf := s.buf[1..]);
      assert ProcessTapping(input.env, s, r) == Dispatched(s, r);
      DrainGrows(input.env, m);
      StartsWith(s, m, Drain(input.env, m), Direct(r));
    }
  }

  lemma {:induction false} SentGrows(a: seq<Dispatch>, b: seq<Dispatch>)
    requires a <= b
    ensures Sent(a) <= Sent(b)
    decreases |b|
  {
    if a != b {
      SentGrows(a, b[..|b| - 1]);
    }
  }

  lemma SentStarts(log: seq<Dispatch>, d: Dispatch, log': seq<Dispatch>)
    requires log + [d] <= log' && d.Direct? && !IsNoEvent(d.record.event)
    ensures Sent(log) + [d.record.event] <= Sent(log')
  {
    SentSnoc(log, d);
    SentGrows(log + [d], log');
  }

  /** The own release within the term makes the press a tap at once, and a record past the term a hold. */
  lemma DecidedAtOnce(s: State, input: Input)
    requires IsPending(s)
    ensures var t, r, term := s.tapping, Record(input.event, NO_TAP), input.env.term;
            var tap := t.(tap := t.tap.(count := 1));
            && (!Within(term, t, r.event) ==> Starts(s, Step(s, input), Settled(t, r, term)))
            && (Settles(term, t, r) ==>
                  Starts(s, Step(s, input), if Cancels(input.env, s.log, tap) then Cancelled(tap, r, term) else Settled(tap, r, term)))
  {
    StepFrom(s, input);
    var r := Record(input.event, NO_TAP);
    var o := ProcessTapping(input.env, s, r);
    assert !o.done && (Settles(input.env.term, s.tapping, r) || !Within(input.env.term, s.tapping, r.event)) ==>
        o.state.log <= Admit(s, input).log;
  }

  /** A press within the term interrupts the undecided press: the entry that decides it says so, in every run. */
  lemma PressInterrupts(s: State, inputs: seq<Input>)
    requires IsPending(s) && inputs != [] && inputs[0].event.pressed
    requires Within(inputs[0].env.term, s.tapping, inputs[0].event)
    ensures Waits(s.(tapping := s.tapping.(tap := s.tapping.tap.(interrupted := true))), Run(s, inputs), Surroundings(inputs))
  {
    var input, rest := inputs[0], inputs[1..];
    var m := s.(tapping := s.tapping.(tap := s.tapping.tap.(interrupted := true)));
    var r := Record(input.event, NO_TAP);
    var o := ProcessTapping(input.env, s, r);
    assert o == Outcome(false, m, r);
    FinishWaits(input.env, m, o);
    var n := Step(s, input);
    assert Run(s, [input]) == n;
    RunSplits(s, [input], rest);
    assert inputs == [input] + rest;
    var envs := Surroundings(inputs);
    assert envs[0] == [input.env][0];
    MoreSurroundings(m, n, [input.env], envs);
    RunGrows(n, rest);
    if IsPending(n) {
      UndecidedWaits(n, rest);
      assert forall i :: 0 <= i < |rest| ==> Surroundings(rest)[i] == envs[i + 1];
      MoreSurroundings(n, Run(n, rest), Surroundings(rest), envs);
    }
    WaitsOn(m, n, Run(s, inputs), envs);
  }

  lemma {:induction false} RunGrows(s: State, inputs: seq<Input>)
    ensures s.log <= Run(s, inputs).log
  {
    if inputs != [] {
      RunGrows(s, inputs[..|inputs| - 1]);
      StepGrows(Run(s, inputs[..|inputs| - 1]), inputs[|inputs| - 1]);
    }
  }

  // ---------- Overflow ----------

  /** The event cannot be finished with when it arrives. */
  predicate HasToWait(s: State, input: Input) {
    var e, term := input.event, input.env.term;
    if IsPending(s) then
      !(Within(term, s.tapping, e) && IsReleased(e) && e.key != s.tapping.event.key && !Typed(s.buf, e)
        && !input.env.retains(s.log, Record(e, NO_TAP)))
    else IsTapping(s) && !s.tapping.event.pressed && !Within(term, s.tapping, e)
  }

  lemma WaitsExactly(s: State, input: Input)
    requires !IsNoEvent(input.event)
    ensures ProcessTapping(input.env, s, Record(input.event, NO_TAP)).done <==> !HasToWait(s, input)
  {
  }

  /** Events are thrown away exactly when one has to wait and seven wait already. */
  lemma Overflows(s: State, input: Input)
    requires WellFormed(s) && !IsNoEvent(input.event)
    ensures Dropped(Step(s, input).log) != Dropped(s.log) <==> HasToWait(s, input) && |s.buf| == 7
  {
    var r := Record(input.event, NO_TAP);
    var o := ProcessTapping(input.env, s, r);
    WaitsExactly(s, input);
    ProcessTappingKeeps(input.env, s, r);
    AdmitKeeps(s, input);
    DrainKeeps(input.env, Admit(s, input));
    if HasToWait(s, input) && |s.buf| == 7 {
      OverflowCounts(o.state, o.record);
    }
  }

  lemma TickDropsNothing(s: State, input: Input)
    requires WellFormed(s) && IsNoEvent(input.event)
    ensures Dropped(Step(s, input).log) == Dropped(s.log)
  {
    var r := Record(input.event, NO_TAP);
    ProcessTappingKeeps(input.env, s, r);
    AdmitKeeps(s, input);
    DrainKeeps(input.env, Admit(s, input));
  }
}
