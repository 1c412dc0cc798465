/** How the drain stops, and so which events can arrive out of turn. */
module TappingDrain {
  import opened KeyRecords
  import opened TappingModel
  import opened TappingOrder

  /** The state in which the drain examines the record it stops at, or none if it empties the buffer. */
  datatype Stop = Emptied | At(s: State)

  function StopOf(env: Env, s: State): (stop: Stop)
    ensures stop.At? ==> stop.s.buf != []
    decreases |s.buf|
  {
    if s.buf == [] then Emptied
    else
      var o := ProcessTapping(env, s, s.buf[0]);
      if o.done then StopOf(env, o.state.(buf := o.state.buf[1..])) else At(s)
  }

  /** Records wait though no tap key is undecided. */
  predicate Stranded(s: State) {
    s.buf != [] && !IsPending(s)
  }

  /** The oldest record comes too late for the undecided press. */
  predicate TimesOut(env: Env, s: State)
    requires s.buf != []
  {
    IsPending(s) && !Within(env.term, s.tapping, s.buf[0].event)
  }

  /** The oldest record is the release that makes the undecided press a tap, and it stays one. */
  predicate FirstTap(env: Env, s: State)
    requires s.buf != []
  {
    && IsPending(s) && Settles(env.term, s.tapping, s.buf[0])
    && !Cancels(env, s.log, s.tapping.(tap := s.tapping.tap.(count := 1)))
  }

  /** The oldest record comes too late for a further tap of the released key. */
  predicate WindowCloses(env: Env, s: State)
    requires s.buf != []
  {
    IsTapping(s) && !s.tapping.event.pressed && !Within(env.term, s.tapping, s.buf[0].event)
  }

  lemma ExamineExactly(env: Env, s: State)
    requires s.buf != []
    ensures var o := ProcessTapping(env, s, s.buf[0]);
            !o.done ==> (!IsPending(o.state) <==> TimesOut(env, s) || FirstTap(env, s) || WindowCloses(env, s))
  {
  }

  /**
    The drain leaves records stranded if and only if the last record it examines settles an
    undecided press, by a timeout or as a tap, or closes the window of a released key.
  */
  lemma {:induction false} StrandsExactly(env: Env, s: State)
    ensures Stranded(Drain(env, s)) <==>
              var stop := StopOf(env, s);
              stop.At? && (TimesOut(env, stop.s) || FirstTap(env, stop.s) || WindowCloses(env, stop.s))
    decreases |s.buf|
  {
    if s.buf != [] {
      var o := ProcessTapping(env, s, s.buf[0]);
      if o.done {
        StrandsExactly(env, o.state.(buf := o.state.buf[1..]));
      } else {
        ExamineExactly(env, s);
      }
    }
  }

  /** The drain of the last call stopped in one of these ways. */
  predicate LastDrainStrands(inputs: seq<Input>)
    requires inputs != []
  {
    var last := inputs[|inputs| - 1];
    var stop := StopOf(last.env, Admit(Run(INITIAL, inputs[..|inputs| - 1]), last));
    stop.At? && (TimesOut(last.env, stop.s) || FirstTap(last.env, stop.s) || WindowCloses(last.env, stop.s))
  }

  /**
    After a run records are stranded if and only if the last drain stopped so; an event can be out
    of turn only then.
  */
  lemma StrandedRuns(inputs: seq<Input>)
    ensures Stranded(Run(INITIAL, inputs)) <==> inputs != [] && LastDrainStrands(inputs)
    ensures forall input :: !InTurn(Run(INITIAL, inputs), input) ==> Stranded(Run(INITIAL, inputs))
  {
    if inputs != [] {
      var last := inputs[|inputs| - 1];
      StrandsExactly(last.env, Admit(Run(INITIAL, inputs[..|inputs| - 1]), last));
    }
  }

  // ---------- Each of the ways occurs ----------

  /** A press, or the release of a buffered press, joins the buffer while a tap key is undecided. */
  lemma Queued(s: State, r: Record)
    requires IsPending(s) && r.tap == NO_TAP && !IsNoEvent(r.event) && |s.buf| < 6
    requires forall x <- s.buf + [r] :: Within(200, s.tapping, x.event) && x.event.key != s.tapping.event.key
    requires r.event.pressed || Typed(s.buf, r.event)
    requires s.buf != [] ==> s.buf[0].event.pressed
    ensures var t := s.tapping.(tap := s.tapping.tap.(interrupted := true));
            Step(s, Input(r.event, EXAMPLE_ENV))
            == s.(tapping := if r.event.pressed || s.buf != [] then t else s.tapping, buf := s.buf + [r])
  {
    assert r in s.buf + [r];
    assert s.buf != [] ==> s.buf[0] in s.buf + [r];
    assert (s.buf + [r])[0] == if s.buf == [] then r else s.buf[0];
    var t := s.tapping.(tap := s.tapping.tap.(interrupted := true));
    var a := s.(tapping := if r.event.pressed then t else s.tapping, buf := s.buf + [r]);
    assert Admit(s, Input(r.event, EXAMPLE_ENV)) == a;
    var b := a.buf[0];
    assert ProcessTapping(EXAMPLE_ENV, a, b) == Outcome(false, a.(tapping := t), b);
    assert a.buf[0 := b] == a.buf;
  }

  /** Two tap keys, the second tapped while the first is undecided. */
  lemma TapInside(t: Record, p: Record, r: Record)
    requires t == ExampleRecord(0, true, 1000) && p == ExampleRecord(1, true, 1010) && r == ExampleRecord(1, false, 1020)
    ensures ExampleStep(ExampleStep(ExampleStep(INITIAL, 0, true, 1000), 1, true, 1010), 1, false, 1020)
         == State(t.(tap := Tap(true, 0)), [p, r], [])
  {
    assert ExampleStep(INITIAL, 0, true, 1000) == State(t, [], []);
    Queued(State(t, [], []), p);
    assert [] + [p] == [p];
    Queued(State(t.(tap := Tap(true, 0)), [p], []), r);
    assert [p] + [r] == [p, r];
  }

  /** A tap has been dispatched, and the window for another is open. */
  function AfterTap(p: Record, r: Record, more: seq<Record>, log: seq<Dispatch>): State {
    var tap := Tap(false, 1);
    State(r.(tap := tap), more, log + [Held(p.(tap := tap), r), Direct(r.(tap := tap))])
  }

  /** What the drain does with a buffered tap after the first key has been held. */
  lemma TapDrains(p: Record, r: Record, more: seq<Record>, log: seq<Dispatch>)
    requires p == ExampleRecord(1, true, 1010) && r == ExampleRecord(1, false, 1020) && more != []
    ensures Drain(EXAMPLE_ENV, State(NO_RECORD, [p, r] + more, log)) == Drain(EXAMPLE_ENV, AfterTap(p, r, more, log))
  {
    var tap := Tap(false, 1);
    var s := State(NO_RECORD, [p, r] + more, log);
    var s1 := State(p.(tap := tap), [p, r.(tap := tap)] + more, log + [Held(p.(tap := tap), r)]);
    SecondSettles(p, r, more);
    assert s.buf[1] == r && s.buf[1 := r.(tap := tap)] == s1.buf;
    assert ScanTap(EXAMPLE_ENV, s.(tapping := p)) == s1;
    assert ProcessTapping(EXAMPLE_ENV, s, p) == Outcome(true, s1, p);
    var s2 := s1.(buf := [r.(tap := tap)] + more);
    assert s1.buf[1..] == s2.buf;
    var s3 := State(r.(tap := tap), s2.buf, s1.log + [Direct(r.(tap := tap))]);
    assert ProcessTapping(EXAMPLE_ENV, s2, r.(tap := tap)) == Outcome(true, s3, r.(tap := tap));
    assert s3.buf[1..] == more;
    assert s3.log == log + [Held(p.(tap := tap), r), Direct(r.(tap := tap))];
  }

  lemma SecondSettles(p: Record, r: Record, more: seq<Record>)
    requires p == ExampleRecord(1, true, 1010) && r == ExampleRecord(1, false, 1020)
    ensures FirstSettling(200, p, [p, r] + more) == 1
  {
    assert ([p, r] + more)[0] == p && ([p, r] + more)[1..] == [r] + more && ([r] + more)[0] == r;
  }

  /**
    The window of the second key, tapped inside the first, closes on a buffered press: nothing
    has timed out in the buffer, and yet the press is stranded.
  */
  lemma ClosingStrands(t: Record, p: Record, r: Record, k: Record)
    requires t == ExampleRecord(0, true, 1000).(tap := Tap(true, 0)) && k == ExampleRecord(2, true, 1300)
    requires p == ExampleRecord(1, true, 1010) && r == ExampleRecord(1, false, 1020)
    ensures var s := ExampleStep(ExampleStep(ExampleStep(INITIAL, 0, true, 1000), 1, true, 1010), 1, false, 1020);
            var tap := Tap(false, 1);
            ExampleStep(s, 2, true, 1300)
            == State(NO_RECORD, [k], [Held(t, k), Held(p.(tap := tap), r), Direct(r.(tap := tap))])
  {
    TapInside(t.(tap := NO_TAP), p, r);
    TooLate(t, k);
    LateStep(State(t, [p, r], []), k);
    assert [] + [Held(t, k)] == [Held(t, k)];
    ClosingDrain(p, r, k, [Held(t, k)]);
    ThreeEntries(Held(t, k), Held(p.(tap := Tap(false, 1)), r), Direct(r.(tap := Tap(false, 1))));
  }

  lemma TooLate(t: Record, k: Record)
    requires t.event.time < 1100 && k.event.time == 1300
    ensures !Within(200, t, k.event)
  {
  }

  lemma ClosingDrain(p: Record, r: Record, k: Record, log: seq<Dispatch>)
    requires p == ExampleRecord(1, true, 1010) && r == ExampleRecord(1, false, 1020) && k == ExampleRecord(2, true, 1300)
    ensures Drain(EXAMPLE_ENV, State(NO_RECORD, [p, r] + [k], log)) == AfterTap(p, r, [k], log).(tapping := NO_RECORD)
  {
    TapDrains(p, r, [k], log);
    TooLate(r, k);
    WindowDrains(AfterTap(p, r, [k], log), k);
  }

  lemma ThreeEntries(a: Dispatch, b: Dispatch, c: Dispatch)
    ensures [a] + [b, c] == [a, b, c]
  {
  }

  /** A press that comes too late for the undecided key settles it and joins the buffer. */
  lemma LateStep(s: State, k: Record)
    requires IsPending(s) && k.tap == NO_TAP && !IsNoEvent(k.event) && !Within(200, s.tapping, k.event) && |s.buf| < 6
    ensures Step(s, Input(k.event, EXAMPLE_ENV))
         == Drain(EXAMPLE_ENV, State(NO_RECORD, s.buf + [k], s.log + [Held(s.tapping, k)]))
  {
    assert Admit(s, Input(k.event, EXAMPLE_ENV)) == State(NO_RECORD, s.buf + [k], s.log + [Held(s.tapping, k)]);
  }

  lemma WindowDrains(s: State, k: Record)
    requires IsTapping(s) && !s.tapping.event.pressed && s.buf == [k] && !Within(200, s.tapping, k.event)
    ensures Drain(EXAMPLE_ENV, s) == s.(tapping := NO_RECORD)
  {
    assert ProcessTapping(EXAMPLE_ENV, s, k) == Outcome(false, s.(tapping := NO_RECORD), k);
    assert [k][0 := k] == [k];
  }

  // ---------- A first tap found by the drain ----------

  /**
    A key tapped, another typed, and the key tapped again, all while the first key is undecided:
    after the interruption the second tap starts without a look into the buffer, so the drain
    itself finds its release, and stops with a press stranded behind it.
  */
  lemma TapStrands(p: Record, r: Record, x: Record, p': Record, r': Record, k: Record, log: seq<Dispatch>)
    requires p == ExampleRecord(1, true, 1010) && r == ExampleRecord(1, false, 1020) && x == ExampleRecord(2, true, 1030)
    requires p' == ExampleRecord(1, true, 1040) && r' == ExampleRecord(1, false, 1050) && k == ExampleRecord(3, true, 1300)
    ensures var tap := Tap(false, 1);
            var s := Drain(EXAMPLE_ENV, State(NO_RECORD, [p, r] + [x, p', r', k], log));
            && Stranded(s) && s.tapping == p'.(tap := tap) && s.buf == [r'.(tap := tap), k]
            && s.log == AfterTap(p, r, [], log).log + [Direct(x), Held(p'.(tap := tap), r')]
  {
    TapDrains(p, r, [x, p', r', k], log);
    var a := AfterTap(p, r, [x, p', r', k], log);
    var b := InterruptedBy(a, x);
    assert a.buf[0] == x && a.buf[1..] == [p', r', k];
    assert ProcessTapping(EXAMPLE_ENV, a, x) == Outcome(true, b.(buf := a.buf), x);
    TapAgain(b, p', r', k);
    assert a.log + [Direct(x)] + [Held(p'.(tap := Tap(false, 1)), r')]
        == a.log + [Direct(x), Held(p'.(tap := Tap(false, 1)), r')];
  }

  /** Another key typed in the window of a released key. */
  function InterruptedBy(s: State, x: Record): State {
    s.(tapping := s.tapping.(tap := s.tapping.tap.(interrupted := true)), log := s.log + [Direct(x)],
       buf := if s.buf == [] then [] else s.buf[1..])
  }

  lemma TapAgain(s: State, p': Record, r': Record, k: Record)
    requires s.tapping == ExampleRecord(1, false, 1020).(tap := Tap(true, 1)) && s.buf == [p', r', k]
    requires p' == ExampleRecord(1, true, 1040) && r' == ExampleRecord(1, false, 1050) && k == ExampleRecord(3, true, 1300)
    ensures var tap := Tap(false, 1);
            Drain(EXAMPLE_ENV, s) == State(p'.(tap := tap), [r'.(tap := tap), k], s.log + [Held(p'.(tap := tap), r')])
  {
    var tap := Tap(false, 1);
    var a := State(p', [r', k], s.log);
    assert ProcessTapping(EXAMPLE_ENV, s, p') == Outcome(true, s.(tapping := p'), p');
    assert s.buf[1..] == [r', k];
    assert ProcessTapping(EXAMPLE_ENV, a, r')
        == Outcome(false, a.(tapping := p'.(tap := tap), log := s.log + [Held(p'.(tap := tap), r')]), r'.(tap := tap));
    assert [r', k][0 := r'.(tap := tap)] == [r'.(tap := tap), k];
  }

  /** The whole run: three more events join the tap inside, and a last press comes too late. */
  lemma TapStrandsRun(t: Record, p: Record, r: Record, x: Record, p': Record, r': Record, k: Record)
    requires t == ExampleRecord(0, true, 1000).(tap := Tap(true, 0)) && k == ExampleRecord(3, true, 1300)
    requires p == ExampleRecord(1, true, 1010) && r == ExampleRecord(1, false, 1020) && x == ExampleRecord(2, true, 1030)
    requires p' == ExampleRecord(1, true, 1040) && r' == ExampleRecord(1, false, 1050)
    ensures var s := ExampleStep(ExampleStep(ExampleStep(INITIAL, 0, true, 1000), 1, true, 1010), 1, false, 1020);
            var s' := ExampleStep(ExampleStep(ExampleStep(s, 2, true, 1030), 1, true, 1040), 1, false, 1050);
            Stranded(ExampleStep(s', 3, true, 1300)) && ExampleStep(s', 3, true, 1300).buf == [r'.(tap := Tap(false, 1)), k]
  {
    TapInside(t.(tap := NO_TAP), p, r);
    QueueThree(t, p, r, x, p', r');
    LateTapStrands(t, p, r, x, p', r', k);
  }

  lemma LateTapStrands(t: Record, p: Record, r: Record, x: Record, p': Record, r': Record, k: Record)
    requires t == ExampleRecord(0, true, 1000).(tap := Tap(true, 0)) && k == ExampleRecord(3, true, 1300)
    requires p == ExampleRecord(1, true, 1010) && r == ExampleRecord(1, false, 1020) && x == ExampleRecord(2, true, 1030)
    requires p' == ExampleRecord(1, true, 1040) && r' == ExampleRecord(1, false, 1050)
    ensures var s := Step(State(t, [p, r, x, p', r'], []), Input(k.event, EXAMPLE_ENV));
            Stranded(s) && s.buf == [r'.(tap := Tap(false, 1)), k]
  {
    TooLate(t, k);
    LateStep(State(t, [p, r, x, p', r'], []), k);
    assert [p, r, x, p', r'] + [k] == [p, r] + [x, p', r', k];
    TapStrands(p, r, x, p', r', k, [] + [Held(t, k)]);
  }

  lemma QueueThree(t: Record, p: Record, r: Record, x: Record, p': Record, r': Record)
    requires t == ExampleRecord(0, true, 1000).(tap := Tap(true, 0))
    requires p == ExampleRecord(1, true, 1010) && r == ExampleRecord(1, false, 1020) && x == ExampleRecord(2, true, 1030)
    requires p' == ExampleRecord(1, true, 1040) && r' == ExampleRecord(1, false, 1050)
    ensures ExampleStep(ExampleStep(ExampleStep(State(t, [p, r], []), 2, true, 1030), 1, true, 1040), 1, false, 1050)
         == State(t, [p, r, x, p', r'], [])
  {
    Queued(State(t, [p, r], []), x);
    assert [p, r] + [x] == [p, r, x];
    Queued(State(t, [p, r, x], []), p');
    assert [p, r, x] + [p'] == [p, r, x, p'];
    assert [p, r, x, p'][0] == p;
    Queued(State(t, [p, r, x, p'], []), r');
    assert [p, r, x, p'] + [r'] == [p, r, x, p', r'];
  }
}
