/** Ticks alone always settle the waiting buffer, and late ticks deliver everything. */
module TappingProgress {
  import opened KeyRecords
  import opened TappingModel
  import opened TappingOrder

  predicate IsTick(e: Event) {
    e.key == Key(255, 255) && !e.pressed
  }

  predicate AllTicks(inputs: seq<Input>) {
    forall i :: 0 <= i < |inputs| ==> IsTick(inputs[i].event)
  }

  /** Nothing waits, or what waits is held up by an undecided tap key. */
  predicate AtRest(s: State) {
    s.buf == [] || IsPending(s)
  }

  predicate Flushed(s: State) {
    s.buf == [] && !IsPending(s)
  }

  function Measure(s: State): nat {
    2 * |s.buf| + if IsTapping(s) && (!s.tapping.event.pressed || s.tapping.tap.count == 0) then 1 else 0
  }

  lemma {:induction false} DrainDecreases(env: Env, s: State)
    ensures Measure(Drain(env, s)) <= Measure(s)
    ensures s.buf != [] && !IsPending(s) ==> Measure(Drain(env, s)) < Measure(s)
    decreases |s.buf|
  {
    if s.buf != [] {
      var o := ProcessTapping(env, s, s.buf[0]);
      if o.done {
        DrainDecreases(env, o.state.(buf := o.state.buf[1..]));
      }
    }
  }

  /** The tick has come too late for the pending press, if there is one. */
  predicate Late(s: State, input: Input) {
    IsPending(s) ==> !Within(input.env.term, s.tapping, input.event)
  }

  lemma TickDecreases(s: State, tick: Input)
    requires IsTick(tick.event) && Late(s, tick) && !Flushed(s)
    ensures Measure(Step(s, tick)) < Measure(s)
  {
    var a := Admit(s, tick);
    assert IsNoEvent(tick.event);
    assert a.buf == s.buf && !IsPending(a);
    DrainDecreases(tick.env, a);
  }

  lemma Prefix(ticks: seq<Input>, m: nat, n: nat)
    requires n < m <= |ticks|
    ensures ticks[..m][..n] == ticks[..n] && ticks[..m][n] == ticks[n]
  {
  }

  lemma {:induction false} CountDown(s: State, ticks: seq<Input>)
    requires AllTicks(ticks)
    requires forall n :: 0 <= n < |ticks| ==> !Flushed(Run(s, ticks[..n])) && Late(Run(s, ticks[..n]), ticks[n])
    ensures Measure(Run(s, ticks)) + |ticks| <= Measure(s)
  {
    if ticks != [] {
      var m := |ticks| - 1;
      var before := ticks[..m];
      forall n | 0 <= n < m
        ensures before[..n] == ticks[..n] && before[n] == ticks[n]
      {
        Prefix(ticks, m, n);
      }
      CountDown(s, before);
      TickDecreases(Run(s, before), ticks[m]);
    }
  }

  /**
    From any state, `2 * |buf|` ticks are enough to reach a state where nothing waits or a
    tap key is undecided, whatever the ticks' times and surroundings.
  */
  lemma Progress(s: State, ticks: seq<Input>)
    requires AllTicks(ticks) && |ticks| >= 2 * |s.buf|
    ensures exists n :: 0 <= n <= |ticks| && AtRest(Run(s, ticks[..n]))
  {
    assert ticks[..|ticks|] == ticks;
    assert ticks[..0] == [];
    if !AtRest(Run(s, ticks[..0])) && forall n :: 0 <= n <= |ticks| ==> !AtRest(Run(s, ticks[..n])) {
      CountDown(s, ticks);
    }
  }

  /** If every tick is late, `2 * |buf| + 1` of them empty the buffer and decide the tap key. */
  lemma Flush(s: State, ticks: seq<Input>)
    requires AllTicks(ticks) && |ticks| >= 2 * |s.buf| + 1
    requires forall n :: 0 <= n < |ticks| ==> Late(Run(s, ticks[..n]), ticks[n])
    ensures exists n :: 0 <= n <= |ticks| && Flushed(Run(s, ticks[..n]))
  {
    assert ticks[..|ticks|] == ticks;
    if forall n :: 0 <= n <= |ticks| ==> !Flushed(Run(s, ticks[..n])) {
      CountDown(s, ticks);
    }
  }

  lemma {:induction false} RunSplits(s: State, a: seq<Input>, b: seq<Input>)
    ensures Run(s, a + b) == Run(Run(s, a), b)
  {
    if b == [] {
      assert a + b == a;
    } else {
      assert (a + b)[..|a + b| - 1] == a + b[..|b| - 1];
      RunSplits(s, a, b[..|b| - 1]);
    }
  }

  lemma {:induction false} ArrivedSplits(a: seq<Input>, b: seq<Input>)
    ensures Arrived(a + b) == Arrived(a) + Arrived(b)
  {
    if b == [] {
      assert a + b == a;
    } else {
      assert (a + b)[..|a + b| - 1] == a + b[..|b| - 1];
      ArrivedSplits(a, b[..|b| - 1]);
    }
  }

  lemma {:induction false} TicksBringNothing(ticks: seq<Input>)
    requires AllTicks(ticks)
    ensures Arrived(ticks) == []
  {
    if ticks != [] {
      TicksBringNothing(ticks[..|ticks| - 1]);
    }
  }

  lemma FlushedDelivers(inputs: seq<Input>, ticks: seq<Input>)
    requires AllTicks(ticks) && Flushed(Run(INITIAL, inputs + ticks))
    ensures var log := Run(INITIAL, inputs + ticks).log;
            multiset(Sent(log)) + Dropped(log) == multiset(Arrived(inputs))
  {
    ArrivedSplits(inputs, ticks);
    TicksBringNothing(ticks);
    Conservation(inputs + ticks);
    assert Arrived(inputs) + [] == Arrived(inputs);
  }

  lemma FlushedAfter(inputs: seq<Input>, ticks: seq<Input>) returns (n: nat)
    requires AllTicks(ticks) && |ticks| >= 2 * |Run(INITIAL, inputs).buf| + 1
    requires forall n :: 0 <= n < |ticks| ==> Late(Run(INITIAL, inputs + ticks[..n]), ticks[n])
    ensures n <= |ticks| && Flushed(Run(INITIAL, inputs + ticks[..n]))
  {
    var s := Run(INITIAL, inputs);
    forall n | 0 <= n <= |ticks|
      ensures Run(s, ticks[..n]) == Run(INITIAL, inputs + ticks[..n])
    {
      RunSplits(INITIAL, inputs, ticks[..n]);
    }
    Flush(s, ticks);
    n :| 0 <= n <= |ticks| && Flushed(Run(s, ticks[..n]));
  }

  /** After any run, enough late ticks dispatch exactly what was received and not dropped. */
  lemma Delivery(inputs: seq<Input>, ticks: seq<Input>)
    requires AllTicks(ticks) && |ticks| >= 2 * |Run(INITIAL, inputs).buf| + 1
    requires forall n :: 0 <= n < |ticks| ==> Late(Run(INITIAL, inputs + ticks[..n]), ticks[n])
    ensures exists n :: 0 <= n <= |ticks| &&
              var log := Run(INITIAL, inputs + ticks[..n]).log;
              multiset(Sent(log)) + Dropped(log) == multiset(Arrived(inputs))
  {
    var n := FlushedAfter(inputs, ticks);
    FlushedDelivers(inputs, ticks[..n]);
  }
}
