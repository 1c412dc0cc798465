/** When a press is dispatched twice: its processing has taken back the tap that it was. */
module TappingRepeats {
  import opened KeyRecords
  import opened TappingModel
  import opened TappingOrder

  /** Every event dispatched, with repetitions; made-up releases are not among them. */
  function AllSent(log: seq<Dispatch>): multiset<Event> {
    if log == [] then multiset{}
    else
      var d := log[|log| - 1];
      AllSent(log[..|log| - 1]) +
      if d.Direct? || d.Settled? || d.Cancelled? then multiset(Real(d.record.event)) else multiset{}
  }

  /** The events of the taps that were taken back. */
  function TakenBack(log: seq<Dispatch>): multiset<Event> {
    if log == [] then multiset{}
    else
      var d := log[|log| - 1];
      TakenBack(log[..|log| - 1]) + if d.Cancelled? then multiset(Real(d.record.event)) else multiset{}
  }

  lemma {:induction false} AllSentIs(log: seq<Dispatch>)
    ensures AllSent(log) == multiset(Sent(log)) + TakenBack(log)
  {
    if log != [] {
      AllSentIs(log[..|log| - 1]);
    }
  }

  /** Every event dispatched, undecided, waiting or dropped, as often as it is. */
  function Accounted(s: State): multiset<Event> {
    AllSent(s.log) + multiset(Pending(s)) + multiset(Events(s.buf)) + Dropped(s.log)
  }

  /**
    Over every run an event is accounted for once for each time it was received and once more for
    each time its tap was taken back; so more often than received if and only if that happened.
  */
  lemma DispatchedTwice(inputs: seq<Input>)
    ensures var s := Run(INITIAL, inputs);
            && Accounted(s) == multiset(Arrived(inputs)) + TakenBack(s.log)
            && forall e :: e in TakenBack(s.log) <==> Accounted(s)[e] > multiset(Arrived(inputs))[e]
  {
    Conservation(inputs);
    AllSentIs(Run(INITIAL, inputs).log);
  }

  // ---------- A run ----------

  /** The key of column 0 is a tap key whose interrupted taps are taken back. */
  const TAKING_BACK := Env(200, (_, key: Key) => key.col == 0, (_, _) => false, (_, _) => true)

  const PRESS := ExampleRecord(0, true, 1000).(tap := Tap(true, 0))
  const OTHER := ExampleRecord(2, true, 1050)
  const RELEASE := ExampleRecord(0, false, 1100)
  const LATE := Record(Event(Key(255, 255), false, 1251), NO_TAP)

  lemma Interrupted()
    ensures Step(Step(INITIAL, Input(ExampleRecord(0, true, 1000).event, TAKING_BACK)), Input(OTHER.event, TAKING_BACK))
         == State(PRESS, [OTHER], [])
  {
    var s := State(ExampleRecord(0, true, 1000), [], []);
    assert Step(INITIAL, Input(ExampleRecord(0, true, 1000).event, TAKING_BACK)) == s;
    var a := State(PRESS, [OTHER], []);
    assert Admit(s, Input(OTHER.event, TAKING_BACK)) == a;
    OtherWaits(a);
  }

  lemma OtherWaits(s: State)
    requires s.tapping == PRESS && s.buf != [] && s.buf[0] == OTHER
    ensures Drain(TAKING_BACK, s) == s
  {
    assert ProcessTapping(TAKING_BACK, s, OTHER) == Outcome(false, s, OTHER);
    assert s.buf[0 := OTHER] == s.buf;
  }

  lemma TakesBack()
    ensures Step(State(PRESS, [OTHER], []), Input(RELEASE.event, TAKING_BACK))
         == State(PRESS, [OTHER, RELEASE.(tap := Tap(true, 0))], [Cancelled(PRESS.(tap := Tap(true, 1)), RELEASE, 200)])
  {
    var a := State(PRESS, [OTHER, RELEASE.(tap := Tap(true, 0))], [Cancelled(PRESS.(tap := Tap(true, 1)), RELEASE, 200)]);
    assert Admit(State(PRESS, [OTHER], []), Input(RELEASE.event, TAKING_BACK)) == a;
    OtherWaits(a);
  }

  lemma DispatchedAgain(s: State)
    requires s.tapping == PRESS && s.buf == [OTHER, RELEASE.(tap := Tap(true, 0))]
    ensures Step(s, Input(LATE.event, TAKING_BACK))
         == State(NO_RECORD, [], s.log + [Settled(PRESS, LATE, 200)] + [Direct(OTHER)] + [Direct(RELEASE.(tap := Tap(true, 0)))])
  {
    var r := RELEASE.(tap := Tap(true, 0));
    var a := State(NO_RECORD, [OTHER, r], s.log + [Settled(PRESS, LATE, 200)]);
    assert Admit(s, Input(LATE.event, TAKING_BACK)) == a;
    var b := State(NO_RECORD, [r], a.log + [Direct(OTHER)]);
    assert ProcessTapping(TAKING_BACK, a, OTHER) == Outcome(true, b.(buf := a.buf), OTHER);
    assert a.buf[1..] == [r];
    assert Drain(TAKING_BACK, a) == Drain(TAKING_BACK, b);
    var c := b.(log := b.log + [Direct(r)]);
    assert ProcessTapping(TAKING_BACK, b, r) == Outcome(true, c, r);
    assert b.buf[0] == r && c.buf[1..] == [];
    assert Drain(TAKING_BACK, b) == c.(buf := []);
  }

  /**
    A key tapped while another is typed: its press goes out as a tap, is taken back, and goes out
    again as a hold when the term is over.
  */
  lemma TappedTwice()
    ensures var s := Step(Step(INITIAL, Input(ExampleRecord(0, true, 1000).event, TAKING_BACK)), Input(OTHER.event, TAKING_BACK));
            var s' := Step(Step(s, Input(RELEASE.event, TAKING_BACK)), Input(LATE.event, TAKING_BACK));
            s'.log == [Cancelled(PRESS.(tap := Tap(true, 1)), RELEASE, 200)] + [Settled(PRESS, LATE, 200)]
                      + [Direct(OTHER)] + [Direct(RELEASE.(tap := Tap(true, 0)))]
  {
    Interrupted();
    TakesBack();
    DispatchedAgain(State(PRESS, [OTHER, RELEASE.(tap := Tap(true, 0))], [Cancelled(PRESS.(tap := Tap(true, 1)), RELEASE, 200)]));
  }
}
