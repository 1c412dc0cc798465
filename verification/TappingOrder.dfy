/** No event is lost, duplicated or, per key, reordered by tap/hold resolution. */
module TappingOrder {
  import opened KeyRecords
  import opened Machine
  import opened TappingModel

  function Real(e: Event): seq<Event> {
    if IsNoEvent(e) then [] else [e]
  }

  /** The real events dispatched for good, in order; made-up releases and taps taken back are not among them. */
  function Sent(log: seq<Dispatch>): seq<Event> {
    if log == [] then []
    else
      var d := log[|log| - 1];
      Sent(log[..|log| - 1]) + if d.Direct? || d.Settled? then Real(d.record.event) else []
  }

  function Events(rs: seq<Record>): (es: seq<Event>)
    ensures |es| == |rs|
    ensures forall i :: 0 <= i < |rs| ==> es[i] == rs[i].event
  {
    seq(|rs|, i requires 0 <= i < |rs| => rs[i].event)
  }

  /** The events thrown away by overflows. */
  function Dropped(log: seq<Dispatch>): multiset<Event> {
    if log == [] then multiset{}
    else
      var d := log[|log| - 1];
      Dropped(log[..|log| - 1]) + if d.ClearKeyboard? then multiset(Events(d.lost)) else multiset{}
  }

  function Pending(s: State): seq<Event> {
    if IsPending(s) then [s.tapping.event] else []
  }

  function Front(s: State): seq<Event> {
    Sent(s.log) + Pending(s)
  }

  /** Everything received and not dropped: dispatched, then pending, then waiting. */
  function Line(s: State): seq<Event> {
    Front(s) + Events(s.buf)
  }

  function Arrived(inputs: seq<Input>): seq<Event> {
    if inputs == [] then []
    else Arrived(inputs[..|inputs| - 1]) + Real(inputs[|inputs| - 1].event)
  }

  function OfKey(k: Key, es: seq<Event>): seq<Event> {
    if es == [] then []
    else
      var e := es[|es| - 1];
      OfKey(k, es[..|es| - 1]) + if e.key == k then [e] else []
  }

  /** What every reachable state satisfies. */
  predicate WellFormed(s: State) {
    && |s.buf| < WAITING_BUFFER_SIZE
    && (forall r <- s.buf :: !IsNoEvent(r.event) && (r.event.pressed ==> r.tap == NO_TAP))
    && (IsTapping(s) && !s.tapping.event.pressed ==> s.tapping.tap.count > 0)
  }

  predicate Fresh(r: Record) {
    r.event.pressed ==> r.tap == NO_TAP
  }

  lemma SentSnoc(log: seq<Dispatch>, d: Dispatch)
    ensures Sent(log + [d]) == Sent(log) + if d.Direct? || d.Settled? then Real(d.record.event) else []
    ensures Dropped(log + [d]) == Dropped(log) + if d.ClearKeyboard? then multiset(Events(d.lost)) else multiset{}
  {
    assert (log + [d])[..|log|] == log;
  }

  lemma SentEmit(log: seq<Dispatch>, d: Dispatch)
    requires !d.ClearKeyboard?
    ensures Sent(Emit(log, d)) == Sent(log) + if d.Direct? || d.Settled? then Real(d.record.event) else []
    ensures Dropped(Emit(log, d)) == Dropped(log)
  {
    SentSnoc(log, d);
  }

  /** A release of a key pressed earlier goes ahead of the pending press of another key. */
  predicate Overtakes(s: State, e: Event, s': State) {
    && IsPending(s)
    && IsReleased(e)
    && e.key != s.tapping.event.key
    && !Typed(s.buf, e)
    && Front(s') == Sent(s.log) + [e] + Pending(s)
  }

  lemma ScanKeeps(env: Env, s: State)
    ensures Front(ScanTap(env, s)) == Front(s)
    ensures Events(ScanTap(env, s).buf) == Events(s.buf)
    ensures Dropped(ScanTap(env, s).log) == Dropped(s.log)
    ensures WellFormed(s) ==> WellFormed(ScanTap(env, s))
  {
    ScanWellFormed(env, s);
    var i := FirstSettling(env.term, s.tapping, s.buf);
    if !(s.tapping.tap.count > 0 || !s.tapping.event.pressed || i == |s.buf|) {
      SettleFront(env, s, s.tapping.(tap := s.tapping.tap.(count := 1)), s.buf[i]);
      MarkedEvents(s.buf, i);
    }
  }

  /** An undecided press stays at the back of the front part, dispatched for good or not. */
  lemma SettleFront(env: Env, s: State, t: Record, cause: Record)
    requires IsPending(s) && t.event == s.tapping.event && t.tap.count > 0
    ensures Front(s.(tapping := Settle(env, s.log, t, cause).0, log := Settle(env, s.log, t, cause).1)) == Front(s)
    ensures Dropped(Settle(env, s.log, t, cause).1) == Dropped(s.log)
  {
    SentEmit(s.log, Settled(t, cause, env.term));
    SentEmit(s.log, Cancelled(t, cause, env.term));
  }

  /** Marking a record as tapped does not change its event. */
  lemma MarkedEvents(buf: seq<Record>, i: nat)
    requires i < |buf|
    ensures Events(buf[i := buf[i].(tap := buf[i].tap.(count := 1))]) == Events(buf)
  {
  }

  lemma ScanWellFormed(env: Env, s: State)
    ensures WellFormed(s) ==> WellFormed(ScanTap(env, s))
  {
  }

  /**
    Deciding one record puts it at the back of the front part, where a pending press may
    let it overtake, or leaves the front alone; the waiting events stay as they are.
  */
  predicate Keeps(s: State, r: Record, o: Outcome) {
    && WellFormed(o.state)
    && o.record.event == r.event
    && Events(o.state.buf) == Events(s.buf)
    && Dropped(o.state.log) == Dropped(s.log)
    && (if o.done
        then if IsPending(s) then Overtakes(s, r.event, o.state) else Front(o.state) == Front(s) + Real(r.event)
        else Fresh(o.record) && Front(o.state) == Front(s))
  }

  lemma DispatchedKeeps(s: State, t: Record, r: Record, tap: Tap)
    requires WellFormed(s) && !IsPending(s)
    requires !t.event.pressed && IsTapping(s.(tapping := t)) ==> t.tap.count > 0
    requires !IsPending(s.(tapping := t))
    ensures Keeps(s, r, Dispatched(s.(tapping := t), r.(tap := tap)))
  {
    SentEmit(s.log, Direct(r.(tap := tap)));
  }

  lemma BecomesPending(s: State, r: Record)
    requires WellFormed(s) && !IsPending(s) && r.event.pressed && r.tap == NO_TAP
    ensures WellFormed(s.(tapping := r)) && Front(s.(tapping := r)) == Front(s) + Real(r.event)
  {
  }

  lemma StartTapKeeps(env: Env, s: State, r: Record)
    requires WellFormed(s) && !IsPending(s) && r.event.pressed && r.tap == NO_TAP
    ensures Keeps(s, r, StartTap(env, s, r))
  {
    var s' := s.(tapping := r);
    BecomesPending(s, r);
    ScanKeeps(env, s');
    DoneKeeps(s, r, ScanTap(env, s'));
  }

  lemma DoneKeeps(s: State, r: Record, s': State)
    requires !IsPending(s) && WellFormed(s') && Events(s'.buf) == Events(s.buf)
    requires Dropped(s'.log) == Dropped(s.log) && Front(s') == Front(s) + Real(r.event)
    ensures Keeps(s, r, Outcome(true, s', r))
  {
  }

  lemma SettledKeeps(env: Env, s: State, r: Record, t: Record)
    requires WellFormed(s) && Fresh(r) && IsPending(s)
    requires t.event == s.tapping.event
    ensures Front(s.(tapping := NO_RECORD, log := Emit(s.log, Settled(t, r, env.term)))) == Front(s)
    ensures Dropped(Emit(s.log, Settled(t, r, env.term))) == Dropped(s.log)
  {
    SentEmit(s.log, Settled(t, r, env.term));
  }

  lemma WhilePendingKeeps(env: Env, s: State, r: Record)
    requires WellFormed(s) && Fresh(r) && IsPending(s)
    ensures Keeps(s, r, WhilePending(env, s, r))
  {
    var t := s.tapping;
    if !Within(env.term, t, r.event) {
      SettledKeeps(env, s, r, t);
    } else if IsTappingRecord(t, r) && !r.event.pressed {
      var tapped := t.(tap := t.tap.(count := 1));
      SettleFront(env, s, tapped, r);
    } else if IsReleased(r.event) && !Typed(s.buf, r.event) {
      SentEmit(s.log, Direct(r));
    } else {
      assert Front(s.(tapping := t.(tap := t.tap.(interrupted := true)))) == Front(s);
    }
  }

  lemma WhileTappedKeeps(env: Env, s: State, r: Record)
    requires WellFormed(s) && Fresh(r)
    requires IsTapping(s) && s.tapping.event.pressed && s.tapping.tap.count > 0
    ensures Keeps(s, r, WhileTapped(env, s, r))
  {
    var t := s.tapping;
    if IsTappingRecord(t, r) && !r.event.pressed {
      DispatchedKeeps(s, if Within(env.term, t, r.event) then r.(tap := t.tap) else NO_RECORD, r, t.tap);
    } else if env.isTap(s.log, r.event.key) && r.event.pressed {
      StartTapKeeps(env, s, r);
      UnregisterKeeps(env, s, r, Unregister(Record(Event(t.event.key, false, r.event.time), t.tap)));
    } else {
      DispatchedKeeps(s, t, r, r.tap);
    }
  }

  /** A made-up release is not a real event. */
  lemma UnregisterKeeps(env: Env, s: State, r: Record, d: Dispatch)
    requires WellFormed(s) && !IsPending(s) && r.event.pressed && r.tap == NO_TAP && d.Unregister?
    ensures Keeps(s, r, StartTap(env, s.(log := Emit(s.log, d)), r))
  {
    var s' := s.(log := Emit(s.log, d));
    SentEmit(s.log, d);
    StartTapKeeps(env, s', r);
    SameBefore(s, s', r, StartTap(env, s', r));
  }

  lemma SameBefore(s: State, s': State, r: Record, o: Outcome)
    requires Keeps(s', r, o) && o.done && !IsPending(s) && !IsPending(s')
    requires Front(s') == Front(s) && s'.buf == s.buf && Dropped(s'.log) == Dropped(s.log)
    ensures Keeps(s, r, o)
  {
  }

  lemma AfterReleaseKeeps(env: Env, s: State, r: Record)
    requires WellFormed(s) && Fresh(r) && IsTapping(s) && !s.tapping.event.pressed
    ensures Keeps(s, r, AfterRelease(env, s, r))
  {
    var t := s.tapping;
    if !Within(env.term, t, r.event) {
    } else if !r.event.pressed {
      DispatchedKeeps(s, t, r, r.tap);
    } else if IsTappingRecord(t, r) {
      var tap := if t.tap.count < 15 then t.tap.(count := t.tap.count + 1) else t.tap;
      if !t.tap.interrupted {
        DispatchedKeeps(s, r.(tap := tap), r, tap);
      } else {
        BecomesPending(s, r);
        DoneKeeps(s, r, s.(tapping := r));
      }
    } else if env.isTap(s.log, r.event.key) {
      StartTapKeeps(env, s, r);
    } else {
      DispatchedKeeps(s, t.(tap := t.tap.(interrupted := true)), r, r.tap);
    }
  }

  lemma ProcessTappingKeeps(env: Env, s: State, r: Record)
    requires WellFormed(s) && Fresh(r)
    ensures Keeps(s, r, ProcessTapping(env, s, r))
  {
    if IsPending(s) {
      WhilePendingKeeps(env, s, r);
    } else if IsTapping(s) && s.tapping.event.pressed {
      WhileTappedKeeps(env, s, r);
    } else if IsTapping(s) {
      AfterReleaseKeeps(env, s, r);
    } else if r.event.pressed && env.isTap(s.log, r.event.key) {
      StartTapKeeps(env, s, r);
    } else {
      DispatchedKeeps(s, s.tapping, r, r.tap);
    }
  }

  // ---------- The line of events through a drain and a step ----------

  lemma {:induction false} OfKeyConcat(k: Key, a: seq<Event>, b: seq<Event>)
    ensures OfKey(k, a + b) == OfKey(k, a) + OfKey(k, b)
  {
    if b == [] {
      assert a + b == a;
    } else {
      assert (a + b)[..|a + b| - 1] == a + b[..|b| - 1];
      OfKeyConcat(k, a, b[..|b| - 1]);
    }
  }

  /** Same events, and the same order for each key. */
  ghost predicate SameOrder(a: seq<Event>, b: seq<Event>) {
    multiset(a) == multiset(b) && forall k :: OfKey(k, a) == OfKey(k, b)
  }

  lemma SwapKeepsOrder(a: seq<Event>, p: Event, r: Event, b: seq<Event>)
    requires p.key != r.key
    ensures SameOrder(a + [r, p] + b, a + [p, r] + b)
  {
    forall k
      ensures OfKey(k, a + [r, p] + b) == OfKey(k, a + [p, r] + b)
    {
      OfKeyConcat(k, a + [r, p], b);
      OfKeyConcat(k, a + [p, r], b);
      OfKeyConcat(k, a, [r, p]);
      OfKeyConcat(k, a, [p, r]);
      OfKeyPair(k, p, r);
    }
  }

  lemma OfKeyPair(k: Key, p: Event, r: Event)
    requires p.key != r.key
    ensures OfKey(k, [r, p]) == OfKey(k, [p, r])
  {
    OfKeyConcat(k, [r], [p]);
    OfKeyConcat(k, [p], [r]);
    assert [r] + [p] == [r, p] && [p] + [r] == [p, r];
    assert OfKey(k, [p]) == [] || OfKey(k, [r]) == [];
  }

  lemma SwapBeforeRest(a: seq<Event>, p: Event, r: Event, rest: seq<Event>)
    requires p.key != r.key
    ensures SameOrder(a + [r] + [p] + rest, a + [p] + ([r] + rest))
  {
    SwapKeepsOrder(a, p, r, rest);
    assert a + [r, p] + rest == a + [r] + [p] + rest;
    assert a + [p, r] + rest == a + [p] + ([r] + rest);
  }

  lemma PopLine(s: State, o: Outcome, rest: seq<Event>)
    requires WellFormed(s) && s.buf != [] && o.done && Keeps(s, s.buf[0], o)
    requires Events(s.buf) == [s.buf[0].event] + rest
    ensures SameOrder(Front(o.state) + rest, Line(s))
  {
    var r := s.buf[0];
    if IsPending(s) {
      SwapBeforeRest(Sent(s.log), s.tapping.event, r.event, rest);
    } else {
      Regroup(Front(s), r.event, rest);
    }
  }

  lemma Regroup(front: seq<Event>, e: Event, rest: seq<Event>)
    ensures front + [e] + rest == front + ([e] + rest)
  {
  }

  lemma EventsTail(rs: seq<Record>)
    requires rs != []
    ensures Events(rs) == [rs[0].event] + Events(rs[1..])
    ensures rs[0] in rs
    ensures forall r <- rs[1..] :: r in rs
  {
  }

  lemma PopWellFormed(s: State)
    requires WellFormed(s) && s.buf != []
    ensures WellFormed(s.(buf := s.buf[1..]))
  {
    EventsTail(s.buf);
  }

  lemma PopKeeps(s: State, o: Outcome)
    requires WellFormed(s) && s.buf != [] && o.done && Keeps(s, s.buf[0], o)
    ensures WellFormed(o.state.(buf := o.state.buf[1..]))
    ensures SameOrder(Line(o.state.(buf := o.state.buf[1..])), Line(s))
  {
    PopWellFormed(o.state);
    EventsTail(o.state.buf);
    var rest := Events(o.state.buf[1..]);
    assert Events(s.buf) == [s.buf[0].event] + rest by {
      assert Events(o.state.buf)[0] == s.buf[0].event;
    }
    PopLine(s, o, rest);
    assert Line(o.state.(buf := o.state.buf[1..])) == Front(o.state) + rest;
  }

  lemma AmendKeeps(s: State, o: Outcome)
    requires WellFormed(s) && s.buf != [] && !o.done && Keeps(s, s.buf[0], o)
    ensures var s' := o.state.(buf := o.state.buf[0 := o.record]);
            WellFormed(s') && Line(s') == Line(s)
  {
    assert Events(o.state.buf[0 := o.record]) == Events(s.buf);
  }

  lemma {:induction false} DrainKeeps(env: Env, s: State)
    requires WellFormed(s)
    ensures WellFormed(Drain(env, s))
    ensures SameOrder(Line(Drain(env, s)), Line(s))
    ensures Dropped(Drain(env, s).log) == Dropped(s.log)
    decreases |s.buf|
  {
    if s.buf != [] {
      var o := ProcessTapping(env, s, s.buf[0]);
      ProcessTappingKeeps(env, s, s.buf[0]);
      if o.done {
        PopKeeps(s, o);
        DrainKeeps(env, o.state.(buf := o.state.buf[1..]));
      } else {
        AmendKeeps(s, o);
      }
    }
  }

  /** The state a step hands to the drain. */
  function Admit(s: State, input: Input): State {
    var o := ProcessTapping(input.env, s, Record(input.event, NO_TAP));
    if o.done then o.state else Enqueue(o.state, o.record)
  }

  lemma OverflowKeeps(s: State, r: Record)
    requires WellFormed(s) && !IsNoEvent(r.event)
    ensures var s' := State(NO_RECORD, [], s.log + [ClearKeyboard(Lost(s, r))]);
            && Line(s') == Sent(s.log)
            && Dropped(s'.log) == Dropped(s.log) + multiset(Pending(s) + Events(s.buf) + [r.event])
  {
    SentSnoc(s.log, ClearKeyboard(Lost(s, r)));
    LostEvents(s, r);
    assert Sent(s.log) + [] + [] == Sent(s.log);
  }

  lemma LostEvents(s: State, r: Record)
    ensures Events(Lost(s, r)) == Pending(s) + Events(s.buf) + [r.event]
  {
  }

  lemma OverflowCounts(s: State, r: Record)
    requires WellFormed(s) && !IsNoEvent(r.event)
    ensures var s' := State(NO_RECORD, [], s.log + [ClearKeyboard(Lost(s, r))]);
            && multiset(Line(s')) + Dropped(s'.log) == multiset(Line(s)) + multiset([r.event]) + Dropped(s.log)
            && Dropped(s.log) < Dropped(s'.log)
  {
    OverflowKeeps(s, r);
    var lost := multiset(Pending(s) + Events(s.buf) + [r.event]);
    assert lost == multiset(Pending(s)) + multiset(Events(s.buf)) + multiset{r.event};
    assert r.event in lost;
  }

  lemma AppendKeeps(s: State, r: Record)
    requires WellFormed(s) && !IsNoEvent(r.event)
    ensures Line(s.(buf := s.buf + [r])) == Line(s) + [r.event]
  {
    assert Events(s.buf + [r]) == Events(s.buf) + [r.event];
  }

  lemma EnqueueKeeps(s: State, r: Record)
    requires WellFormed(s) && Fresh(r)
    ensures var s' := Enqueue(s, r);
            && WellFormed(s')
            && multiset(Line(s')) + Dropped(s'.log) == multiset(Line(s)) + multiset(Real(r.event)) + Dropped(s.log)
            && Dropped(s.log) <= Dropped(s'.log)
            && (Dropped(s.log) == Dropped(s'.log) ==> Line(s') == Line(s) + Real(r.event))
  {
    if IsNoEvent(r.event) {
    } else if |s.buf| + 1 == WAITING_BUFFER_SIZE {
      OverflowCounts(s, r);
    } else {
      AppendKeeps(s, r);
    }
  }

  lemma AdmittedKeeps(s: State, r: Record, o: Outcome)
    requires WellFormed(s) && o.done && Keeps(s, r, o)
    ensures multiset(Line(o.state)) == multiset(Line(s)) + multiset(Real(r.event))
  {
  }

  lemma AdmitKeeps(s: State, input: Input)
    requires WellFormed(s)
    ensures WellFormed(Admit(s, input))
    ensures multiset(Line(Admit(s, input))) + Dropped(Admit(s, input).log)
         == multiset(Line(s)) + multiset(Real(input.event)) + Dropped(s.log)
    ensures Dropped(s.log) <= Dropped(Admit(s, input).log)
  {
    var r := Record(input.event, NO_TAP);
    var o := ProcessTapping(input.env, s, r);
    ProcessTappingKeeps(input.env, s, r);
    if o.done {
      AdmittedKeeps(s, r, o);
    } else {
      EnqueueKeeps(o.state, o.record);
    }
  }

  // ---------- Conservation ----------

  lemma StepConserves(s: State, input: Input)
    requires WellFormed(s)
    ensures var s' := Step(s, input);
            && WellFormed(s')
            && multiset(Line(s')) + Dropped(s'.log) == multiset(Line(s)) + multiset(Real(input.event)) + Dropped(s.log)
            && Dropped(s.log) <= Dropped(s'.log)
  {
    AdmitKeeps(s, input);
    DrainKeeps(input.env, Admit(s, input));
  }

  /**
    Over every run, the events dispatched, the undecided press, the waiting records and the
    events dropped by overflows are together exactly the real events received.
  */
  lemma {:induction false} Conservation(inputs: seq<Input>)
    ensures var s := Run(INITIAL, inputs);
            && WellFormed(s)
            && multiset(Sent(s.log)) + multiset(Pending(s)) + multiset(Events(s.buf)) + Dropped(s.log)
            == multiset(Arrived(inputs))
  {
    if inputs != [] {
      var before := inputs[..|inputs| - 1];
      Conservation(before);
      StepConserves(Run(INITIAL, before), inputs[|inputs| - 1]);
    }
  }

  // ---------- Order ----------

  predicate Alternates(es: seq<Event>) {
    forall i :: 0 < i < |es| ==> es[i].pressed != es[i - 1].pressed
  }

  predicate IsWaiting(s: State, k: Key) {
    exists i :: 0 <= i < |s.buf| && s.buf[i].event.key == k
  }

  /**
    An arriving event takes its turn behind the waiting events of its own key: there are none,
    or a tap key is undecided, or the sequential-tap window is over, so that it has to queue.
  */
  predicate InTurn(s: State, input: Input) {
    || !IsWaiting(s, input.event.key)
    || IsPending(s)
    || (IsTapping(s) && !s.tapping.event.pressed && !Within(input.env.term, s.tapping, input.event))
  }

  lemma {:induction false} OfKeyWaiting(s: State, k: Key)
    ensures OfKey(k, Events(s.buf)) == [] <==> !IsWaiting(s, k)
    ensures OfKey(k, Events(s.buf)) != [] ==>
              var last := OfKey(k, Events(s.buf))[|OfKey(k, Events(s.buf))| - 1];
              exists i :: 0 <= i < |s.buf| && s.buf[i].event == last && last.key == k
    decreases |s.buf|
  {
    if s.buf != [] {
      var n := |s.buf| - 1;
      var s' := s.(buf := s.buf[..n]);
      OfKeyWaiting(s', k);
      assert Events(s.buf)[..n] == Events(s'.buf);
      assert s.buf[n].event == Events(s.buf)[n];
      assert forall i :: 0 <= i < n ==> s.buf[i] == s'.buf[i];
    }
  }

  lemma LineOfKey(s: State, k: Key)
    ensures OfKey(k, Line(s)) == OfKey(k, Front(s)) + OfKey(k, Events(s.buf))
    ensures OfKey(k, Line(s)) == OfKey(k, Sent(s.log)) + OfKey(k, Pending(s)) + OfKey(k, Events(s.buf))
  {
    OfKeyConcat(k, Front(s), Events(s.buf));
    OfKeyConcat(k, Sent(s.log), Pending(s));
  }

  lemma OfKeyReal(k: Key, e: Event)
    ensures OfKey(k, [e]) == if e.key == k then [e] else []
  {
  }

  lemma SwappedFront(k: Key, a: seq<Event>, p: Event, r: Event)
    requires p.key != r.key
    ensures OfKey(k, a + [r] + [p]) == OfKey(k, a + [p]) + OfKey(k, [r])
  {
    SwapBeforeRest(a, p, r, []);
    OfKeyConcat(k, a + [p], [r]);
    assert a + [r] + [p] + [] == a + [r] + [p];
    assert [r] + [] == [r];
  }

  /** A record dispatched or made the tapping key on arrival comes before the waiting ones. */
  lemma DoneOrder(s: State, r: Record, o: Outcome, k: Key)
    requires WellFormed(s) && !IsNoEvent(r.event) && o.done && Keeps(s, r, o)
    ensures OfKey(k, Line(o.state)) == OfKey(k, Front(s)) + OfKey(k, [r.event]) + OfKey(k, Events(s.buf))
  {
    OfKeyConcat(k, Front(o.state), Events(o.state.buf));
    if IsPending(s) {
      SwappedFront(k, Sent(s.log), s.tapping.event, r.event);
    } else {
      OfKeyConcat(k, Front(s), [r.event]);
    }
  }

  /** With alternating polarity, going ahead of waiting events of the same key shows. */
  lemma AheadShows(f: seq<Event>, b: seq<Event>, e: Event)
    requires Alternates(f + b + [e])
    ensures f + [e] + b == f + b + [e] <==> b == []
    ensures b != [] ==> b[|b| - 1].pressed != e.pressed
  {
    var all := f + b + [e];
    var n := |f| + |b|;
    if b == [] {
      assert f + [e] + b == f + b + [e];
    } else {
      assert all[n] == e && all[n - 1] == b[|b| - 1];
      assert (f + [e] + b)[n] == b[|b| - 1];
    }
  }

  lemma DoneInTurn(s: State, r: Record, o: Outcome)
    requires WellFormed(s) && !IsNoEvent(r.event) && o.done && Keeps(s, r, o)
    requires Alternates(OfKey(r.event.key, Line(s) + [r.event]))
    ensures OfKey(r.event.key, Line(o.state)) == OfKey(r.event.key, Line(s)) + [r.event]
       <==> !IsWaiting(s, r.event.key)
    ensures IsPending(s) ==> !IsWaiting(s, r.event.key)
  {
    var k := r.event.key;
    DoneOrder(s, r, o, k);
    OfKeyConcat(k, Front(s), Events(s.buf));
    OfKeyWaiting(s, k);
    OfKeyReal(k, r.event);
    OfKeyConcat(k, Line(s), [r.event]);
    AheadShows(OfKey(k, Front(s)), OfKey(k, Events(s.buf)), r.event);
  }

  /** Only an undecided tap key or a closed sequential-tap window makes a record wait. */
  lemma DoneExactly(env: Env, s: State, r: Record)
    requires !IsPending(s)
    ensures ProcessTapping(env, s, r).done
       <==> !(IsTapping(s) && !s.tapping.event.pressed && !Within(env.term, s.tapping, r.event))
  {
  }

  lemma DoneOthers(s: State, r: Record, o: Outcome, k: Key)
    requires WellFormed(s) && !IsNoEvent(r.event) && o.done && Keeps(s, r, o)
    requires k != r.event.key
    ensures OfKey(k, Line(o.state)) == OfKey(k, Line(s))
  {
    DoneOrder(s, r, o, k);
    LineOfKey(s, k);
    OfKeyReal(k, r.event);
  }

  lemma AppendedOrder(a: seq<Event>, e: Event, k: Key)
    ensures OfKey(k, a + [e]) == OfKey(k, a) + if e.key == k then [e] else []
  {
    OfKeyConcat(k, a, [e]);
    OfKeyReal(k, e);
  }

  /** What admission does to the key that arrives, and to the others. */
  lemma AdmitOrder(s: State, input: Input)
    requires WellFormed(s) && !IsNoEvent(input.event)
    requires Dropped(Admit(s, input).log) == Dropped(s.log)
    requires Alternates(OfKey(input.event.key, Line(s) + [input.event]))
    ensures var k := input.event.key;
            OfKey(k, Line(Admit(s, input))) == OfKey(k, Line(s)) + [input.event] <==> InTurn(s, input)
    ensures forall k :: k != input.event.key ==> OfKey(k, Line(Admit(s, input))) == OfKey(k, Line(s))
  {
    var r := Record(input.event, NO_TAP);
    var o := ProcessTapping(input.env, s, r);
    ProcessTappingKeeps(input.env, s, r);
    if !IsPending(s) {
      DoneExactly(input.env, s, r);
    }
    if o.done {
      DoneInTurn(s, r, o);
      forall k | k != input.event.key
        ensures OfKey(k, Line(o.state)) == OfKey(k, Line(s))
      {
        DoneOthers(s, r, o, k);
      }
    } else {
      EnqueueKeeps(o.state, o.record);
      forall k
        ensures OfKey(k, Line(s) + [input.event]) == OfKey(k, Line(s)) + if input.event.key == k then [input.event] else []
      {
        AppendedOrder(Line(s), input.event, k);
      }
    }
  }

  /**
    One step, exactly: provided nothing overflows, an arriving event joins the events of its
    own key in arrival order if and only if it is in turn; other keys are never disturbed.
  */
  lemma StepOrder(s: State, input: Input)
    requires WellFormed(s) && !IsNoEvent(input.event)
    requires Dropped(Step(s, input).log) == Dropped(s.log)
    requires Alternates(OfKey(input.event.key, Line(s) + [input.event]))
    ensures var k := input.event.key;
            OfKey(k, Line(Step(s, input))) == OfKey(k, Line(s)) + [input.event] <==> InTurn(s, input)
    ensures forall k :: k != input.event.key ==> OfKey(k, Line(Step(s, input))) == OfKey(k, Line(s))
  {
    AdmitKeeps(s, input);
    DrainKeeps(input.env, Admit(s, input));
    AdmitOrder(s, input);
  }

  lemma TickOrder(s: State, input: Input)
    requires WellFormed(s) && IsNoEvent(input.event)
    ensures SameOrder(Line(Step(s, input)), Line(s))
  {
    var r := Record(input.event, NO_TAP);
    ProcessTappingKeeps(input.env, s, r);
    AdmitKeeps(s, input);
    DrainKeeps(input.env, Admit(s, input));
    var o := ProcessTapping(input.env, s, r);
    assert Front(o.state) == Front(s);
  }

  /** Every event of the run arrives in turn. */
  predicate AllInTurn(inputs: seq<Input>) {
    inputs == [] ||
    var before, last := inputs[..|inputs| - 1], inputs[|inputs| - 1];
    AllInTurn(before) && (IsNoEvent(last.event) || InTurn(Run(INITIAL, before), last))
  }

  ghost predicate KeysAlternate(inputs: seq<Input>) {
    forall k :: Alternates(OfKey(k, Arrived(inputs)))
  }

  lemma KeysAlternatePrefix(inputs: seq<Input>)
    requires inputs != [] && KeysAlternate(inputs)
    ensures KeysAlternate(inputs[..|inputs| - 1])
  {
    var before, e := inputs[..|inputs| - 1], inputs[|inputs| - 1].event;
    forall k
      ensures Alternates(OfKey(k, Arrived(before)))
    {
      OfKeyConcat(k, Arrived(before), Real(e));
      var all := OfKey(k, Arrived(inputs));
      assert forall i :: 0 <= i < |OfKey(k, Arrived(before))| ==> all[i] == OfKey(k, Arrived(before))[i];
    }
  }

  lemma OrderExtends(s: State, input: Input, k: Key, received: seq<Event>)
    requires WellFormed(s)
    requires Dropped(Step(s, input).log) == Dropped(s.log)
    requires IsNoEvent(input.event) || InTurn(s, input)
    requires OfKey(k, Line(s)) == OfKey(k, received)
    requires OfKey(input.event.key, Line(s)) == OfKey(input.event.key, received)
    requires Alternates(OfKey(input.event.key, received + Real(input.event)))
    ensures OfKey(k, Line(Step(s, input))) == OfKey(k, received + Real(input.event))
  {
    var e := input.event;
    if IsNoEvent(e) {
      TickOrder(s, input);
      assert received + Real(e) == received;
    } else {
      AppendedOrder(Line(s), e, e.key);
      AppendedOrder(received, e, e.key);
      AppendedOrder(received, e, k);
      StepOrder(s, input);
    }
  }

  lemma NothingDroppedBefore(inputs: seq<Input>)
    requires inputs != [] && Dropped(Run(INITIAL, inputs).log) == multiset{}
    ensures var s := Run(INITIAL, inputs[..|inputs| - 1]);
            WellFormed(s) && Dropped(s.log) == multiset{}
  {
    Conservation(inputs[..|inputs| - 1]);
    StepConserves(Run(INITIAL, inputs[..|inputs| - 1]), inputs[|inputs| - 1]);
  }

  /**
    Over every run without overflow in which each key alternates and every event arrives in
    turn, each key's events are dispatched in the order they arrived: those dispatched, then
    the undecided press, then those waiting are the ones received.
  */
  lemma {:induction false} PerKeyOrder(inputs: seq<Input>, k: Key)
    requires KeysAlternate(inputs) && AllInTurn(inputs)
    requires Dropped(Run(INITIAL, inputs).log) == multiset{}
    ensures var s := Run(INITIAL, inputs);
            OfKey(k, Sent(s.log)) + OfKey(k, Pending(s)) + OfKey(k, Events(s.buf)) == OfKey(k, Arrived(inputs))
  {
    LineOfKey(Run(INITIAL, inputs), k);
    if inputs != [] {
      var before, last := inputs[..|inputs| - 1], inputs[|inputs| - 1];
      var s := Run(INITIAL, before);
      NothingDroppedBefore(inputs);
      KeysAlternatePrefix(inputs);
      PerKeyOrder(before, k);
      PerKeyOrder(before, last.event.key);
      LineOfKey(s, k);
      LineOfKey(s, last.event.key);
      assert Alternates(OfKey(last.event.key, Arrived(inputs)));
      OrderExtends(s, last, k, Arrived(before));
    }
  }

  // ---------- An event out of turn ----------

  /** Keys of columns 0 and 1 are tap keys, the others are not. */
  const EXAMPLE_ENV := Env(200, (_, key: Key) => key.col < 2, (_, _) => false, (_, _) => false)

  function ExampleRecord(col: u8, pressed: bool, time: u16): Record {
    Record(Event(Key(0, col), pressed, time), NO_TAP)
  }

  function ExampleStep(s: State, col: u8, pressed: bool, time: u16): State {
    Step(s, Input(Event(Key(0, col), pressed, time), EXAMPLE_ENV))
  }

  /** Two tap keys are pressed; the second waits for the first to be decided. */
  lemma TwoTapKeys()
    ensures ExampleStep(ExampleStep(INITIAL, 0, true, 1000), 1, true, 1050)
         == State(ExampleRecord(0, true, 1000).(tap := Tap(true, 0)), [ExampleRecord(1, true, 1050)], [])
  {
    assert ExampleStep(INITIAL, 0, true, 1000) == State(ExampleRecord(0, true, 1000), [], []);
  }

  function Held(t: Record, cause: Record): Dispatch {
    Settled(t, cause, 200)
  }

  /** The next press comes too late for both; the second timeout stops the drain. */
  lemma DrainStops(s: State, t: Record, j: Record, k: Record)
    requires t == ExampleRecord(0, true, 1000).(tap := Tap(true, 0))
    requires j == ExampleRecord(1, true, 1050) && k == ExampleRecord(2, true, 1300)
    requires s == State(t, [j], [])
    ensures ExampleStep(s, 2, true, 1300) == State(NO_RECORD, [k], [Held(t, k), Held(j, k)])
  {
    var a := State(NO_RECORD, [j, k], [Held(t, k)]);
    assert Admit(s, Input(k.event, EXAMPLE_ENV)) == a;
    var b := State(j, [k], [Held(t, k)]);
    assert FirstSettling(200, j, [j, k]) == 2;
    assert ProcessTapping(EXAMPLE_ENV, a, j) == Outcome(true, a.(tapping := j), j);
    assert Drain(EXAMPLE_ENV, a) == Drain(EXAMPLE_ENV, b);
    var o := Outcome(false, State(NO_RECORD, [k], [Held(t, k), Held(j, k)]), k);
    assert ProcessTapping(EXAMPLE_ENV, b, k) == o;
    assert Drain(EXAMPLE_ENV, b) == o.state;
  }

  /**
    Being in turn matters.  A timeout settles the second tap key from within the buffer, so
    the drain stops with a press waiting and no tap key undecided; the release that then
    arrives is out of turn, and is dispatched ahead of its own press.
  */
  lemma OutOfTurnReorders(t: Record, j: Record, k: Record, k': Record)
    requires t == ExampleRecord(0, true, 1000).(tap := Tap(true, 0)) && j == ExampleRecord(1, true, 1050)
    requires k == ExampleRecord(2, true, 1300) && k' == ExampleRecord(2, false, 1310)
    ensures var s := ExampleStep(ExampleStep(ExampleStep(INITIAL, 0, true, 1000), 1, true, 1050), 2, true, 1300);
            && !InTurn(s, Input(k'.event, EXAMPLE_ENV))
            && ExampleStep(s, 2, false, 1310).log == [Held(t, k), Held(j, k), Direct(k'), Direct(k)]
  {
    TwoTapKeys();
    var s2 := State(t, [j], []);
    DrainStops(s2, t, j, k);
    var log := [Held(t, k), Held(j, k)];
    var a := State(NO_RECORD, [k], log + [Direct(k')]);
    assert s2.buf[0] == j;
    assert Admit(State(NO_RECORD, [k], log), Input(k'.event, EXAMPLE_ENV)) == a;
    var b := State(NO_RECORD, [k], log + [Direct(k')] + [Direct(k)]);
    assert ProcessTapping(EXAMPLE_ENV, a, k) == Outcome(true, b, k);
    assert Drain(EXAMPLE_ENV, a) == b.(buf := []);
  }
}
