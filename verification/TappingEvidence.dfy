/** Why each tap-or-hold decision was taken, over every run. */
module TappingEvidence {
  import opened KeyRecords
  import opened TappingModel
  import opened TappingOrder

  /**
    A deferred press is dispatched as a tap because its own release, within the term, is at
    hand, and as a hold because a record at or past the term is.  A press dispatched directly
    is an ordinary key or a second or later tap.  A release is made up only after two taps.
  */
  predicate Justified(d: Dispatch, seen: seq<Event>) {
    match d
    case Settled(r, cause, term) =>
      && r.event in seen && cause.event in seen
      && r.event.pressed
      && (if r.tap.count == 0 then !Within(term, r, cause.event)
          else r.tap.count == 1 && Settles(term, r, cause))
    case Cancelled(r, cause, term) =>
      && r.event in seen && cause.event in seen
      && r.event.pressed && r.tap == Tap(true, 1) && Settles(term, r, cause)
    case Direct(r) =>
      r.event in seen && (r.event.pressed ==> r.tap.count != 1)
    case Unregister(r) =>
      !r.event.pressed && r.tap.count > 1
    case ClearKeyboard(_) =>
      true
  }

  predicate Evidence(s: State, seen: seq<Event>) {
    && (forall d <- s.log :: Justified(d, seen))
    && (forall r <- s.buf :: r.event in seen)
    && (IsTapping(s) ==> s.tapping.event in seen)
  }

  lemma ScanEvidence(env: Env, s: State, seen: seq<Event>)
    requires Evidence(s, seen)
    ensures Evidence(ScanTap(env, s), seen)
  {
  }

  lemma WhilePendingEvidence(env: Env, s: State, r: Record, seen: seq<Event>)
    requires WellFormed(s) && Fresh(r) && Evidence(s, seen) && r.event in seen && IsPending(s)
    ensures Evidence(WhilePending(env, s, r).state, seen)
  {
  }

  lemma WhileTappedEvidence(env: Env, s: State, r: Record, seen: seq<Event>)
    requires WellFormed(s) && Fresh(r) && Evidence(s, seen) && r.event in seen
    requires IsTapping(s) && s.tapping.event.pressed && s.tapping.tap.count > 0
    ensures Evidence(WhileTapped(env, s, r).state, seen)
  {
    var t := s.tapping;
    var unregister := Unregister(Record(Event(t.event.key, false, r.event.time), t.tap));
    var s' := if t.tap.count > 1 then s.(log := Emit(s.log, unregister)) else s;
    ScanEvidence(env, s'.(tapping := r), seen);
  }

  lemma AfterReleaseEvidence(env: Env, s: State, r: Record, seen: seq<Event>)
    requires WellFormed(s) && Fresh(r) && Evidence(s, seen) && r.event in seen
    requires IsTapping(s) && !s.tapping.event.pressed
    ensures Evidence(AfterRelease(env, s, r).state, seen)
  {
    ScanEvidence(env, s.(tapping := r), seen);
  }

  lemma ProcessTappingEvidence(env: Env, s: State, r: Record, seen: seq<Event>)
    requires WellFormed(s) && Fresh(r) && Evidence(s, seen) && r.event in seen
    ensures Evidence(ProcessTapping(env, s, r).state, seen)
  {
    if IsPending(s) {
      WhilePendingEvidence(env, s, r, seen);
    } else if IsTapping(s) && s.tapping.event.pressed {
      WhileTappedEvidence(env, s, r, seen);
    } else if IsTapping(s) {
      AfterReleaseEvidence(env, s, r, seen);
    } else {
      ScanEvidence(env, s.(tapping := r), seen);
    }
  }

  lemma {:induction false} DrainEvidence(env: Env, s: State, seen: seq<Event>)
    requires WellFormed(s) && Evidence(s, seen)
    ensures Evidence(Drain(env, s), seen)
    decreases |s.buf|
  {
    if s.buf != [] {
      var o := ProcessTapping(env, s, s.buf[0]);
      ProcessTappingKeeps(env, s, s.buf[0]);
      ProcessTappingEvidence(env, s, s.buf[0], seen);
      if o.done {
        PopKeeps(s, o);
        DrainEvidence(env, o.state.(buf := o.state.buf[1..]), seen);
      }
    }
  }

  lemma EnqueueEvidence(s: State, r: Record, seen: seq<Event>)
    requires Evidence(s, seen) && r.event in seen
    ensures Evidence(Enqueue(s, r), seen)
  {
  }

  lemma StepEvidence(s: State, input: Input, seen: seq<Event>)
    requires WellFormed(s) && Evidence(s, seen) && input.event in seen
    ensures Evidence(Step(s, input), seen)
  {
    var r := Record(input.event, NO_TAP);
    ProcessTappingKeeps(input.env, s, r);
    ProcessTappingEvidence(input.env, s, r, seen);
    var o := ProcessTapping(input.env, s, r);
    if !o.done {
      EnqueueEvidence(o.state, o.record, seen);
    }
    AdmitKeeps(s, input);
    DrainEvidence(input.env, Admit(s, input), seen);
  }

  function Seen(inputs: seq<Input>): seq<Event> {
    if inputs == [] then [] else Seen(inputs[..|inputs| - 1]) + [inputs[|inputs| - 1].event]
  }

  lemma SeenMore(s: State, seen: seq<Event>, e: Event)
    requires Evidence(s, seen)
    ensures Evidence(s, seen + [e])
  {
    assert forall x <- seen :: x in seen + [e];
    forall d <- s.log
      ensures Justified(d, seen + [e])
    {
    }
  }

  /** Over every run, every dispatch is justified by the events seen. */
  lemma {:induction false} TapEvidence(inputs: seq<Input>)
    ensures var s := Run(INITIAL, inputs);
            && Evidence(s, Seen(inputs))
            && (IsTapping(s) && !s.tapping.event.pressed ==> s.tapping.tap.count > 0)
  {
    Conservation(inputs);
    if inputs != [] {
      var before := inputs[..|inputs| - 1];
      TapEvidence(before);
      Conservation(before);
      SeenMore(Run(INITIAL, before), Seen(before), inputs[|inputs| - 1].event);
      StepEvidence(Run(INITIAL, before), inputs[|inputs| - 1], Seen(inputs));
    }
  }
}
