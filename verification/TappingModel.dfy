/**
  Tap/hold resolution as a state machine on values.  `ProcessTapping` decides one
  record, `Drain` re-examines the waiting buffer, and `Step` handles one event from
  the matrix.  The imperative class in ActionTapping.dfy is proved to compute them.
*/
module TappingModel {
  import opened KeyRecords
  import opened Machine

  const WAITING_BUFFER_SIZE := 8

  /**
    What reaches `process_record`, in order.  A `Settled` entry is the deferred press of
    the tapping key; it names the record that settled it and the tapping term in force.
    A `Cancelled` entry is such a press dispatched as a tap whose processing takes it back, because
    another key has interrupted it: the key is undecided again.
    An `Unregister` entry is the release made up for a key tapped more than once.
    A `ClearKeyboard` entry is an overflow, with the records it throws away.
  */
  datatype Dispatch =
    | Direct(record: Record)
    | Settled(record: Record, cause: Record, term: u16)
    | Cancelled(record: Record, cause: Record, term: u16)
    | Unregister(record: Record)
    | ClearKeyboard(lost: seq<Record>)

  /**
    The surroundings of one call: the tapping term, whether a key's current action is a
    tap action, whether a release is a modifier that must be retained, and whether the
    processing of an interrupted tap takes it back.  The answers
    may depend on everything dispatched so far, because dispatching changes layers.
  */
  datatype Env = Env(
    term: u16,
    isTap: (seq<Dispatch>, Key) -> bool,
    retains: (seq<Dispatch>, Record) -> bool,
    cancels: (seq<Dispatch>, Record) -> bool)

  datatype Input = Input(event: Event, env: Env)

  datatype State = State(tapping: Record, buf: seq<Record>, log: seq<Dispatch>)

  const INITIAL := State(NO_RECORD, [], [])

  predicate IsTapping(s: State) { !IsNoEvent(s.tapping.event) }

  /** A tap key is down and not yet decided between tap and hold. */
  predicate IsPending(s: State) {
    IsTapping(s) && s.tapping.event.pressed && s.tapping.tap.count == 0
  }

  predicate IsTappingRecord(t: Record, r: Record) {
    !IsNoEvent(t.event) && t.event.key == r.event.key
  }

  predicate Within(term: u16, t: Record, e: Event) {
    Wrap16(e.time - t.event.time) < term
  }

  /** `process_record` ignores an empty event. */
  function Emit(log: seq<Dispatch>, d: Dispatch): seq<Dispatch> {
    if !d.ClearKeyboard? && IsNoEvent(d.record.event) then log else log + [d]
  }

  predicate Cancels(env: Env, log: seq<Dispatch>, t: Record) {
    t.tap.interrupted && env.cancels(log, t)
  }

  /** The tapping key and the log once the key has been dispatched as a tap. */
  function Settle(env: Env, log: seq<Dispatch>, t: Record, cause: Record): (Record, seq<Dispatch>) {
    if Cancels(env, log, t) then (t.(tap := t.tap.(count := 0)), Emit(log, Cancelled(t, cause, env.term)))
    else (t, Emit(log, Settled(t, cause, env.term)))
  }

  predicate Typed(buf: seq<Record>, e: Event) {
    exists i :: 0 <= i < |buf| && buf[i].event.key == e.key && buf[i].event.pressed != e.pressed
  }

  predicate Settles(term: u16, t: Record, r: Record) {
    IsTappingRecord(t, r) && !r.event.pressed && Within(term, t, r.event)
  }

  /** Index of the first buffered release that makes `t` a tap, or the buffer's length. */
  function FirstSettling(term: u16, t: Record, buf: seq<Record>): (i: nat)
    ensures i <= |buf|
    ensures i < |buf| ==> Settles(term, t, buf[i])
    ensures forall j :: 0 <= j < i ==> !Settles(term, t, buf[j])
  {
    if buf == [] then 0
    else if Settles(term, t, buf[0]) then 0
    else 1 + FirstSettling(term, t, buf[1..])
  }

  function ScanTap(env: Env, s: State): (s': State)
    ensures |s'.buf| == |s.buf|
  {
    var i := FirstSettling(env.term, s.tapping, s.buf);
    if s.tapping.tap.count > 0 || !s.tapping.event.pressed || i == |s.buf| then s
    else
      var (t, log) := Settle(env, s.log, s.tapping.(tap := s.tapping.tap.(count := 1)), s.buf[i]);
      State(t, s.buf[i := s.buf[i].(tap := s.buf[i].tap.(count := 1))], log)
  }

  /** The record examined, as the call leaves it, and whether it is finished with. */
  datatype Outcome = Outcome(done: bool, state: State, record: Record)

  function Dispatched(s: State, r: Record): Outcome {
    Outcome(true, s.(log := Emit(s.log, Direct(r))), r)
  }

  function StartTap(env: Env, s: State, r: Record): Outcome {
    Outcome(true, ScanTap(env, s.(tapping := r)), r)
  }

  /** Tapping key held and undecided. */
  function WhilePending(env: Env, s: State, r: Record): Outcome {
    var t := s.tapping;
    if Within(env.term, t, r.event) then
      if IsTappingRecord(t, r) && !r.event.pressed then
        var (tapped, log) := Settle(env, s.log, t.(tap := t.tap.(count := 1)), r);
        Outcome(false, s.(tapping := tapped, log := log), r.(tap := tapped.tap))
      else if IsReleased(r.event) && !Typed(s.buf, r.event) then
        if env.retains(s.log, r) then Outcome(false, s, r) else Dispatched(s, r)
      else
        Outcome(false, if r.event.pressed then s.(tapping := t.(tap := t.tap.(interrupted := true))) else s, r)
    else
      Outcome(false, s.(tapping := NO_RECORD, log := Emit(s.log, Settled(t, r, env.term))), r)
  }

  /** Tapping key held and already known to be a tap. */
  function WhileTapped(env: Env, s: State, r: Record): Outcome {
    var t := s.tapping;
    if IsTappingRecord(t, r) && !r.event.pressed then
      var r' := r.(tap := t.tap);
      var released := s.(tapping := if Within(env.term, t, r.event) then r' else NO_RECORD);
      Dispatched(released, r')
    else if env.isTap(s.log, r.event.key) && r.event.pressed then
      var unregister := Unregister(Record(Event(t.event.key, false, r.event.time), t.tap));
      StartTap(env, if t.tap.count > 1 then s.(log := Emit(s.log, unregister)) else s, r)
    else
      Dispatched(s, r)
  }

  /** Tapping key just released: another press of it may be a further tap. */
  function AfterRelease(env: Env, s: State, r: Record): Outcome {
    var t := s.tapping;
    if !Within(env.term, t, r.event) then
      Outcome(false, s.(tapping := NO_RECORD), r)
    else if !r.event.pressed then
      Dispatched(s, r)
    else if IsTappingRecord(t, r) then
      if !t.tap.interrupted && t.tap.count > 0 then
        var r' := r.(tap := if t.tap.count < 15 then t.tap.(count := t.tap.count + 1) else t.tap);
        Dispatched(s.(tapping := r'), r')
      else
        Outcome(true, s.(tapping := r), r)
    else if env.isTap(s.log, r.event.key) then
      StartTap(env, s, r)
    else
      Dispatched(s.(tapping := t.(tap := t.tap.(interrupted := true))), r)
  }

  function ProcessTapping(env: Env, s: State, r: Record): (o: Outcome)
    ensures |o.state.buf| == |s.buf|
  {
    if IsPending(s) then WhilePending(env, s, r)
    else if IsTapping(s) && s.tapping.event.pressed then WhileTapped(env, s, r)
    else if IsTapping(s) then AfterRelease(env, s, r)
    else if r.event.pressed && env.isTap(s.log, r.event.key) then StartTap(env, s, r)
    else Dispatched(s, r)
  }

  /** Re-examines the oldest waiting records until one of them has to go on waiting. */
  function Drain(env: Env, s: State): State
    decreases |s.buf|
  {
    if s.buf == [] then s
    else
      var o := ProcessTapping(env, s, s.buf[0]);
      if o.done then Drain(env, o.state.(buf := o.state.buf[1..]))
      else o.state.(buf := o.state.buf[0 := o.record])
  }

  function Lost(s: State, r: Record): seq<Record> {
    (if IsPending(s) then [s.tapping] else []) + s.buf + [r]
  }

  /** Puts a record that is not finished with at the end of the queue. */
  function Enqueue(s: State, r: Record): State {
    if IsNoEvent(r.event) then s
    else if |s.buf| + 1 == WAITING_BUFFER_SIZE then
      State(NO_RECORD, [], s.log + [ClearKeyboard(Lost(s, r))])
    else s.(buf := s.buf + [r])
  }

  function Step(s: State, input: Input): State {
    var o := ProcessTapping(input.env, s, Record(input.event, NO_TAP));
    Drain(input.env, if o.done then o.state else Enqueue(o.state, o.record))
  }

  function Run(s: State, inputs: seq<Input>): State {
    if inputs == [] then s
    else Step(Run(s, inputs[..|inputs| - 1]), inputs[|inputs| - 1])
  }
}
