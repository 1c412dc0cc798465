/**
  Deferred execution in time that does not wrap around: which calls are early, and how late an
  entry may be and still be called.
*/
module DeferredTiming {
  import opened Machine
  import opened DeferredModel

  /** Half the range of the millisecond timer. */
  const HALF: int := 0x8000_0000

  /** When a call was due, and when it was made. */
  datatype Timing = Timing(due: nat, at: nat)

  /**
    The scheduler with an unbounded clock beside it: when each entry is really due, when the last
    pass over the table really was, and the times of the calls in the log.
  */
  datatype Timed = Timed(s: State, dues: seq<nat>, lastAt: nat, timings: seq<Timing>)

  /** The operation reads the timer at time `t`. */
  predicate ReadsAt(op: Op, t: nat) {
    op.Defer? || op.Extend? || op.Task? ==> op.now == Wrap32(t)
  }

  // ---------- The task ----------

  /** The due times and call times after the first `n` entries have been dealt with. */
  function TimesDue(table: seq<Entry>, n: nat, t: nat, respond: Respond, log: seq<Call>, dues: seq<nat>, timings: seq<Timing>): (r: (seq<nat>, seq<Timing>))
    requires n <= |table| == |dues|
    ensures |r.0| == |dues| && r.0[n..] == dues[n..]
  {
    if n == 0 then (dues, timings)
    else
      var r := TimesDue(table, n - 1, t, respond, log, dues, timings);
      if Due(table[n - 1], Wrap32(t)) then
        var c := CallOf(table[n - 1], Wrap32(t), respond, RunDue(table, n - 1, Wrap32(t), respond, log).log);
        (r.0[n - 1 := dues[n - 1] + c.delay], r.1 + [Timing(dues[n - 1], t)])
      else r
  }

  function TimedStep(ts: Timed, op: Op, t: nat): Timed
    requires |ts.dues| == |ts.s.table|
  {
    var s' := Step(ts.s, op);
    match op
    case Defer(delay, callback, _, _) =>
      var i := SlotOf(ts.s.table, INVALID_DEFERRED_TOKEN);
      if DeferResult(ts.s, delay, callback) == INVALID_DEFERRED_TOKEN then ts.(s := s')
      else ts.(s := s', dues := ts.dues[i := t + delay])
    case Extend(token, delay, _) =>
      if delay == 0 || !IsLive(ts.s.table, token) then ts.(s := s')
      else ts.(s := s', dues := ts.dues[SlotOf(ts.s.table, token) := t + delay])
    case Cancel(_) => ts.(s := s')
    case Elsewhere(_) => ts.(s := s')
    case Task(now, respond) =>
      if Signed32(Wrap32(now - ts.s.last)) <= 0 then ts.(s := s')
      else
        var r := TimesDue(ts.s.table, |ts.s.table|, t, respond, ts.s.log, ts.dues, ts.timings);
        Timed(s', r.0, t, r.1)
  }

  function TimedRun(count: nat, ops: seq<Op>, times: seq<nat>): (ts: Timed)
    requires |times| == |ops|
    ensures |ts.dues| == |ts.s.table| == count
  {
    if ops == [] then Timed(State(seq(count, _ => FREE), 0, 0, []), seq(count, _ => 0), 0, [])
    else
      var n := |ops| - 1;
      var before := TimedRun(count, ops[..n], times[..n]);
      StepCount(before.s, ops[n]);
      TimedStep(before, ops[n], times[n])
  }

  lemma StepCount(s: State, op: Op)
    ensures |Step(s, op).table| == |s.table|
  {
  }

  /** Keeping the times does not change what the scheduler does. */
  lemma {:induction false} SameRun(count: nat, ops: seq<Op>, times: seq<nat>)
    requires |times| == |ops|
    ensures TimedRun(count, ops, times).s == Run(State(seq(count, _ => FREE), 0, 0, []), ops)
  {
    if ops != [] {
      SameRun(count, ops[..|ops| - 1], times[..|ops| - 1]);
    }
  }

  // ---------- The signed comparison ----------

  /** An entry is taken to be due exactly if it is overdue by at most half the range, modulo the range. */
  lemma ReachedExactly(due: nat, t: nat)
    ensures Reached(Wrap32(due), Wrap32(t)) <==> Wrap32(t - due) <= HALF
  {
    WrapMinus(due, t);
    WrapOpposite(t - due);
  }

  lemma WrapMinus(a: int, b: int)
    ensures Wrap32(Wrap32(a) - Wrap32(b)) == Wrap32(a - b)
  {
  }

  lemma WrapOpposite(d: int)
    ensures Wrap32(-d) == if Wrap32(d) == 0 then 0 else 2 * HALF - Wrap32(d)
  {
  }

  lemma SmallWrap(d: int)
    ensures 0 <= d < 2 * HALF ==> Wrap32(d) == d
    ensures -2 * HALF <= d < 0 ==> Wrap32(d) == d + 2 * HALF
  {
  }

  /** Less than half the range ahead and less than the range behind, it is so exactly if not early and not too late. */
  lemma ReachedInRange(due: nat, t: nat)
    requires t - 2 * HALF < due < t + HALF
    ensures Reached(Wrap32(due), Wrap32(t)) <==> due <= t <= due + HALF
  {
    ReachedExactly(due, t);
    SmallWrap(t - due);
  }

  lemma NotEarly(due: nat, t: nat)
    requires Reached(Wrap32(due), Wrap32(t)) && due < t + HALF
    ensures due <= t
  {
    if t < due {
      ReachedInRange(due, t);
    }
  }

  // ---------- Runs ----------

  /** The clock never goes back, and every operation reads it. */
  predicate Clocked(ops: seq<Op>, times: seq<nat>) {
    |times| == |ops| &&
    (ops == [] ||
     var n := |ops| - 1;
     Clocked(ops[..n], times[..n]) && ReadsAt(ops[n], times[n]) && Now(times[..n]) <= times[n])
  }

  function Now(times: seq<nat>): nat { if times == [] then 0 else times[|times| - 1] }

  /** The delay an operation asks for. */
  function Asked(op: Op): u32 {
    if op.Defer? || op.Extend? then op.delay else 0
  }

  /** No delay that a caller or a callback asked for is above the bound. */
  predicate DelaysWithin(ops: seq<Op>, log: seq<Call>, bound: nat) {
    (forall i :: 0 <= i < |ops| ==> Asked(ops[i]) <= bound) && (forall c <- log :: c.delay <= bound)
  }

  /** The times are those of the log, and nothing was called before it was due. */
  predicate OnTime(log: seq<Call>, timings: seq<Timing>) {
    |timings| == |log| &&
    forall k :: 0 <= k < |log| ==> TimesOf(log[k], timings[k]) && timings[k].due <= timings[k].at
  }

  predicate TimesOf(c: Call, timing: Timing) {
    c.trigger == Wrap32(timing.due) && c.now == Wrap32(timing.at)
  }

  /** The live entries are due as their triggers say, none of them half the range ahead. */
  predicate DuesFit(table: seq<Entry>, dues: seq<nat>, t: nat) {
    |dues| == |table| && forall i :: 0 <= i < |table| ==> DueFits(table[i], dues[i], t)
  }

  predicate DueFits(e: Entry, due: nat, t: nat) {
    e.token != INVALID_DEFERRED_TOKEN ==> e.trigger == Wrap32(due) && due < t + HALF
  }

  lemma Later(table: seq<Entry>, dues: seq<nat>, t: nat, t': nat)
    requires DuesFit(table, dues, t) && t <= t'
    ensures DuesFit(table, dues, t')
  {
  }

  lemma WrapSum(a: int, d: int)
    ensures Wrap32(Wrap32(a) + d) == Wrap32(a + d)
  {
  }

  /** A call of an entry that fits is not early, and what it leaves fits if its delay is short. */
  lemma CallFits(e: Entry, due: nat, t: nat, c: Call)
    requires Due(e, Wrap32(t)) && DueFits(e, due, t) && c.delay < HALF
    requires c.trigger == e.trigger && c.now == Wrap32(t)
    ensures due <= t && TimesOf(c, Timing(due, t))
    ensures DueFits(AfterCall(e, c.delay), due + c.delay, t)
  {
    NotEarly(due, t);
    WrapSum(due, c.delay);
  }

  lemma {:induction false} PassFits(table: seq<Entry>, n: nat, t: nat, respond: Respond, log: seq<Call>, dues: seq<nat>, timings: seq<Timing>)
    requires n <= |table| && DuesFit(table, dues, t) && OnTime(log, timings)
    requires forall c <- RunDue(table, n, Wrap32(t), respond, log).log :: c.delay < HALF
    ensures var r, d := RunDue(table, n, Wrap32(t), respond, log), TimesDue(table, n, t, respond, log, dues, timings);
            DuesFit(r.table, d.0, t) && OnTime(r.log, d.1)
  {
    if n > 0 {
      var r := RunDue(table, n - 1, Wrap32(t), respond, log);
      assert forall c <- r.log :: c in RunDue(table, n, Wrap32(t), respond, log).log;
      PassFits(table, n - 1, t, respond, log, dues, timings);
      if Due(table[n - 1], Wrap32(t)) {
        var c := CallOf(table[n - 1], Wrap32(t), respond, r.log);
        assert c in RunDue(table, n, Wrap32(t), respond, log).log;
        CallFits(table[n - 1], dues[n - 1], t, c);
      }
    }
  }

  /** An entry set at time `t` fits if its delay is short. */
  lemma SetFits(table: seq<Entry>, dues: seq<nat>, t: nat, i: nat, e: Entry, delay: u32)
    requires DuesFit(table, dues, t) && i < |table| && delay < HALF && e.trigger == Wrap32(Wrap32(t) + delay)
    ensures DuesFit(table[i := e], dues[i := t + delay], t)
  {
    WrapSum(t, delay);
  }

  lemma DeferFits(ts: Timed, op: Op, t: nat)
    requires |ts.dues| == |ts.s.table| && DuesFit(ts.s.table, ts.dues, t) && ReadsAt(op, t) && op.Defer? && op.delay < HALF
    ensures var ts' := TimedStep(ts, op, t);
            DuesFit(ts'.s.table, ts'.dues, t) && ts'.s.log == ts.s.log && ts'.timings == ts.timings
  {
    var token, i := DeferResult(ts.s, op.delay, op.callback), SlotOf(ts.s.table, INVALID_DEFERRED_TOKEN);
    if token != INVALID_DEFERRED_TOKEN {
      SetFits(ts.s.table, ts.dues, t, i, Entry(token, Wrap32(op.now + op.delay), op.callback, op.argument), op.delay);
    }
  }

  lemma ExtendFits(ts: Timed, op: Op, t: nat)
    requires |ts.dues| == |ts.s.table| && DuesFit(ts.s.table, ts.dues, t) && ReadsAt(op, t) && op.Extend? && op.delay < HALF
    ensures var ts' := TimedStep(ts, op, t);
            DuesFit(ts'.s.table, ts'.dues, t) && ts'.s.log == ts.s.log && ts'.timings == ts.timings
  {
    if op.delay != 0 && IsLive(ts.s.table, op.token) {
      var i := SlotOf(ts.s.table, op.token);
      SetFits(ts.s.table, ts.dues, t, i, ts.s.table[i].(trigger := Wrap32(op.now + op.delay)), op.delay);
    }
  }

  lemma CancelFits(ts: Timed, op: Op, t: nat)
    requires |ts.dues| == |ts.s.table| && DuesFit(ts.s.table, ts.dues, t) && (op.Cancel? || op.Elsewhere?)
    ensures var ts' := TimedStep(ts, op, t);
            DuesFit(ts'.s.table, ts'.dues, t) && ts'.s.log == ts.s.log && ts'.timings == ts.timings
  {
  }

  lemma TaskFits(ts: Timed, op: Op, t: nat)
    requires DuesFit(ts.s.table, ts.dues, t) && OnTime(ts.s.log, ts.timings)
    requires op.Task? && ReadsAt(op, t) && forall c <- Step(ts.s, op).log :: c.delay < HALF
    ensures var ts' := TimedStep(ts, op, t);
            DuesFit(ts'.s.table, ts'.dues, t) && OnTime(ts'.s.log, ts'.timings)
  {
    if Signed32(Wrap32(op.now - ts.s.last)) > 0 {
      PassIs(ts, op.now, op.respond, t);
      PassFits(ts.s.table, |ts.s.table|, t, op.respond, ts.s.log, ts.dues, ts.timings);
    }
  }

  /** A pass over the table, with its times. */
  lemma PassIs(ts: Timed, now: u32, respond: Respond, t: nat)
    requires |ts.dues| == |ts.s.table| && Signed32(Wrap32(now - ts.s.last)) > 0
    ensures var r := RunDue(ts.s.table, |ts.s.table|, now, respond, ts.s.log);
            var d := TimesDue(ts.s.table, |ts.s.table|, t, respond, ts.s.log, ts.dues, ts.timings);
            TimedStep(ts, Task(now, respond), t) == Timed(ts.s.(table := r.table, last := now, log := r.log), d.0, t, d.1)
  {
  }

  lemma StepFits(ts: Timed, op: Op, t: nat)
    requires DuesFit(ts.s.table, ts.dues, t) && OnTime(ts.s.log, ts.timings)
    requires ReadsAt(op, t) && Asked(op) < HALF && forall c <- Step(ts.s, op).log :: c.delay < HALF
    ensures var ts' := TimedStep(ts, op, t);
            DuesFit(ts'.s.table, ts'.dues, t) && OnTime(ts'.s.log, ts'.timings)
  {
    if op.Defer? {
      DeferFits(ts, op, t);
    } else if op.Extend? {
      ExtendFits(ts, op, t);
    } else if op.Task? {
      TaskFits(ts, op, t);
    } else {
      CancelFits(ts, op, t);
    }
  }

  lemma LogGrows(s: State, op: Op)
    ensures s.log <= Step(s, op).log
  {
  }

  /**
    As long as every delay asked for is below half the range of the timer, no entry is called
    before it is due, over every run.
  */
  lemma {:induction false} ShortDelaysOnTime(count: nat, ops: seq<Op>, times: seq<nat>)
    requires Clocked(ops, times)
    requires DelaysWithin(ops, TimedRun(count, ops, times).s.log, HALF - 1)
    ensures var ts := TimedRun(count, ops, times);
            DuesFit(ts.s.table, ts.dues, Now(times)) && OnTime(ts.s.log, ts.timings)
  {
    if ops != [] {
      var n := |ops| - 1;
      var before := TimedRun(count, ops[..n], times[..n]);
      LogGrows(before.s, ops[n]);
      ShortDelaysOnTime(count, ops[..n], times[..n]);
      Later(before.s.table, before.dues, Now(times[..n]), times[n]);
      StepFits(before, ops[n], times[n]);
    }
  }

  // ---------- Exactly ----------

  /** With delays up to the bound no run ever calls an entry before it is due. */
  ghost predicate NeverEarly(bound: nat) {
    forall count: nat, ops, times :: Clocked(ops, times) && DelaysWithin(ops, TimedRun(count, ops, times).s.log, bound) ==>
      OnTime(TimedRun(count, ops, times).s.log, TimedRun(count, ops, times).timings)
  }

  const CALLBACK: Option<nat> := Some(0)

  function Quiet(): Respond { (_, _, _, _) => 0 }

  /** A table of one slot, and a delay asked for at time `t`. */
  lemma OneEntry(delay: u32, t: u32)
    requires delay > 0
    ensures TimedRun(1, [Defer(delay, CALLBACK, 0, t)], [t])
         == Timed(State([Entry(1, Wrap32(t + delay), CALLBACK, 0)], 1, 0, []), [t + delay], 0, [])
  {
    var op, s := Defer(delay, CALLBACK, 0, t), State(seq(1, _ => FREE), 0, 0, []);
    assert [op][..0] == [] && [t][..0] == [];
    assert s.table[0] == FREE;
    assert SlotOf(s.table, INVALID_DEFERRED_TOKEN) == 0;
    assert Usable(s.table, 1);
    assert NextToken(s.table, 0, 0) == 1;
    assert Step(s, op).table == [Entry(1, Wrap32(t + delay), CALLBACK, 0)];
    assert seq(1, _ => 0)[0 := t + delay] == [t + delay];
  }

  /** An entry that the comparison takes for overdue is called in the next pass. */
  lemma OneCall(e: Entry, due: nat, t: nat)
    requires Due(e, Wrap32(t)) && Signed32(Wrap32(Wrap32(t))) > 0
    ensures var c := Call(e.token, e.callback, e.argument, e.trigger, Wrap32(t), 0);
            var ts := TimedStep(Timed(State([e], 1, 0, []), [due], 0, []), Task(Wrap32(t), Quiet()), t);
            ts.s.log == [c] && ts.timings == [Timing(due, t)]
  {
    assert RunDue([e], 0, Wrap32(t), Quiet(), []) == Ran([e], []);
    assert TimesDue([e], 0, t, Quiet(), [], [due], []) == ([due], []);
  }

  /** A delay of half the range or more, on a table of one slot: the next pass calls it at once. */
  lemma LongDelayEarly(delay: u32)
    requires delay >= HALF
    ensures var ops, times := [Defer(delay, CALLBACK, 0, 1), Task(1, Quiet())], [1, 1];
            var ts := TimedRun(1, ops, times);
            && Clocked(ops, times) && DelaysWithin(ops, ts.s.log, delay)
            && |ts.s.log| == 1 && ts.timings == [Timing(1 + delay, 1)]
  {
    var first, last := Defer(delay, CALLBACK, 0, 1), Task(1, Quiet());
    var e := Entry(1, Wrap32(1 + delay), CALLBACK, 0);
    TwoSteps(1, first, last, 1);
    OneEntry(delay, 1);
    LongDelayReached(delay);
    OneCall(e, 1 + delay, 1);
    DelaysOfTwo(first, last, Call(1, CALLBACK, 0, e.trigger, 1, 0), delay);
  }

  lemma DelaysOfTwo(a: Op, b: Op, c: Call, bound: nat)
    requires Asked(a) <= bound && Asked(b) <= bound && c.delay <= bound
    ensures DelaysWithin([a, b], [c], bound)
  {
  }

  lemma ClockedOne(a: Op, t: nat)
    requires ReadsAt(a, t)
    ensures Clocked([a], [t])
  {
    assert [a][..0] == [] && [t][..0] == [];
  }

  lemma TwoSteps(count: nat, a: Op, b: Op, t: nat)
    requires ReadsAt(a, t) && ReadsAt(b, t)
    ensures Clocked([a, b], [t, t])
    ensures TimedRun(count, [a, b], [t, t]) == TimedStep(TimedRun(count, [a], [t]), b, t)
  {
    assert [a, b][..1] == [a] && [t, t][..1] == [t] && [a][..0] == [] && [t][..0] == [];
    ClockedOne(a, t);
  }

  lemma LongDelayReached(delay: u32)
    requires delay >= HALF
    ensures Reached(Wrap32(1 + delay), Wrap32(1))
  {
    ReachedExactly(1 + delay, 1);
    SmallWrap(-(delay as int));
  }

  /** Calls are never early if and only if all delays are below half the range of the timer. */
  lemma NeverEarlyExactly(bound: u32)
    ensures NeverEarly(bound) <==> bound < HALF
  {
    if bound < HALF {
      forall count: nat, ops, times | Clocked(ops, times) && DelaysWithin(ops, TimedRun(count, ops, times).s.log, bound)
        ensures OnTime(TimedRun(count, ops, times).s.log, TimedRun(count, ops, times).timings)
      {
        ShortDelaysOnTime(count, ops, times);
      }
    } else {
      LongDelayEarly(bound);
      var ops, times := [Defer(bound, CALLBACK, 0, 1), Task(1, Quiet())], [1, 1];
      var ts := TimedRun(1, ops, times);
      assert Clocked(ops, times) && DelaysWithin(ops, ts.s.log, bound);
      assert ts.timings[0].due > ts.timings[0].at;
      assert !OnTime(ts.s.log, ts.timings);
    }
  }

  // ---------- Late entries ----------

  /** The task passes over the table exactly if the last pass was less than half the range ago, modulo the range. */
  lemma PassesExactly(last: nat, t: nat)
    ensures Signed32(Wrap32(Wrap32(t) - Wrap32(last))) > 0 <==> 0 < Wrap32(t - last) < HALF
  {
    WrapMinus(t, last);
  }

  lemma {:induction false} LastPass(count: nat, ops: seq<Op>, times: seq<nat>)
    requires Clocked(ops, times)
    ensures var ts := TimedRun(count, ops, times); ts.s.last == Wrap32(ts.lastAt) && ts.lastAt <= Now(times)
  {
    if ops != [] {
      var n := |ops| - 1;
      LastPass(count, ops[..n], times[..n]);
      StepLast(TimedRun(count, ops[..n], times[..n]), ops[n], times[n]);
    }
  }

  lemma StepLast(ts: Timed, op: Op, t: nat)
    requires |ts.dues| == |ts.s.table| && ReadsAt(op, t) && ts.s.last == Wrap32(ts.lastAt) && ts.lastAt <= t
    ensures var ts' := TimedStep(ts, op, t); ts'.s.last == Wrap32(ts'.lastAt) && ts'.lastAt <= t
  {
  }

  /**
    After any run with short delays, a task that comes less than half the range after the last pass
    calls an entry, once, exactly if it is due and not overdue by more than half the range; what is
    more overdue than that is not called, until a whole range has gone by.
  */
  lemma CalledExactly(count: nat, ops: seq<Op>, times: seq<nat>, t: nat, respond: Respond, i: nat)
    requires Clocked(ops, times) && i < count
    requires DelaysWithin(ops, TimedRun(count, ops, times).s.log, HALF - 1)
    requires var ts := TimedRun(count, ops, times);
             && Now(times) <= t && ts.lastAt < t < ts.lastAt + HALF
             && ts.s.table[i].token != INVALID_DEFERRED_TOKEN && t < ts.dues[i] + 2 * HALF
    ensures var ts := TimedRun(count, ops, times);
            var token := ts.s.table[i].token;
            var was, now := CallsTo(ts.s.log, token), CallsTo(Step(ts.s, Task(Wrap32(t), respond)).log, token);
            if ts.dues[i] <= t <= ts.dues[i] + HALF then |now| == |was| + 1 else now == was
  {
    var ts := TimedRun(count, ops, times);
    DueExactly(count, ops, times, t, i);
    PassCalls(ts.s, Wrap32(t), respond, i);
  }

  lemma DueExactly(count: nat, ops: seq<Op>, times: seq<nat>, t: nat, i: nat)
    requires Clocked(ops, times) && i < count
    requires DelaysWithin(ops, TimedRun(count, ops, times).s.log, HALF - 1)
    requires var ts := TimedRun(count, ops, times);
             && Now(times) <= t && ts.lastAt < t < ts.lastAt + HALF
             && ts.s.table[i].token != INVALID_DEFERRED_TOKEN && t < ts.dues[i] + 2 * HALF
    ensures var ts := TimedRun(count, ops, times);
            && LiveDistinct(ts.s.table) && Signed32(Wrap32(Wrap32(t) - ts.s.last)) > 0
            && (Due(ts.s.table[i], Wrap32(t)) <==> ts.dues[i] <= t <= ts.dues[i] + HALF)
  {
    var ts := TimedRun(count, ops, times);
    ShortDelaysOnTime(count, ops, times);
    EntryDue(ts.s.table[i], ts.dues[i], Now(times), t);
    LastPass(count, ops, times);
    Passes(ts.lastAt, t);
    RunDistinct(count, ops, times);
  }

  lemma RunDistinct(count: nat, ops: seq<Op>, times: seq<nat>)
    requires |times| == |ops|
    ensures LiveDistinct(TimedRun(count, ops, times).s.table)
  {
    SameRun(count, ops, times);
    TokensDistinct(State(seq(count, _ => FREE), 0, 0, []), ops);
  }

  lemma EntryDue(e: Entry, due: nat, now: nat, t: nat)
    requires e.token != INVALID_DEFERRED_TOKEN && DueFits(e, due, now) && now <= t < due + 2 * HALF
    ensures Due(e, Wrap32(t)) <==> due <= t <= due + HALF
  {
    ReachedInRange(due, t);
  }

  lemma Passes(last: nat, t: nat)
    requires last < t < last + HALF
    ensures Signed32(Wrap32(Wrap32(t) - Wrap32(last))) > 0
  {
    PassesExactly(last, t);
    SmallWrap(t - last);
  }

  lemma PassCalls(s: State, now: u32, respond: Respond, i: nat)
    requires i < |s.table| && LiveDistinct(s.table) && s.table[i].token != INVALID_DEFERRED_TOKEN
    requires Signed32(Wrap32(now - s.last)) > 0
    ensures var token := s.table[i].token;
            var calls := CallsTo(Step(s, Task(now, respond)).log, token);
            if Due(s.table[i], now) then |calls| == |CallsTo(s.log, token)| + 1 else calls == CallsTo(s.log, token)
  {
    RunDueOne(s.table, |s.table|, now, respond, s.log, i);
  }

  // ---------- An entry missed ----------

  function Again(): Respond { (_, _, _, _) => 1 }

  const LATE: nat := 0x7FFF_FFFF

  /** An entry called late asks to be called again a millisecond after it was due. */
  lemma LateCall(s: State)
    requires s == State([Entry(1, 1, CALLBACK, 0)], 1, 0, [])
    ensures var c := Call(1, CALLBACK, 0, 1, LATE, 1);
            TimedStep(Timed(s, [1], 0, []), Task(LATE, Again()), LATE)
            == Timed(State([Entry(1, 2, CALLBACK, 0)], 1, LATE, [c]), [2], LATE, [Timing(1, LATE)])
  {
    var e := s.table[0];
    ReachedExactly(1, LATE);
    assert Due(e, LATE);
    assert RunDue(s.table, 0, LATE, Again(), []) == Ran([e], []);
    assert TimesDue(s.table, 0, LATE, Again(), [], [1], []) == ([1], []);
    assert [e][0 := Entry(1, 2, CALLBACK, 0)] == [Entry(1, 2, CALLBACK, 0)];
    assert [1][0 := 2] == [2];
  }

  lemma MissedPass(ts: Timed)
    requires ts.s.table == [Entry(1, 2, CALLBACK, 0)] && ts.dues == [2] && ts.s.last == LATE
    ensures var ts' := TimedStep(ts, Task(LATE + 4, Again()), LATE + 4);
            ts' == ts.(s := ts.s.(last := LATE + 4), lastAt := LATE + 4)
  {
    ReachedExactly(2, LATE + 4);
    assert !Due(ts.s.table[0], LATE + 4);
    assert RunDue(ts.s.table, 0, LATE + 4, Again(), ts.s.log) == Ran(ts.s.table, ts.s.log);
    assert TimesDue(ts.s.table, 0, LATE + 4, Again(), ts.s.log, ts.dues, ts.timings) == (ts.dues, ts.timings);
  }

  lemma LateRun(a: Op, b: Op, c: Op, call: Call)
    requires a == Defer(1, CALLBACK, 0, 0) && b == Task(LATE, Again()) && c == Task(LATE + 4, Again())
    requires call == Call(1, CALLBACK, 0, 1, LATE, 1)
    ensures Clocked([a, b, c], [0, LATE, LATE + 4])
    ensures TimedRun(1, [a, b, c], [0, LATE, LATE + 4])
         == Timed(State([Entry(1, 2, CALLBACK, 0)], 1, LATE + 4, [call]), [2], LATE + 4, [Timing(1, LATE)])
  {
    var first := Timed(State([Entry(1, 1, CALLBACK, 0)], 1, 0, []), [1], 0, []);
    var called := Timed(State([Entry(1, 2, CALLBACK, 0)], 1, LATE, [call]), [2], LATE, [Timing(1, LATE)]);
    OneEntry(1, 0);
    LateCall(first.s);
    MissedPass(called);
    ThreeSteps(1, a, b, c, 0, LATE, LATE + 4, first, called);
  }

  /**
    A run that misses an entry, though all delays are 1 and passes are less than half the range
    apart: called late at its first time, it is more than half the range overdue for its second.
  */
  lemma OverdueMissed(ops: seq<Op>, times: seq<nat>)
    requires ops == [Defer(1, CALLBACK, 0, 0), Task(LATE, Again()), Task(LATE + 4, Again())]
    requires times == [0, LATE, LATE + 4]
    ensures Clocked(ops, times) && DelaysWithin(ops, TimedRun(1, ops, times).s.log, 1)
    ensures var ts := TimedRun(1, ops, times);
            && ts.s.table[0].token == 1 && ts.dues[0] + HALF < ts.lastAt == LATE + 4
            && ts.timings == [Timing(1, LATE)]
  {
    var call := Call(1, CALLBACK, 0, 1, LATE, 1);
    LateRun(ops[0], ops[1], ops[2], call);
    DelaysOfThree(ops[0], ops[1], ops[2], call, 1);
    assert ops == [ops[0], ops[1], ops[2]];
  }

  lemma ThreeSteps(count: nat, a: Op, b: Op, c: Op, t: nat, u: nat, v: nat, s1: Timed, s2: Timed)
    requires ReadsAt(a, t) && ReadsAt(b, u) && ReadsAt(c, v) && t <= u <= v
    requires |s1.dues| == |s1.s.table| && |s2.dues| == |s2.s.table|
    requires TimedRun(count, [a], [t]) == s1 && TimedStep(s1, b, u) == s2
    ensures Clocked([a, b, c], [t, u, v])
    ensures TimedRun(count, [a, b, c], [t, u, v]) == TimedStep(s2, c, v)
  {
    assert [a, b, c][..2] == [a, b] && [t, u, v][..2] == [t, u];
    assert [a, b][..1] == [a] && [t, u][..1] == [t];
    ClockedOne(a, t);
    assert Clocked([a, b], [t, u]);
  }

  lemma DelaysOfThree(a: Op, b: Op, c: Op, call: Call, bound: nat)
    requires Asked(a) <= bound && Asked(b) <= bound && Asked(c) <= bound && call.delay <= bound
    ensures DelaysWithin([a, b, c], [call], bound)
  {
  }
}
