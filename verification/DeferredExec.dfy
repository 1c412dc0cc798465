/** Deferred execution: token allocation that wraps around, and timing modulo 2^32. */
module DeferredModel {
  import opened Machine
  import opened Sets

  const INVALID_DEFERRED_TOKEN: u8 := 0

  datatype Option<T> = None | Some(value: T)

  /** A callback is known by a number; `argument` is what it is handed. */
  datatype Entry = Entry(token: u8, trigger: u32, callback: Option<nat>, argument: int)

  const FREE := Entry(INVALID_DEFERRED_TOKEN, 0, None, 0)

  /** An invocation of a callback, and the delay it answered with. */
  datatype Call = Call(token: u8, callback: Option<nat>, argument: int, trigger: u32, now: u32, delay: u32)

  /** What a callback answers; it may depend on every call made before. */
  type Respond = (seq<Call>, Option<nat>, u32, int) -> u32

  predicate IsLive(table: seq<Entry>, token: u8) {
    token != INVALID_DEFERRED_TOKEN && exists i :: 0 <= i < |table| && table[i].token == token
  }

  predicate Usable(table: seq<Entry>, token: u8) {
    token != INVALID_DEFERRED_TOKEN && !IsLive(table, token)
  }

  predicate LiveDistinct(table: seq<Entry>) {
    forall i, j :: 0 <= i < j < |table| && table[i].token == table[j].token ==> table[i].token == INVALID_DEFERRED_TOKEN
  }

  predicate HasFreeSlot(table: seq<Entry>) {
    exists i :: 0 <= i < |table| && table[i].token == INVALID_DEFERRED_TOKEN
  }

  predicate Due(e: Entry, now: u32) {
    e.token != INVALID_DEFERRED_TOKEN && Reached(e.trigger, now)
  }

  /** A time is reached if it is not later than now, by signed difference. */
  predicate Reached(trigger: u32, now: u32) {
    Signed32(Wrap32(trigger - now)) <= 0
  }

  // ---------- Pigeonhole ----------

  function Tokens(table: seq<Entry>): set<u8> {
    if table == [] then {} else Tokens(table[..|table| - 1]) + {table[|table| - 1].token}
  }

  lemma {:induction false} TokensAre(table: seq<Entry>)
    ensures |Tokens(table)| <= |table|
    ensures forall t :: t in Tokens(table) <==> exists i :: 0 <= i < |table| && table[i].token == t
  {
    if table != [] {
      var n := |table| - 1;
      TokensAre(table[..n]);
      forall t
        ensures t in Tokens(table) <==> exists i :: 0 <= i < |table| && table[i].token == t
      {
        if i :| 0 <= i < |table| && table[i].token == t {
          assert i < n ==> table[..n][i].token == t;
        }
        if t in Tokens(table[..n]) {
          var i :| 0 <= i < n && table[..n][i].token == t;
          assert table[i].token == t;
        }
        assert table[n].token in Tokens(table);
      }
    }
  }

  function UpTo(n: nat): (s: set<u8>)
    requires n <= 256
    ensures |s| == n
    ensures forall t: u8 :: t in s <==> t < n
  {
    if n == 0 then {} else UpTo(n - 1) + {n - 1}
  }

  /** With a free slot among at most 255, some token is not in use. */
  lemma SomeTokenUsable(table: seq<Entry>)
    requires |table| <= 255 && HasFreeSlot(table)
    ensures exists t: u8 :: Usable(table, t)
  {
    TokensAre(table);
    if forall t: u8 :: !Usable(table, t) {
      forall t: u8
        ensures t in Tokens(table)
      {
        assert !Usable(table, t);
      }
      assert UpTo(256) <= Tokens(table);
      SubsetSize(UpTo(256), Tokens(table));
    }
  }

  // ---------- Running due entries ----------

  datatype Ran = Ran(table: seq<Entry>, log: seq<Call>)

  function AfterCall(e: Entry, delay: u32): Entry {
    if delay > 0 then e.(trigger := Wrap32(e.trigger + delay)) else FREE
  }

  function CallOf(e: Entry, now: u32, respond: Respond, log: seq<Call>): Call {
    Call(e.token, e.callback, e.argument, e.trigger, now, respond(log, e.callback, e.trigger, e.argument))
  }

  /** The first `n` entries dealt with, in table order. */
  function RunDue(table: seq<Entry>, n: nat, now: u32, respond: Respond, log: seq<Call>): (r: Ran)
    requires n <= |table|
    ensures |r.table| == |table| && r.table[n..] == table[n..] && log <= r.log
  {
    if n == 0 then Ran(table, log)
    else
      var r := RunDue(table, n - 1, now, respond, log);
      var e := table[n - 1];
      if Due(e, now) then
        var c := CallOf(e, now, respond, r.log);
        Ran(r.table[n - 1 := AfterCall(e, c.delay)], r.log + [c])
      else r
  }

  datatype State = State(table: seq<Entry>, current: u8, last: u32, log: seq<Call>)

  /** Requests on this table; those on other tables move the token counter, which is shared. */
  datatype Op =
    | Defer(delay: u32, callback: Option<nat>, argument: int, now: u32)
    | Extend(token: u8, delay: u32, now: u32)
    | Cancel(token: u8)
    | Task(now: u32, respond: Respond)
    | Elsewhere(current: u8)

  /** Index of the first entry with the given token, or the table's length. */
  function SlotOf(table: seq<Entry>, token: u8): (i: nat)
    ensures i <= |table|
    ensures i < |table| <==> exists j :: 0 <= j < |table| && table[j].token == token
    ensures i < |table| ==> table[i].token == token
    ensures forall j :: 0 <= j < i ==> table[j].token != token
  {
    if table == [] then 0
    else if table[0].token == token then 0
    else
      assert forall j :: 1 <= j < |table| ==> table[1..][j - 1] == table[j];
      1 + SlotOf(table[1..], token)
  }

  /** Increments that lead from `a` to `b`, at least one. */
  function Distance(a: u8, b: u8): (d: nat)
    ensures 1 <= d <= 256 && Wrap8(a + d) == b
  {
    if b > a then b - a else b + 256 - a
  }

  lemma OneFurther(start: u8, before: u8)
    requires before != start
    ensures Distance(start, Wrap8(before + 1)) == Distance(start, before) + 1
    ensures forall t: u8 :: Distance(start, t) < Distance(start, Wrap8(before + 1)) ==>
              t == before || Distance(start, t) < Distance(start, before)
  {
  }

  /** The usable token met first when counting up from `current`, or 0 if there is none. */
  ghost predicate IsNextToken(table: seq<Entry>, current: u8, token: u8) {
    if token == INVALID_DEFERRED_TOKEN then forall t: u8 :: !Usable(table, t)
    else Usable(table, token) && forall t: u8 :: Distance(current, t) < Distance(current, token) ==> !Usable(table, t)
  }

  function NextToken(table: seq<Entry>, current: u8, tried: nat): (token: u8)
    requires tried <= 256
    requires forall t: u8 :: Distance(current, t) <= tried ==> !Usable(table, t)
    ensures IsNextToken(table, current, token)
    decreases 256 - tried
  {
    if tried == 256 then
      assert forall t: u8 :: Distance(current, t) <= tried;
      INVALID_DEFERRED_TOKEN
    else
      var t := Wrap8(current + tried + 1);
      if Usable(table, t) then t else NextToken(table, current, tried + 1)
  }

  lemma NextTokenIs(table: seq<Entry>, current: u8, token: u8)
    requires IsNextToken(table, current, token)
    ensures token == NextToken(table, current, 0)
  {
    var t := NextToken(table, current, 0);
    assert Usable(table, t) <==> t != INVALID_DEFERRED_TOKEN;
    assert Usable(table, token) <==> token != INVALID_DEFERRED_TOKEN;
  }

  predicate WellFormed(delay: u32, callback: Option<nat>) {
    delay != 0 && callback.Some?
  }

  function DeferResult(s: State, delay: u32, callback: Option<nat>): u8 {
    if WellFormed(delay, callback) && HasFreeSlot(s.table) then NextToken(s.table, s.current, 0)
    else INVALID_DEFERRED_TOKEN
  }

  function DeferStep(s: State, delay: u32, callback: Option<nat>, argument: int, now: u32): State {
    if !WellFormed(delay, callback) || !HasFreeSlot(s.table) then s
    else
      var token := NextToken(s.table, s.current, 0);
      // a search that goes all the way round leaves the counter one further on
      if token == INVALID_DEFERRED_TOKEN then s.(current := Wrap8(s.current + 1))
      else
        var i := SlotOf(s.table, INVALID_DEFERRED_TOKEN);
        s.(table := s.table[i := Entry(token, Wrap32(now + delay), callback, argument)], current := token)
  }

  function ExtendStep(s: State, token: u8, delay: u32, now: u32): State {
    if delay == 0 || !IsLive(s.table, token) then s
    else
      var i := SlotOf(s.table, token);
      s.(table := s.table[i := s.table[i].(trigger := Wrap32(now + delay))])
  }

  function CancelStep(s: State, token: u8): State {
    if !IsLive(s.table, token) then s
    else s.(table := s.table[SlotOf(s.table, token) := FREE])
  }

  /** At most one run per millisecond; every due entry is called once, in table order. */
  function TaskStep(s: State, now: u32, respond: Respond): State {
    if Signed32(Wrap32(now - s.last)) <= 0 then s
    else
      var r := RunDue(s.table, |s.table|, now, respond, s.log);
      s.(table := r.table, last := now, log := r.log)
  }

  function Step(s: State, op: Op): State {
    match op
    case Defer(delay, callback, argument, now) => DeferStep(s, delay, callback, argument, now)
    case Extend(token, delay, now) => ExtendStep(s, token, delay, now)
    case Cancel(token) => CancelStep(s, token)
    case Task(now, respond) => TaskStep(s, now, respond)
    case Elsewhere(current) => s.(current := current)
  }

  function Run(s: State, ops: seq<Op>): State {
    if ops == [] then s else Step(Run(s, ops[..|ops| - 1]), ops[|ops| - 1])
  }

  // ---------- Laws ----------

  /**
    A request for a deferred execution succeeds exactly when it is well formed, a slot is free
    and a token is unused; with at most 255 slots a free slot is enough.
  */
  lemma DeferSucceeds(s: State, delay: u32, callback: Option<nat>)
    ensures DeferResult(s, delay, callback) != INVALID_DEFERRED_TOKEN
       <==> delay != 0 && callback.Some? && HasFreeSlot(s.table) && exists t: u8 :: Usable(s.table, t)
    ensures |s.table| <= 255 ==>
              (DeferResult(s, delay, callback) != INVALID_DEFERRED_TOKEN
               <==> delay != 0 && callback.Some? && HasFreeSlot(s.table))
  {
    if HasFreeSlot(s.table) && |s.table| <= 255 {
      SomeTokenUsable(s.table);
    }
  }

  // ---------- A table without a token left ----------

  /** The table after `n` requests, on an empty one of 256 slots. */
  function Filled(op: Op, n: nat): State
    requires op.Defer? && n <= 255
  {
    State(seq(256, i requires 0 <= i < 256 => FilledSlot(op, n, i)), n, 0, [])
  }

  function FilledSlot(op: Op, n: nat, i: nat): Entry
    requires op.Defer? && i < 256
  {
    if i < n && i < 255 then Entry(i + 1, Wrap32(op.now + op.delay), op.callback, op.argument) else FREE
  }

  lemma FilledTokens(op: Op, n: nat)
    requires op.Defer? && n <= 255
    ensures forall t: u8 :: Usable(Filled(op, n).table, t) <==> t > n
    ensures HasFreeSlot(Filled(op, n).table) && SlotOf(Filled(op, n).table, INVALID_DEFERRED_TOKEN) == n
  {
    var table := Filled(op, n).table;
    assert table[n].token == INVALID_DEFERRED_TOKEN;
    forall t: u8 | 0 < t <= n
      ensures !Usable(table, t)
    {
      assert table[t - 1].token == t;
    }
  }

  lemma OneMoreFilled(op: Op, n: nat)
    requires op.Defer? && WellFormed(op.delay, op.callback) && n < 255
    ensures Step(Filled(op, n), op) == Filled(op, n + 1)
  {
    FilledTokens(op, n);
    NextTokenIs(Filled(op, n).table, n, n + 1);
    var e := Entry(n + 1, Wrap32(op.now + op.delay), op.callback, op.argument);
    assert Filled(op, n).table[n := e] == Filled(op, n + 1).table;
  }

  lemma {:induction false} FillsUp(op: Op, n: nat)
    requires op.Defer? && WellFormed(op.delay, op.callback) && n <= 255
    ensures Run(State(seq(256, _ => FREE), 0, 0, []), seq(n, _ => op)) == Filled(op, n)
  {
    if n == 0 {
      assert seq(256, _ => FREE) == Filled(op, 0).table;
    } else {
      assert seq(n, _ => op)[..n - 1] == seq(n - 1, _ => op);
      FillsUp(op, n - 1);
      OneMoreFilled(op, n - 1);
    }
  }

  /**
    The bound is tight: 255 requests on an empty table of 256 slots leave one slot free and no
    token for it, and the next request does nothing but move the token counter.
  */
  lemma NoTokenLeft(op: Op)
    requires op.Defer? && WellFormed(op.delay, op.callback)
    ensures var s := Run(State(seq(256, _ => FREE), 0, 0, []), seq(255, _ => op));
            && HasFreeSlot(s.table) && (forall t: u8 :: !Usable(s.table, t))
            && DeferResult(s, op.delay, op.callback) == INVALID_DEFERRED_TOKEN
            && Step(s, op) == s.(current := 0)
  {
    FillsUp(op, 255);
    FilledTokens(op, 255);
  }

  lemma {:induction false} RunDueTokens(table: seq<Entry>, n: nat, now: u32, respond: Respond, log: seq<Call>, i: nat)
    requires n <= |table| && i < |table|
    ensures RunDue(table, n, now, respond, log).table[i].token in {table[i].token, INVALID_DEFERRED_TOKEN}
  {
    if n > 0 {
      RunDueTokens(table, n - 1, now, respond, log, i);
      if i >= n - 1 {
        assert RunDue(table, n - 1, now, respond, log).table[n - 1..][i - (n - 1)] == table[n - 1..][i - (n - 1)];
      }
    }
  }

  lemma StepDistinct(s: State, op: Op)
    requires LiveDistinct(s.table)
    ensures LiveDistinct(Step(s, op).table)
  {
    match op
    case Defer(delay, callback, argument, now) =>
    case Extend(token, delay, now) =>
    case Cancel(token) =>
    case Task(now, respond) =>
      forall i | 0 <= i < |s.table|
        ensures RunDue(s.table, |s.table|, now, respond, s.log).table[i].token in {s.table[i].token, INVALID_DEFERRED_TOKEN}
      {
        RunDueTokens(s.table, |s.table|, now, respond, s.log, i);
      }
    case Elsewhere(current) =>
  }

  /** In every reachable state the live tokens are pairwise distinct. */
  lemma {:induction false} TokensDistinct(s: State, ops: seq<Op>)
    requires LiveDistinct(s.table)
    ensures LiveDistinct(Run(s, ops).table)
  {
    if ops != [] {
      TokensDistinct(s, ops[..|ops| - 1]);
      StepDistinct(Run(s, ops[..|ops| - 1]), ops[|ops| - 1]);
    }
  }

  // ---------- Timing ----------

  function CallsTo(log: seq<Call>, token: u8): seq<Call> {
    if log == [] then []
    else
      var c := log[|log| - 1];
      CallsTo(log[..|log| - 1], token) + if c.token == token then [c] else []
  }

  function Delays(calls: seq<Call>): nat {
    if calls == [] then 0 else Delays(calls[..|calls| - 1]) + calls[|calls| - 1].delay
  }

  /** The trigger of an entry first due at `first` after the calls, each moving it on by its delay. */
  function TriggerAfter(first: u32, calls: seq<Call>): u32 {
    if calls == [] then first else Wrap32(TriggerAfter(first, calls[..|calls| - 1]) + calls[|calls| - 1].delay)
  }

  lemma WrapAdd(a: int, d: int)
    ensures Wrap32(Wrap32(a) + d) == Wrap32(a + d)
  {
  }

  /** In closed form: the first trigger plus all delays, modulo 2^32. */
  lemma {:induction false} TriggerIs(first: u32, calls: seq<Call>)
    ensures TriggerAfter(first, calls) == Wrap32(first + Delays(calls))
  {
    if calls != [] {
      TriggerIs(first, calls[..|calls| - 1]);
      WrapAdd(first + Delays(calls[..|calls| - 1]), calls[|calls| - 1].delay);
    }
  }

  /** Every call asked to be repeated. */
  predicate Repeats(calls: seq<Call>) {
    calls == [] || (Repeats(calls[..|calls| - 1]) && calls[|calls| - 1].delay > 0)
  }

  /** How a call came about: its entry was due, and the callback answered. */
  predicate Made(c: Call, e: Entry, now: u32) {
    && Due(e, now) && c.token == e.token && c.callback == e.callback && c.argument == e.argument
    && c.trigger == e.trigger && c.now == now
  }

  /**
    What dealing with the first `n` entries does to entry `i`: nothing if it is not among them or
    is not due, and otherwise exactly one call, with the trigger moved by its answer.
  */
  lemma {:induction false} RunDueOne(table: seq<Entry>, n: nat, now: u32, respond: Respond, log: seq<Call>, i: nat)
    requires n <= |table| && i < |table| && LiveDistinct(table) && table[i].token != INVALID_DEFERRED_TOKEN
    ensures var r := RunDue(table, n, now, respond, log);
            var t := table[i].token;
            if i < n && Due(table[i], now) then
              exists c: Call :: Made(c, table[i], now)
                       && CallsTo(r.log, t) == CallsTo(log, t) + [c] && r.table[i] == AfterCall(table[i], c.delay)
            else CallsTo(r.log, t) == CallsTo(log, t) && r.table[i] == table[i]
  {
    if n > 0 {
      RunDueOne(table, n - 1, now, respond, log, i);
      RunDueMore(table, n, now, respond, log, i);
    }
  }

  /** Dealing with entry `n - 1` after the others. */
  lemma RunDueMore(table: seq<Entry>, n: nat, now: u32, respond: Respond, log: seq<Call>, i: nat)
    requires 0 < n <= |table| && i < |table| && LiveDistinct(table) && table[i].token != INVALID_DEFERRED_TOKEN
    ensures var r, r' := RunDue(table, n - 1, now, respond, log), RunDue(table, n, now, respond, log);
            var t, c := table[i].token, CallOf(table[n - 1], now, respond, r.log);
            if i == n - 1 && Due(table[i], now) then
              && Made(c, table[i], now) && CallsTo(r'.log, t) == CallsTo(r.log, t) + [c]
              && r'.table[i] == AfterCall(table[i], c.delay)
            else CallsTo(r'.log, t) == CallsTo(r.log, t) && r'.table[i] == r.table[i]
  {
    var r := RunDue(table, n - 1, now, respond, log);
    if Due(table[n - 1], now) {
      var c := CallOf(table[n - 1], now, respond, r.log);
      assert (r.log + [c])[..|r.log|] == r.log;
    }
  }

  /** An operation that neither extends nor cancels the token. */
  predicate Leaves(op: Op, token: u8) {
    !(op.Extend? && op.token == token) && !(op.Cancel? && op.token == token)
  }

  predicate AllLeave(ops: seq<Op>, token: u8) {
    ops == [] || (AllLeave(ops[..|ops| - 1], token) && Leaves(ops[|ops| - 1], token))
  }

  /** For the first trigger moved on by the delays asked for in `before`, and past it by signed comparison. */
  predicate Timely(c: Call, first: u32, before: seq<Call>) {
    c.trigger == TriggerAfter(first, before) && Reached(c.trigger, c.now)
  }

  /** The calls are those of an entry first due at `first`, repeated as its callback asked. */
  predicate OnCadence(calls: seq<Call>, first: u32) {
    calls == [] ||
    var before := calls[..|calls| - 1];
    OnCadence(before, first) && (Repeats(before) ==> Timely(calls[|calls| - 1], first, before))
  }

  /** The entry is still there, due when its callback last asked. */
  predicate Kept(s: State, i: nat, e: Entry, calls: seq<Call>) {
    i < |s.table| && s.table[i] == e.(trigger := TriggerAfter(e.trigger, calls))
  }

  lemma OnCadenceSnoc(calls: seq<Call>, c: Call, first: u32)
    requires OnCadence(calls, first) && (Repeats(calls) ==> Timely(c, first, calls))
    ensures OnCadence(calls + [c], first)
    ensures Repeats(calls + [c]) <==> Repeats(calls) && c.delay > 0
  {
    assert (calls + [c])[..|calls|] == calls;
  }

  /** Calls after an entry has ended say nothing about it. */
  lemma {:induction false} OnCadenceEnded(calls: seq<Call>, more: seq<Call>, first: u32)
    requires OnCadence(calls, first) && !Repeats(calls)
    ensures OnCadence(calls + more, first) && !Repeats(calls + more)
  {
    if more == [] {
      assert calls + more == calls;
    } else {
      assert (calls + more)[..|calls + more| - 1] == calls + more[..|more| - 1];
      OnCadenceEnded(calls, more[..|more| - 1], first);
    }
  }

  /** The k-th trigger in closed form. */
  lemma {:induction false} KthTrigger(calls: seq<Call>, first: u32, k: nat)
    requires OnCadence(calls, first) && k < |calls| && Repeats(calls[..k])
    ensures calls[k].trigger == Wrap32(first + Delays(calls[..k]))
    ensures Reached(calls[k].trigger, calls[k].now)
  {
    if k < |calls| - 1 {
      assert calls[..|calls| - 1][..k] == calls[..k];
      KthTrigger(calls[..|calls| - 1], first, k);
    } else {
      TriggerIs(first, calls[..k]);
    }
  }

  lemma MadeTimely(s: State, i: nat, e: Entry, calls: seq<Call>, c: Call, now: u32)
    requires Kept(s, i, e, calls) && Made(c, s.table[i], now)
    ensures Timely(c, e.trigger, calls)
    ensures AfterCall(s.table[i], c.delay) == FREE || c.delay > 0
    ensures c.delay > 0 ==> AfterCall(s.table[i], c.delay) == e.(trigger := TriggerAfter(e.trigger, calls + [c]))
  {
    assert (calls + [c])[..|calls|] == calls;
  }

  lemma OtherOpsKeep(s: State, op: Op, i: nat, e: Entry, calls: seq<Call>)
    requires e.token != INVALID_DEFERRED_TOKEN && Leaves(op, e.token) && Kept(s, i, e, calls)
    requires !op.Task?
    ensures Step(s, op).log == s.log && Kept(Step(s, op), i, e, calls)
  {
  }

  lemma TaskCalls(s: State, op: Op, i: nat, e: Entry, calls: seq<Call>) returns (made: seq<Call>)
    requires LiveDistinct(s.table) && e.token != INVALID_DEFERRED_TOKEN
    requires op.Task? && Kept(s, i, e, calls)
    ensures CallsTo(Step(s, op).log, e.token) == CallsTo(s.log, e.token) + made
    ensures |made| <= 1
    ensures made != [] ==> Timely(made[0], e.trigger, calls)
    ensures made == [] || made[0].delay > 0 ==> Kept(Step(s, op), i, e, calls + made)
  {
    made := [];
    assert calls + [] == calls;
    if Signed32(Wrap32(op.now - s.last)) > 0 {
      if Due(s.table[i], op.now) {
        var c := TaskCall(s.table, op.now, op.respond, s.log, i);
        MadeTimely(s, i, e, calls, c, op.now);
        made := [c];
      } else {
        RunDueOne(s.table, |s.table|, op.now, op.respond, s.log, i);
      }
    }
  }

  lemma TaskCall(table: seq<Entry>, now: u32, respond: Respond, log: seq<Call>, i: nat) returns (c: Call)
    requires i < |table| && LiveDistinct(table) && table[i].token != INVALID_DEFERRED_TOKEN && Due(table[i], now)
    ensures var r := RunDue(table, |table|, now, respond, log);
            && Made(c, table[i], now) && CallsTo(r.log, table[i].token) == CallsTo(log, table[i].token) + [c]
            && r.table[i] == AfterCall(table[i], c.delay)
  {
    RunDueOne(table, |table|, now, respond, log, i);
    var r := RunDue(table, |table|, now, respond, log);
    c :| Made(c, table[i], now) && CallsTo(r.log, table[i].token) == CallsTo(log, table[i].token) + [c]
      && r.table[i] == AfterCall(table[i], c.delay);
  }

  lemma CadenceStep(s: State, op: Op, i: nat, e: Entry, before: seq<Call>, calls: seq<Call>) returns (calls': seq<Call>)
    requires LiveDistinct(s.table) && e.token != INVALID_DEFERRED_TOKEN && Leaves(op, e.token)
    requires CallsTo(s.log, e.token) == before + calls
    requires Repeats(calls) && Kept(s, i, e, calls) && OnCadence(calls, e.trigger)
    ensures CallsTo(Step(s, op).log, e.token) == before + calls'
    ensures OnCadence(calls', e.trigger) && (Repeats(calls') ==> Kept(Step(s, op), i, e, calls'))
  {
    calls' := calls;
    if !op.Task? {
      OtherOpsKeep(s, op, i, e, calls);
    } else {
      var made := TaskCalls(s, op, i, e, calls);
      calls' := calls + made;
      assert before + calls + made == before + calls';
      if made == [] {
        assert calls' == calls;
      } else {
        assert calls' == calls + [made[0]];
        OnCadenceSnoc(calls, made[0], e.trigger);
      }
    }
  }

  lemma {:induction false} CallsToGrows(table: seq<Entry>, n: nat, now: u32, respond: Respond, log: seq<Call>, token: u8)
    requires n <= |table|
    ensures CallsTo(log, token) <= CallsTo(RunDue(table, n, now, respond, log).log, token)
  {
    if n > 0 {
      CallsToGrows(table, n - 1, now, respond, log, token);
      var r := RunDue(table, n - 1, now, respond, log);
      var c := CallOf(table[n - 1], now, respond, r.log);
      assert (r.log + [c])[..|r.log|] == r.log;
    }
  }

  lemma LaterCalls(s: State, op: Op, token: u8) returns (more: seq<Call>)
    ensures CallsTo(Step(s, op).log, token) == CallsTo(s.log, token) + more
  {
    var was, now := CallsTo(s.log, token), CallsTo(Step(s, op).log, token);
    if op.Task? {
      CallsToGrows(s.table, |s.table|, op.now, op.respond, s.log, token);
    }
    more := now[|was|..];
  }

  /**
    No drift, over every run.  Unless the entry is extended or cancelled, its k-th call is for its
    first trigger plus the delays its callback has asked for so far, modulo 2^32, however late the
    calls are made; and each call passes the signed comparison of its trigger with the timer.
  */
  lemma {:induction false} Cadence(s: State, ops: seq<Op>, i: nat) returns (calls: seq<Call>)
    requires LiveDistinct(s.table) && i < |s.table| && s.table[i].token != INVALID_DEFERRED_TOKEN
    requires AllLeave(ops, s.table[i].token)
    ensures CallsTo(Run(s, ops).log, s.table[i].token) == CallsTo(s.log, s.table[i].token) + calls
    ensures OnCadence(calls, s.table[i].trigger)
    ensures Repeats(calls) ==> Kept(Run(s, ops), i, s.table[i], calls)
  {
    var e := s.table[i];
    var before := CallsTo(s.log, e.token);
    calls := [];
    if ops == [] {
      assert before + [] == before;
    } else {
      var earlier, last := ops[..|ops| - 1], ops[|ops| - 1];
      calls := Cadence(s, earlier, i);
      TokensDistinct(s, earlier);
      if Repeats(calls) {
        calls := CadenceStep(Run(s, earlier), last, i, e, before, calls);
      } else {
        calls := EndedStep(Run(s, earlier), last, e, before, calls);
      }
    }
  }

  lemma EndedStep(s: State, op: Op, e: Entry, before: seq<Call>, calls: seq<Call>) returns (calls': seq<Call>)
    requires CallsTo(s.log, e.token) == before + calls
    requires !Repeats(calls) && OnCadence(calls, e.trigger)
    ensures CallsTo(Step(s, op).log, e.token) == before + calls'
    ensures OnCadence(calls', e.trigger) && !Repeats(calls')
  {
    var more := LaterCalls(s, op, e.token);
    OnCadenceEnded(calls, more, e.trigger);
    assert before + calls + more == before + (calls + more);
    calls' := calls + more;
  }
}

module DeferredExec {
  import opened Machine
  import opened DeferredModel

  class Scheduler {
    const table: array<Entry>
    var currentToken: u8
    var lastExecution: u32
    var log: seq<Call>

    ghost function View(): State
      reads this, table
    {
      State(table[..], currentToken, lastExecution, log)
    }

    constructor (count: nat)
      ensures fresh(table) && table.Length == count
      ensures currentToken == 0 && lastExecution == 0 && log == []
      ensures forall i :: 0 <= i < count ==> table[i] == FREE
    {
      table := new Entry[count](_ => FREE);
      currentToken, lastExecution, log := 0, 0, [];
    }

    method TokenCanBeUsed(token: u8) returns (ok: bool)
      ensures ok == Usable(table[..], token)
    {
      if token == INVALID_DEFERRED_TOKEN {
        return false;
      }
      for i := 0 to table.Length
        invariant forall j :: 0 <= j < i ==> table[j].token != token
      {
        if table[i].token == token {
          assert table[..][i].token == token;
          return false;
        }
      }
      return true;
    }

    /** Goes round the 256 token values at most once. */
    method AllocateToken() returns (token: u8)
      modifies this`currentToken
      ensures IsNextToken(table[..], old(currentToken), token)
      ensures currentToken == if token == INVALID_DEFERRED_TOKEN then Wrap8(old(currentToken) + 1) else token
    {
      ghost var start := currentToken;
      currentToken := Wrap8(currentToken + 1);
      var first := currentToken;
      var usable := TokenCanBeUsed(currentToken);
      while !usable
        invariant usable == Usable(table[..], currentToken)
        invariant forall t: u8 :: Distance(start, t) < Distance(start, currentToken) ==> !Usable(table[..], t)
        decreases 256 - Distance(start, currentToken)
      {
        ghost var before := currentToken;
        currentToken := Wrap8(currentToken + 1);
        if currentToken == first {
          assert Distance(start, before) == 256;
          return INVALID_DEFERRED_TOKEN;
        }
        assert before != start;
        OneFurther(start, before);
        usable := TokenCanBeUsed(currentToken);
      }
      return currentToken;
    }

    method DeferExec(delay: u32, callback: Option<nat>, argument: int, now: u32) returns (token: u8)
      modifies this`currentToken, table
      ensures View() == DeferStep(old(View()), delay, callback, argument, now)
      ensures token == DeferResult(old(View()), delay, callback)
    {
      if table.Length == 0 || delay == 0 || callback.None? {
        return INVALID_DEFERRED_TOKEN;
      }
      for i := 0 to table.Length
        invariant table[..] == old(table[..]) && currentToken == old(currentToken)
        invariant forall j :: 0 <= j < i ==> table[j].token != INVALID_DEFERRED_TOKEN
      {
        if table[i].token == INVALID_DEFERRED_TOKEN {
          assert SlotOf(table[..], INVALID_DEFERRED_TOKEN) == i;
          token := AllocateToken();
          NextTokenIs(table[..], old(currentToken), token);
          if token == INVALID_DEFERRED_TOKEN {
            return token;
          }
          table[i] := Entry(currentToken, Wrap32(now + delay), callback, argument);
          return currentToken;
        }
      }
      return INVALID_DEFERRED_TOKEN;
    }

    method ExtendDeferredExec(token: u8, delay: u32, now: u32) returns (ok: bool)
      modifies table
      ensures View() == ExtendStep(old(View()), token, delay, now)
      ensures ok == (delay != 0 && IsLive(old(table[..]), token))
    {
      if table.Length == 0 || delay == 0 || token == INVALID_DEFERRED_TOKEN {
        return false;
      }
      for i := 0 to table.Length
        invariant table[..] == old(table[..])
        invariant forall j :: 0 <= j < i ==> table[j].token != token
      {
        if table[i].token == token {
          assert SlotOf(table[..], token) == i;
          table[i] := table[i].(trigger := Wrap32(now + delay));
          return true;
        }
      }
      return false;
    }

    method CancelDeferredExec(token: u8) returns (ok: bool)
      modifies table
      ensures View() == CancelStep(old(View()), token)
      ensures ok == IsLive(old(table[..]), token)
    {
      if table.Length == 0 || token == INVALID_DEFERRED_TOKEN {
        return false;
      }
      for i := 0 to table.Length
        invariant table[..] == old(table[..])
        invariant forall j :: 0 <= j < i ==> table[j].token != token
      {
        if table[i].token == token {
          assert SlotOf(table[..], token) == i;
          table[i] := FREE;
          return true;
        }
      }
      return false;
    }

    method DeferredExecTask(now: u32, respond: Respond)
      modifies this`lastExecution, this`log, table
      ensures View() == TaskStep(old(View()), now, respond)
    {
      if Signed32(Wrap32(now - lastExecution)) > 0 {
        lastExecution := now;
        for i := 0 to table.Length
          invariant lastExecution == now && currentToken == old(currentToken)
          invariant Ran(table[..], log) == RunDue(old(table[..]), i, now, respond, old(log))
        {
          assert table[..][i..][0] == old(table[..])[i..][0];
          ExecuteIfDue(i, now, respond);
        }
      }
    }

    method ExecuteIfDue(i: nat, now: u32, respond: Respond)
      requires i < table.Length
      modifies this`log, table
      ensures var e := old(table[i]);
              var c := CallOf(e, now, respond, old(log));
              if Due(e, now) then log == old(log) + [c] && table[..] == old(table[..])[i := AfterCall(e, c.delay)]
              else log == old(log) && table[..] == old(table[..])
    {
      var entry := table[i];
      if entry.token != INVALID_DEFERRED_TOKEN && Signed32(Wrap32(entry.trigger - now)) <= 0 {
        var delay := respond(log, entry.callback, entry.trigger, entry.argument);
        log := log + [Call(entry.token, entry.callback, entry.argument, entry.trigger, now, delay)];
        if delay > 0 {
          table[i] := entry.(trigger := Wrap32(entry.trigger + delay));
        } else {
          table[i] := FREE;
        }
      }
    }
  }
}
