/** What requests do to the table, and what becomes of a token afterwards. */
module DeferredEffects {
  import opened Machine
  import opened DeferredModel

  // ---------- Requests ----------

  /** One slot has changed, from one entry to another. */
  predicate OneSlot(table: seq<Entry>, table': seq<Entry>, i: nat, e: Entry, e': Entry) {
    && i < |table| == |table'| && table[i] == e && table'[i] == e'
    && forall j :: 0 <= j < |table| && j != i ==> table'[j] == table[j]
  }

  /** A request that is granted takes the first free slot for its token, due after the delay; otherwise the table stays. */
  lemma DeferPlaces(s: State, delay: u32, callback: Option<nat>, argument: int, now: u32) returns (i: nat)
    ensures var token := DeferResult(s, delay, callback);
            var s' := Step(s, Defer(delay, callback, argument, now));
            && s'.log == s.log && s'.last == s.last
            && (token == INVALID_DEFERRED_TOKEN ==> s'.table == s.table)
            && (token != INVALID_DEFERRED_TOKEN ==>
                  && !IsLive(s.table, token) && i < |s.table| && s.table[i].token == INVALID_DEFERRED_TOKEN
                  && (forall j :: 0 <= j < i ==> s.table[j].token != INVALID_DEFERRED_TOKEN)
                  && OneSlot(s.table, s'.table, i, s.table[i], Entry(token, Wrap32(now + delay), callback, argument)))
  {
    i := SlotOf(s.table, INVALID_DEFERRED_TOKEN);
  }

  /** Extending a live token moves its trigger to the delay from now, and nothing else. */
  lemma ExtendMoves(s: State, token: u8, delay: u32, now: u32, i: nat)
    requires LiveDistinct(s.table) && i < |s.table| && s.table[i].token == token != INVALID_DEFERRED_TOKEN
    ensures var s' := Step(s, Extend(token, delay, now));
            && s'.log == s.log && s'.last == s.last && s'.current == s.current
            && (delay != 0 ==> OneSlot(s.table, s'.table, i, s.table[i], s.table[i].(trigger := Wrap32(now + delay))))
            && (delay == 0 ==> s' == s)
  {
  }

  /** Cancelling a live token frees its slot, and nothing else; no entry holds the token any more. */
  lemma CancelFrees(s: State, token: u8, i: nat)
    requires LiveDistinct(s.table) && i < |s.table| && s.table[i].token == token != INVALID_DEFERRED_TOKEN
    ensures var s' := Step(s, Cancel(token));
            && s'.log == s.log && s'.last == s.last && s'.current == s.current
            && OneSlot(s.table, s'.table, i, s.table[i], FREE)
            && !IsLive(s'.table, token)
  {
  }

  /** Requests about a token that no entry holds change nothing. */
  lemma UnknownToken(s: State, token: u8, delay: u32, now: u32)
    requires !IsLive(s.table, token)
    ensures Step(s, Cancel(token)) == s && Step(s, Extend(token, delay, now)) == s
  {
  }

  // ---------- A token out of use ----------

  /** No request of the run is given the token. */
  predicate NotGranted(s: State, ops: seq<Op>, token: u8) {
    ops == [] ||
    var before, last := ops[..|ops| - 1], ops[|ops| - 1];
    NotGranted(s, before, token) &&
    (last.Defer? ==> DeferResult(Run(s, before), last.delay, last.callback) != token)
  }

  lemma {:induction false} NotDue(table: seq<Entry>, n: nat, now: u32, respond: Respond, log: seq<Call>, token: u8)
    requires n <= |table| && token != INVALID_DEFERRED_TOKEN && !IsLive(table, token)
    ensures CallsTo(RunDue(table, n, now, respond, log).log, token) == CallsTo(log, token)
  {
    if n > 0 {
      NotDue(table, n - 1, now, respond, log, token);
      var r := RunDue(table, n - 1, now, respond, log);
      var c := CallOf(table[n - 1], now, respond, r.log);
      assert (r.log + [c])[..|r.log|] == r.log;
    }
  }

  lemma StaysUnused(s: State, op: Op, token: u8)
    requires token != INVALID_DEFERRED_TOKEN && !IsLive(s.table, token)
    requires op.Defer? ==> DeferResult(s, op.delay, op.callback) != token
    ensures !IsLive(Step(s, op).table, token)
    ensures CallsTo(Step(s, op).log, token) == CallsTo(s.log, token)
  {
    if op.Task? {
      NotDue(s.table, |s.table|, op.now, op.respond, s.log, token);
      forall i | 0 <= i < |s.table|
        ensures RunDue(s.table, |s.table|, op.now, op.respond, s.log).table[i].token in {s.table[i].token, INVALID_DEFERRED_TOKEN}
      {
        RunDueTokens(s.table, |s.table|, op.now, op.respond, s.log, i);
      }
    }
  }

  /** A token out of use is not called, over every run in which it is not given to a new request. */
  lemma {:induction false} UnusedSilent(s: State, ops: seq<Op>, token: u8)
    requires token != INVALID_DEFERRED_TOKEN && !IsLive(s.table, token) && NotGranted(s, ops, token)
    ensures !IsLive(Run(s, ops).table, token)
    ensures CallsTo(Run(s, ops).log, token) == CallsTo(s.log, token)
  {
    if ops != [] {
      UnusedSilent(s, ops[..|ops| - 1], token);
      StaysUnused(Run(s, ops[..|ops| - 1]), ops[|ops| - 1], token);
    }
  }

  /** A cancelled execution is never called again: over every run, until its token is given to a new request. */
  lemma CancelledSilent(s: State, token: u8, ops: seq<Op>)
    requires LiveDistinct(s.table) && token != INVALID_DEFERRED_TOKEN
    requires NotGranted(Step(s, Cancel(token)), ops, token)
    ensures !IsLive(Run(Step(s, Cancel(token)), ops).table, token)
    ensures CallsTo(Run(Step(s, Cancel(token)), ops).log, token) == CallsTo(s.log, token)
  {
    if IsLive(s.table, token) {
      var i :| 0 <= i < |s.table| && s.table[i].token == token;
      CancelFrees(s, token, i);
    } else {
      UnknownToken(s, token, 0, 0);
    }
    UnusedSilent(Step(s, Cancel(token)), ops, token);
  }

  /** After an extension, the calls keep time from the new trigger on, over every run that leaves the token alone. */
  lemma ExtendedCadence(s: State, token: u8, delay: u32, now: u32, ops: seq<Op>, i: nat) returns (calls: seq<Call>)
    requires LiveDistinct(s.table) && i < |s.table| && s.table[i].token == token != INVALID_DEFERRED_TOKEN
    requires delay != 0 && AllLeave(ops, token)
    ensures CallsTo(Run(Step(s, Extend(token, delay, now)), ops).log, token) == CallsTo(s.log, token) + calls
    ensures OnCadence(calls, Wrap32(now + delay))
  {
    ExtendMoves(s, token, delay, now, i);
    StepDistinct(s, Extend(token, delay, now));
    calls := Cadence(Step(s, Extend(token, delay, now)), ops, i);
  }

  // ---------- A pass ----------

  predicate Passes(s: State, now: u32) {
    Signed32(Wrap32(now - s.last)) > 0
  }

  /** What happens to a due entry: one call; it stays, moved on by the answer, unless the answer is 0. */
  predicate Served(s: State, s': State, i: nat, c: Call, now: u32)
    requires i < |s.table| == |s'.table|
  {
    && Made(c, s.table[i], now)
    && CallsTo(s'.log, s.table[i].token) == CallsTo(s.log, s.table[i].token) + [c]
    && s'.table[i] == (if c.delay > 0 then s.table[i].(trigger := Wrap32(s.table[i].trigger + c.delay)) else FREE)
    && (c.delay == 0 ==> !IsLive(s'.table, s.table[i].token))
  }

  lemma PassServes(s: State, now: u32, respond: Respond, i: nat) returns (c: Call)
    requires LiveDistinct(s.table) && Passes(s, now)
    requires i < |s.table| && Due(s.table[i], now)
    ensures var s' := Step(s, Task(now, respond)); |s'.table| == |s.table| && Served(s, s', i, c, now)
  {
    c := TaskCall(s.table, now, respond, s.log, i);
    var s' := Step(s, Task(now, respond));
    forall j | 0 <= j < |s.table|
      ensures s'.table[j].token in {s.table[j].token, INVALID_DEFERRED_TOKEN}
    {
      RunDueTokens(s.table, |s.table|, now, respond, s.log, j);
    }
  }

  /** An execution whose callback has answered 0 is never called again, until its token is given to a new request. */
  lemma EndedSilent(s: State, now: u32, respond: Respond, i: nat, ops: seq<Op>) returns (c: Call)
    requires LiveDistinct(s.table) && Passes(s, now) && i < |s.table| && Due(s.table[i], now)
    requires NotGranted(Step(s, Task(now, respond)), ops, s.table[i].token)
    ensures var s' := Step(s, Task(now, respond));
            && |s'.table| == |s.table| && Served(s, s', i, c, now)
            && (c.delay == 0 ==> CallsTo(Run(s', ops).log, s.table[i].token) == CallsTo(s.log, s.table[i].token) + [c])
  {
    c := PassServes(s, now, respond, i);
    if c.delay == 0 {
      UnusedSilent(Step(s, Task(now, respond)), ops, s.table[i].token);
    }
  }

  /** A call made while the log was `before`: its delay is what its callback answered. */
  predicate Answers(c: Call, before: seq<Call>, respond: Respond, now: u32) {
    c.now == now && c.delay == respond(before, c.callback, c.trigger, c.argument)
  }

  /** The calls beyond `from` were answered, and come from slots in table order, below slot `n`. */
  predicate InTableOrder(table: seq<Entry>, log: seq<Call>, from: nat, n: nat, respond: Respond, now: u32) {
    && (forall j :: from <= j < |log| ==> Answers(log[j], log[..j], respond, now) && SlotOf(table, log[j].token) < n)
    && (forall a, b :: from <= a < b < |log| ==> SlotOf(table, log[a].token) < SlotOf(table, log[b].token))
  }

  lemma SlotIs(table: seq<Entry>, i: nat)
    requires LiveDistinct(table) && i < |table| && table[i].token != INVALID_DEFERRED_TOKEN
    ensures SlotOf(table, table[i].token) == i
  {
  }

  lemma OneMoreInOrder(table: seq<Entry>, log: seq<Call>, from: nat, m: nat, n: nat, respond: Respond, now: u32, c: Call)
    requires InTableOrder(table, log, from, m, respond, now) && m < n
    requires Answers(c, log, respond, now) && SlotOf(table, c.token) == m
    ensures InTableOrder(table, log + [c], from, n, respond, now)
  {
    forall j | from <= j < |log + [c]|
      ensures Answers((log + [c])[j], (log + [c])[..j], respond, now) && SlotOf(table, (log + [c])[j].token) < n
    {
      assert (log + [c])[..j] == if j < |log| then log[..j] else log;
    }
  }

  lemma FewerSlots(table: seq<Entry>, log: seq<Call>, from: nat, m: nat, n: nat, respond: Respond, now: u32)
    requires InTableOrder(table, log, from, m, respond, now) && m <= n
    ensures InTableOrder(table, log, from, n, respond, now)
  {
  }

  lemma RunDueLog(table: seq<Entry>, m: nat, n: nat, now: u32, respond: Respond, log: seq<Call>, was: seq<Call>)
    requires n == m + 1 <= |table| && was == RunDue(table, m, now, respond, log).log
    ensures RunDue(table, n, now, respond, log).log
         == if Due(table[m], now) then was + [CallOf(table[m], now, respond, was)] else was
  {
  }

  lemma NextInOrder(table: seq<Entry>, m: nat, n: nat, now: u32, respond: Respond, from: nat, was: seq<Call>)
    requires LiveDistinct(table) && n == m + 1 <= |table| && InTableOrder(table, was, from, m, respond, now)
    ensures InTableOrder(table, if Due(table[m], now) then was + [CallOf(table[m], now, respond, was)] else was, from, n, respond, now)
  {
    if Due(table[m], now) {
      SlotIs(table, m);
      OneMoreInOrder(table, was, from, m, n, respond, now, CallOf(table[m], now, respond, was));
    } else {
      FewerSlots(table, was, from, m, n, respond, now);
    }
  }

  lemma {:induction false} RunDueInOrder(table: seq<Entry>, n: nat, now: u32, respond: Respond, log: seq<Call>)
    requires LiveDistinct(table) && n <= |table|
    ensures InTableOrder(table, RunDue(table, n, now, respond, log).log, |log|, n, respond, now)
  {
    if n > 0 {
      var m := n - 1;
      RunDueInOrder(table, m, now, respond, log);
      var was := RunDue(table, m, now, respond, log).log;
      RunDueLog(table, m, n, now, respond, log, was);
      NextInOrder(table, m, n, now, respond, |log|, was);
    }
  }

  /** A pass calls in table order and takes each answer as given; a second one in a millisecond does nothing. */
  lemma PassInOrder(s: State, now: u32, respond: Respond)
    requires LiveDistinct(s.table)
    ensures var s' := Step(s, Task(now, respond));
            && s.log <= s'.log && InTableOrder(s.table, s'.log, |s.log|, |s.table|, respond, now)
            && s'.last == (if Passes(s, now) then now else s.last)
            && (!Passes(s, now) ==> s' == s)
    ensures !Passes(Step(s, Task(now, respond)), now)
  {
    RunDueInOrder(s.table, |s.table|, now, respond, s.log);
  }
}
