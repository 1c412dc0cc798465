/** The tapping key, the waiting ring and the code that updates them in place. */
module ActionTapping {
  import opened KeyRecords
  import opened Machine
  import opened TappingModel

  class TapResolver {
    var tappingKey: Record
    const buffer: array<Record>
    var head: nat
    var tail: nat
    var log: seq<Dispatch>

    predicate Valid()
      reads this`head, this`tail
    {
      buffer.Length == WAITING_BUFFER_SIZE && head < WAITING_BUFFER_SIZE && tail < WAITING_BUFFER_SIZE
    }

    function Count(): nat
      reads this`head, this`tail
    {
      (head - tail) % WAITING_BUFFER_SIZE
    }

    /** Ring slot of the i-th oldest waiting record. */
    function Slot(i: nat): (k: nat)
      reads this`head, this`tail
      ensures k < WAITING_BUFFER_SIZE
    {
      (tail + i) % WAITING_BUFFER_SIZE
    }

    /** Walking the ring from its tail meets the head after exactly `Count()` slots. */
    lemma SlotIs(n: nat)
      requires Valid() && n <= WAITING_BUFFER_SIZE
      ensures Slot(n) == if tail + n < WAITING_BUFFER_SIZE then tail + n else tail + n - WAITING_BUFFER_SIZE
      ensures Count() == if tail <= head then head - tail else head + WAITING_BUFFER_SIZE - tail
    {
    }

    lemma SlotWalk(n: nat)
      requires Valid() && n <= Count()
      ensures Slot(n) == head <==> n == Count()
      ensures n < Count() ==> (Slot(n) + 1) % WAITING_BUFFER_SIZE == Slot(n + 1)
      ensures forall j :: 0 <= j < Count() && j != n ==> Slot(j) != Slot(n)
    {
      SlotIs(n);
      NextSlot(n);
      forall j | 0 <= j < Count() && j != n
        ensures Slot(j) != Slot(n)
      {
        SlotIs(j);
      }
    }

    lemma NextSlot(n: nat)
      requires Valid() && n <= Count()
      ensures n < Count() ==> (Slot(n) + 1) % WAITING_BUFFER_SIZE == Slot(n + 1)
    {
    }

    function Waiting(): (w: seq<Record>)
      requires Valid()
      reads this`head, this`tail, buffer
      ensures |w| == Count()
      ensures forall i :: 0 <= i < |w| ==> w[i] == buffer[Slot(i)]
    {
      if tail <= head then buffer[tail..head]
      else
        assert Count() == WAITING_BUFFER_SIZE - tail + head;
        buffer[tail..] + buffer[..head]
    }

    function View(): State
      requires Valid()
      reads this, buffer
    {
      State(tappingKey, Waiting(), log)
    }

    constructor ()
      ensures Valid() && fresh(buffer)
      ensures View() == INITIAL
    {
      tappingKey := NO_RECORD;
      buffer := new Record[WAITING_BUFFER_SIZE](_ => NO_RECORD);
      head, tail := 0, 0;
      log := [];
    }

    method ActionTappingProcess(env: Env, event: Event)
      requires Valid()
      modifies this, buffer
      ensures Valid()
      ensures View() == Step(old(View()), Input(event, env))
    {
      var done, record := ProcessTapping(env, Record(event, NO_TAP));
      if !done {
        EnqueueOrClear(record);
      }
      ProcessWaitingBuffer(env);
    }

    method EnqueueOrClear(record: Record)
      requires Valid()
      modifies this, buffer
      ensures Valid()
      ensures View() == Enqueue(old(View()), record)
    {
      var lost := (if IsPending(View()) then [tappingKey] else []) + Waiting() + [record];
      var ok := WaitingBufferEnq(record);
      if !ok {
        log := log + [ClearKeyboard(lost)];
        WaitingBufferClear();
        tappingKey := NO_RECORD;
      }
    }

    method ProcessWaitingBuffer(env: Env)
      requires Valid()
      modifies this`tappingKey, this`log, this`tail, buffer
      ensures Valid()
      ensures View() == Drain(env, old(View()))
    {
      while tail != head
        invariant Valid()
        invariant Drain(env, View()) == Drain(env, old(View()))
        decreases Count()
      {
        var done, record := ProcessTapping(env, buffer[tail]);
        if !done {
          Amend(record);
          return;
        }
        Advance();
      }
    }

    method Amend(record: Record)
      requires Valid() && tail != head
      modifies buffer
      ensures Waiting() == old(Waiting())[0 := record]
    {
      buffer[tail] := record;
    }

    method Advance()
      requires Valid() && tail != head
      modifies this`tail
      ensures Valid() && Waiting() == old(Waiting())[1..]
    {
      ghost var w := Waiting();
      FirstLeaves();
      tail := (tail + 1) % WAITING_BUFFER_SIZE;
      assert Waiting() == w[1..];
    }

    /** The slots after the tail hold what waits behind the oldest record. */
    lemma FirstLeaves()
      requires Valid() && tail != head
      ensures var next := (tail + 1) % WAITING_BUFFER_SIZE;
              Waiting()[1..] == if next <= head then buffer[next..head] else buffer[next..] + buffer[..head]
    {
      if tail + 1 == WAITING_BUFFER_SIZE {
        assert Waiting() == buffer[WAITING_BUFFER_SIZE - 1..] + buffer[..head];
      }
    }

    /** Decides one record; returns whether it is finished with, and the record as edited. */
    method ProcessTapping(env: Env, keyp: Record) returns (done: bool, record: Record)
      requires Valid()
      modifies this`tappingKey, this`log, buffer
      ensures Valid()
      ensures Outcome(done, View(), record) == TappingModel.ProcessTapping(env, old(View()), keyp)
    {
      record := keyp;
      var event := keyp.event;
      var within := Wrap16(event.time - tappingKey.event.time) < env.term;
      var isTappingRecord := IsTappingRecord(tappingKey, keyp);
      if !IsNoEvent(tappingKey.event) && tappingKey.event.pressed {
        if tappingKey.tap.count == 0 {
          if within {
            if isTappingRecord && !event.pressed {
              tappingKey := tappingKey.(tap := tappingKey.tap.(count := 1));
              ProcessTappingKey(keyp, env);
              record := keyp.(tap := tappingKey.tap);
              return false, record;
            }
            var typed := WaitingBufferTyped(event);
            if IsReleased(event) && !typed {
              if env.retains(log, keyp) {
                return false, record;
              }
              ProcessRecord(record);
              return true, record;
            }
            if event.pressed {
              tappingKey := tappingKey.(tap := tappingKey.tap.(interrupted := true));
            }
            return false, record;
          }
          log := Emit(log, Settled(tappingKey, keyp, env.term));
          tappingKey := NO_RECORD;
          return false, record;
        }
        if isTappingRecord && !event.pressed {
          record := keyp.(tap := tappingKey.tap);
          ProcessRecord(record);
          tappingKey := if within then record else NO_RECORD;
          return true, record;
        }
        if env.isTap(log, event.key) && event.pressed {
          if tappingKey.tap.count > 1 {
            log := Emit(log, Unregister(Record(Event(tappingKey.event.key, false, event.time), tappingKey.tap)));
          }
          tappingKey := keyp;
          WaitingBufferScanTap(env);
          return true, record;
        }
        ProcessRecord(record);
        return true, record;
      }
      if !IsNoEvent(tappingKey.event) {
        if !within {
          tappingKey := NO_RECORD;
          return false, record;
        }
        if event.pressed {
          if isTappingRecord {
            if !tappingKey.tap.interrupted && tappingKey.tap.count > 0 {
              record := keyp.(tap := tappingKey.tap);
              if record.tap.count < 15 {
                record := record.(tap := record.tap.(count := record.tap.count + 1));
              }
              ProcessRecord(record);
            }
            tappingKey := record;
            return true, record;
          }
          if env.isTap(log, event.key) {
            tappingKey := keyp;
            WaitingBufferScanTap(env);
            return true, record;
          }
          tappingKey := tappingKey.(tap := tappingKey.tap.(interrupted := true));
        }
        ProcessRecord(record);
        return true, record;
      }
      if event.pressed && env.isTap(log, event.key) {
        tappingKey := keyp;
        WaitingBufferScanTap(env);
        return true, record;
      }
      ProcessRecord(record);
      return true, record;
    }

    /** Dispatches the tapping key as a tap, which its own processing may take back. */
    method ProcessTappingKey(cause: Record, env: Env)
      modifies this`tappingKey, this`log
      ensures (tappingKey, log) == Settle(env, old(log), old(tappingKey), cause)
    {
      if Cancels(env, log, tappingKey) {
        log := Emit(log, Cancelled(tappingKey, cause, env.term));
        tappingKey := tappingKey.(tap := tappingKey.tap.(count := 0));
      } else {
        log := Emit(log, Settled(tappingKey, cause, env.term));
      }
    }

    method ProcessRecord(record: Record)
      modifies this`log
      ensures log == Emit(old(log), Direct(record))
    {
      if IsNoEvent(record.event) {
        return;
      }
      log := log + [Direct(record)];
    }

    method WaitingBufferEnq(record: Record) returns (ok: bool)
      requires Valid()
      modifies this`head, buffer
      ensures Valid()
      ensures ok == (IsNoEvent(record.event) || |old(Waiting())| + 1 != WAITING_BUFFER_SIZE)
      ensures Waiting() == if ok && !IsNoEvent(record.event) then old(Waiting()) + [record] else old(Waiting())
    {
      if IsNoEvent(record.event) {
        return true;
      }
      if (head + 1) % WAITING_BUFFER_SIZE == tail {
        return false;
      }
      Append(record);
      return true;
    }

    method Append(record: Record)
      requires Valid() && (head + 1) % WAITING_BUFFER_SIZE != tail
      modifies this`head, buffer
      ensures Valid() && Waiting() == old(Waiting()) + [record]
    {
      ghost var n := Count();
      SlotIs(n);
      assert Slot(n) == head;
      buffer[head] := record;
      head := (head + 1) % WAITING_BUFFER_SIZE;
      SlotIs(n);
      assert Count() == n + 1;
    }

    method WaitingBufferClear()
      requires buffer.Length == WAITING_BUFFER_SIZE
      modifies this`head, this`tail
      ensures Valid() && Waiting() == []
    {
      head := 0;
      tail := 0;
    }

    method WaitingBufferTyped(event: Event) returns (typed: bool)
      requires Valid()
      ensures typed == Typed(Waiting(), event)
    {
      var i := tail;
      ghost var n := 0;
      while i != head
        invariant n <= Count() && i == Slot(n)
        invariant forall j :: 0 <= j < n ==>
          !(Waiting()[j].event.key == event.key && Waiting()[j].event.pressed != event.pressed)
        decreases Count() - n
      {
        SlotWalk(n);
        assert buffer[i] == Waiting()[n];
        if event.key == buffer[i].event.key && event.pressed != buffer[i].event.pressed {
          return true;
        }
        i := (i + 1) % WAITING_BUFFER_SIZE;
        n := n + 1;
      }
      SlotWalk(n);
      return false;
    }

    /** The record in slot `i`, the first that does, settles the tapping key. */
    method SettleAt(i: nat, ghost n: nat, env: Env)
      requires Valid() && n < Count() && i == Slot(n)
      requires tappingKey.tap.count == 0 && tappingKey.event.pressed
      requires FirstSettling(env.term, tappingKey, Waiting()) == n
      modifies this`tappingKey, this`log, buffer
      ensures Valid() && View() == ScanTap(env, old(View()))
    {
      var cause := buffer[i];
      assert cause == Waiting()[n];
      tappingKey := tappingKey.(tap := tappingKey.tap.(count := 1));
      Replace(i, n, cause.(tap := cause.tap.(count := 1)));
      ProcessTappingKey(cause, env);
    }

    method Replace(i: nat, ghost n: nat, record: Record)
      requires Valid() && n < Count() && i == Slot(n)
      modifies buffer
      ensures Waiting() == old(Waiting())[n := record]
    {
      SlotWalk(n);
      buffer[i] := record;
    }

    method WaitingBufferScanTap(env: Env)
      requires Valid()
      modifies this`tappingKey, this`log, buffer
      ensures Valid()
      ensures View() == ScanTap(env, old(View()))
    {
      if tappingKey.tap.count > 0 || !tappingKey.event.pressed {
        return;
      }
      var i := tail;
      ghost var n := 0;
      while i != head
        invariant n <= Count() && i == Slot(n)
        invariant View() == old(View())
        invariant forall j :: 0 <= j < n ==> !Settles(env.term, tappingKey, Waiting()[j])
        decreases Count() - n
      {
        SlotWalk(n);
        assert buffer[i] == Waiting()[n];
        if IsTappingRecord(tappingKey, buffer[i]) && !buffer[i].event.pressed && Within(env.term, tappingKey, buffer[i].event) {
          SettleAt(i, n, env);
          return;
        }
        i := (i + 1) % WAITING_BUFFER_SIZE;
        n := n + 1;
      }
      SlotWalk(n);
    }
  }
}
