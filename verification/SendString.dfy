/** The command strings of send_string, and the macros stored in the EEPROM. */
module SendStringModel {
  import opened Machine

  const SS_QMK_PREFIX: u8 := 1
  const SS_TAP_CODE: u8 := 1
  const SS_DOWN_CODE: u8 := 2
  const SS_UP_CODE: u8 := 3
  const SS_DELAY_CODE: u8 := 4
  const DELIMITER: u8 := 124

  datatype Action =
    | TapCode(keycode: u8)
    | RegisterCode(keycode: u8)
    | UnregisterCode(keycode: u8)
    | Delay(ms: nat)
    | SendChar(ascii: u8)

  datatype Option<T> = None | Some(value: T)

  predicate IsDigit(b: u8) { 48 <= b <= 57 }

  /** Index of the first byte from `i` on that is not a digit. */
  function DigitsEnd(str: seq<u8>, i: nat): (end: nat)
    requires i <= |str|
    ensures i <= end <= |str|
    ensures forall k :: i <= k < end ==> IsDigit(str[k])
    ensures end < |str| ==> !IsDigit(str[end])
    decreases |str| - i
  {
    if i < |str| && IsDigit(str[i]) then DigitsEnd(str, i + 1) else i
  }

  function DecimalValue(digits: seq<u8>): nat
    requires forall k :: 0 <= k < |digits| ==> IsDigit(digits[k])
  {
    if digits == [] then 0
    else
      assert IsDigit(digits[|digits| - 1]);
      10 * DecimalValue(digits[..|digits| - 1]) + ((digits[|digits| - 1] as int) - 48)
  }

  lemma DecimalMore(str: seq<u8>, start: nat, end: nat)
    requires start <= end < |str| && forall k :: start <= k <= end ==> IsDigit(str[k])
    ensures DecimalValue(str[start..end + 1]) == 10 * DecimalValue(str[start..end]) + ((str[end] as int) - 48)
  {
    var digits := str[start..end + 1];
    assert digits[..|digits| - 1] == str[start..end] && digits[|digits| - 1] == str[end];
  }

  /** One command: what it does and where the next one starts. */
  datatype Command = Command(actions: seq<Action>, next: nat)

  /** The command at `i`, if it can be read without running off the end of the memory. */
  function CommandAt(str: seq<u8>, i: nat): (c: Option<Command>)
    requires i < |str|
    ensures c.Some? ==> i < c.value.next <= |str|
  {
    if str[i] != SS_QMK_PREFIX then Some(Command([SendChar(str[i])], i + 1))
    else if i + 1 >= |str| then None
    else
      var code := str[i + 1];
      if code == SS_DELAY_CODE then
        var end := DigitsEnd(str, i + 2);
        if end >= |str| then None else Some(Command([Delay(DecimalValue(str[i + 2..end]))], end + 1))
      else if code in {SS_TAP_CODE, SS_DOWN_CODE, SS_UP_CODE} then
        if i + 2 >= |str| then None
        else Some(Command([if code == SS_TAP_CODE then TapCode(str[i + 2])
                           else if code == SS_DOWN_CODE then RegisterCode(str[i + 2])
                           else UnregisterCode(str[i + 2])], i + 3))
      else Some(Command([], i + 2))
  }

  /** The actions of the string that starts at `i`, if its end is reached within the memory. */
  function Interpret(str: seq<u8>, i: nat): Option<seq<Action>>
    requires i <= |str|
    decreases |str| - i
  {
    if i == |str| then None
    else if str[i] == 0 then Some([])
    else
      match CommandAt(str, i)
      case None => None
      case Some(c) =>
        match Interpret(str, c.next)
        case None => None
        case Some(rest) => Some(c.actions + rest)
  }

  // ---------- Encoding ----------

  function Decimal(n: nat): (digits: seq<u8>)
    ensures digits != [] && forall k :: 0 <= k < |digits| ==> IsDigit(digits[k])
  {
    if n < 10 then [48 + n] else Decimal(n / 10) + [48 + n % 10]
  }

  lemma {:induction false} DecimalReads(n: nat)
    ensures DecimalValue(Decimal(n)) == n
  {
    if n >= 10 {
      DecimalReads(n / 10);
      assert Decimal(n)[..|Decimal(n)| - 1] == Decimal(n / 10);
    } else {
      assert Decimal(n)[..0] == [];
    }
  }

  /** How the command macros spell an action. */
  function Encode(a: Action): (bytes: seq<u8>)
    ensures bytes != []
  {
    match a
    case TapCode(k) => [SS_QMK_PREFIX, SS_TAP_CODE, k]
    case RegisterCode(k) => [SS_QMK_PREFIX, SS_DOWN_CODE, k]
    case UnregisterCode(k) => [SS_QMK_PREFIX, SS_UP_CODE, k]
    case Delay(ms) => [SS_QMK_PREFIX, SS_DELAY_CODE] + Decimal(ms) + [DELIMITER]
    case SendChar(c) => [c]
  }

  function EncodeAll(actions: seq<Action>): seq<u8> {
    if actions == [] then [] else Encode(actions[0]) + EncodeAll(actions[1..])
  }

  /** Characters that are themselves: not the terminator and not the command prefix. */
  predicate Spellable(a: Action) {
    a.SendChar? ==> a.ascii != 0 && a.ascii != SS_QMK_PREFIX
  }

  predicate AllSpellable(actions: seq<Action>) {
    actions == [] || (Spellable(actions[0]) && AllSpellable(actions[1..]))
  }

  lemma {:induction false} DigitsEndAt(str: seq<u8>, i: nat, end: nat)
    requires i <= end < |str| && !IsDigit(str[end]) && forall k :: i <= k < end ==> IsDigit(str[k])
    ensures DigitsEnd(str, i) == end
    decreases end - i
  {
    if i < end {
      DigitsEndAt(str, i + 1, end);
    }
  }

  lemma HeldByte(str: seq<u8>, n: nat, bytes: seq<u8>, k: nat)
    requires Holds(str, n, bytes) && k < |bytes|
    ensures str[n + k] == bytes[k]
  {
    assert str[n..n + |bytes|][k] == str[n + k];
  }

  lemma HeldPart(str: seq<u8>, n: nat, a: seq<u8>, b: seq<u8>, c: seq<u8>)
    requires Holds(str, n, a + b + c)
    ensures str[n + |a|..n + |a| + |b|] == b
  {
    var all := a + b + c;
    forall k | 0 <= k < |b|
      ensures str[n + |a| + k] == b[k]
    {
      HeldByte(str, n, all, |a| + k);
      assert all[|a| + k] == b[k];
    }
  }

  lemma EncodedDelay(ms: nat, str: seq<u8>, n: nat)
    requires Holds(str, n, Encode(Delay(ms)))
    ensures CommandAt(str, n) == Some(Command([Delay(ms)], n + |Encode(Delay(ms))|))
  {
    var e, d := Encode(Delay(ms)), Decimal(ms);
    HeldByte(str, n, e, 0);
    HeldByte(str, n, e, 1);
    HeldByte(str, n, e, 2 + |d|);
    HeldPart(str, n, [SS_QMK_PREFIX, SS_DELAY_CODE], d, [DELIMITER]);
    DelayRead(ms, str, n, d);
  }

  lemma DelayRead(ms: nat, str: seq<u8>, n: nat, d: seq<u8>)
    requires n + 2 + |d| < |str| && str[n] == SS_QMK_PREFIX && str[n + 1] == SS_DELAY_CODE && str[n + 2 + |d|] == DELIMITER
    requires str[n + 2..n + 2 + |d|] == d == Decimal(ms)
    ensures CommandAt(str, n) == Some(Command([Delay(ms)], n + 2 + |d| + 1))
  {
    var end := n + 2 + |d|;
    forall k | n + 2 <= k < end
      ensures IsDigit(str[k])
    {
      assert str[k] == d[k - n - 2];
    }
    DigitsEndAt(str, n + 2, end);
    DecimalReads(ms);
  }

  lemma EncodedCommand(a: Action, str: seq<u8>, n: nat)
    requires Spellable(a) && Holds(str, n, Encode(a))
    ensures n < |str| && str[n] != 0 && CommandAt(str, n) == Some(Command([a], n + |Encode(a)|))
  {
    assert str[n] == str[n..n + |Encode(a)|][0];
    if a.Delay? {
      EncodedDelay(a.ms, str, n);
    } else if !a.SendChar? {
      assert str[n + 1] == str[n..n + 3][1] && str[n + 2] == str[n..n + 3][2];
    }
  }

  /** The bytes from position `n` on begin with the given ones. */
  predicate Holds(str: seq<u8>, n: nat, bytes: seq<u8>) {
    n + |bytes| <= |str| && str[n..n + |bytes|] == bytes
  }

  /** They are followed by the end of the string. */
  predicate HoldsString(str: seq<u8>, n: nat, bytes: seq<u8>) {
    Holds(str, n, bytes) && n + |bytes| < |str| && str[n + |bytes|] == 0
  }

  lemma StringSplits(str: seq<u8>, n: nat, a: seq<u8>, b: seq<u8>)
    requires HoldsString(str, n, a + b)
    ensures Holds(str, n, a) && HoldsString(str, n + |a|, b)
  {
    var all := str[n..n + |a + b|];
    assert str[n..n + |a|] == all[..|a|] == a;
    assert str[n + |a|..n + |a| + |b|] == all[|a|..] == b;
  }

  lemma InterpretStep(str: seq<u8>, n: nat, a: Action, next: nat, more: seq<Action>)
    requires n < |str| && str[n] != 0 && CommandAt(str, n) == Some(Command([a], next))
    requires Interpret(str, next) == Some(more)
    ensures Interpret(str, n) == Some([a] + more)
  {
  }

  lemma EncodedHead(a: Action, bytes: seq<u8>, rest: seq<u8>, str: seq<u8>, n: nat) returns (next: nat)
    requires Spellable(a) && bytes == Encode(a) && HoldsString(str, n, bytes + rest)
    ensures n < |str| && str[n] != 0 && CommandAt(str, n) == Some(Command([a], next))
    ensures HoldsString(str, next, rest)
  {
    next := n + |bytes|;
    StringSplits(str, n, bytes, rest);
    EncodedCommand(a, str, n);
  }

  lemma {:induction false} EncodedFrom(actions: seq<Action>, str: seq<u8>, n: nat)
    requires AllSpellable(actions) && HoldsString(str, n, EncodeAll(actions))
    ensures Interpret(str, n) == Some(actions)
    decreases |actions|
  {
    if actions == [] {
      InterpretEnd(str, n);
    } else {
      var next := EncodedHead(actions[0], Encode(actions[0]), EncodeAll(actions[1..]), str, n);
      EncodedFrom(actions[1..], str, next);
      InterpretStep(str, n, actions[0], next, actions[1..]);
      assert [actions[0]] + actions[1..] == actions;
    }
  }

  lemma InterpretEnd(str: seq<u8>, n: nat)
    requires n < |str| && str[n] == 0
    ensures Interpret(str, n) == Some([])
  {
  }

  /** Round trip: interpreting an encoded list of actions performs exactly those actions. */
  lemma EncodedRuns(actions: seq<Action>, after: seq<u8>)
    requires AllSpellable(actions)
    ensures Interpret(EncodeAll(actions) + [0] + after, 0) == Some(actions)
  {
    var str := EncodeAll(actions) + [0] + after;
    assert str[0..|EncodeAll(actions)|] == EncodeAll(actions);
    EncodedFrom(actions, str, 0);
  }

  // ---------- Stored macros ----------

  predicate IsMagic(b: u8) { b in {SS_TAP_CODE, SS_DOWN_CODE, SS_UP_CODE} }

  function MagicAction(code: u8, key: u8): Action
    requires IsMagic(code)
  {
    if code == SS_TAP_CODE then TapCode(key) else if code == SS_DOWN_CODE then RegisterCode(key) else UnregisterCode(key)
  }

  /** What a macro's bytes mean: in the EEPROM the commands are stored without their prefix. */
  function Meaning(bytes: seq<u8>): seq<Action> {
    if bytes == [] then []
    else if IsMagic(bytes[0]) then
      if |bytes| == 1 then [] else [MagicAction(bytes[0], bytes[1])] + Meaning(bytes[2..])
    else [SendChar(bytes[0])] + Meaning(bytes[1..])
  }

  function Nulls(area: seq<u8>): nat {
    if area == [] then 0 else (if area[0] == 0 then 1 else 0) + Nulls(area[1..])
  }

  /** The bytes up to the first null. */
  function UpToNull(area: seq<u8>): (s: seq<u8>)
    ensures s <= area && 0 !in s
    ensures |s| < |area| ==> area[|s|] == 0
  {
    if area == [] || area[0] == 0 then [] else [area[0]] + UpToNull(area[1..])
  }

  /** What follows the first `id` nulls. */
  function Skip(area: seq<u8>, id: nat): (rest: seq<u8>)
    requires id <= Nulls(area)
    ensures |rest| <= |area| && rest == area[|area| - |rest|..]
    decreases |area|
  {
    if id == 0 then area
    else if area[0] == 0 then Skip(area[1..], id - 1)
    else Skip(area[1..], id)
  }

  /** The id-th of the null-separated strings. */
  function MacroString(area: seq<u8>, id: nat): seq<u8>
    requires id <= Nulls(area)
  {
    UpToNull(Skip(area, id))
  }

  lemma {:induction false} NullsSkip(area: seq<u8>, id: nat)
    requires id <= Nulls(area)
    ensures Nulls(Skip(area, id)) == Nulls(area) - id
    decreases |area|
  {
    if id > 0 {
      NullsSkip(area[1..], if area[0] == 0 then id - 1 else id);
    }
  }

  lemma {:induction false} NullsPositive(area: seq<u8>)
    requires area != [] && area[|area| - 1] == 0
    ensures Nulls(area) > 0
  {
    if |area| > 1 {
      NullsPositive(area[1..]);
    }
  }

  /** Skipping takes the sender past the end of the area: it holds exactly `id` nulls, and ends in one. */
  predicate Overruns(area: seq<u8>, count: nat, id: nat) {
    id < count && area != [] && area[|area| - 1] == 0 && Nulls(area) == id
  }

  /** Then, and only then, nothing of the area is left to read when the macro is to be sent. */
  lemma NothingLeft(area: seq<u8>, id: nat)
    requires area != [] && area[|area| - 1] == 0 && id <= Nulls(area)
    ensures Skip(area, id) == [] <==> Nulls(area) == id
  {
    var rest := Skip(area, id);
    NullsSkip(area, id);
    if rest != [] {
      assert rest[|rest| - 1] == area[|area| - 1];
      NullsPositive(rest);
    }
  }

  lemma {:induction false} OnlyLastNull(n: nat)
    ensures Nulls(seq(n, _ => 65) + [0]) == 1
    ensures Skip(seq(n, _ => 65) + [0], 1) == []
  {
    if n > 0 {
      assert (seq(n, _ => 65) + [0])[1..] == seq(n - 1, _ => 65) + [0];
      OnlyLastNull(n - 1);
    } else {
      assert (seq(0, _ => 65) + [0])[1..] == [];
    }
  }

  /**
    It happens: in an area of at least a hundred bytes, all but the last of them characters of one
    macro, the second of 16 macros begins after the end.
  */
  lemma OverrunOccurs(n: nat)
    requires n >= 99
    ensures var area := seq(n, _ => 65) + [0];
            |area| >= 100 && Overruns(area, 16, 1) && Skip(area, 1) == []
  {
    OnlyLastNull(n);
  }

  /** The next one or two bytes of a macro, and what remains. */
  lemma MeaningSteps(rest: seq<u8>)
    requires rest != [] && rest[0] != 0
    ensures !IsMagic(rest[0]) ==> Meaning(UpToNull(rest)) == [SendChar(rest[0])] + Meaning(UpToNull(rest[1..]))
    ensures IsMagic(rest[0]) && |rest| > 1 && rest[1] == 0 ==> Meaning(UpToNull(rest)) == []
    ensures IsMagic(rest[0]) && |rest| > 1 && rest[1] != 0 ==>
              Meaning(UpToNull(rest)) == [MagicAction(rest[0], rest[1])] + Meaning(UpToNull(rest[2..]))
  {
    var bytes := UpToNull(rest);
    assert bytes[1..] == UpToNull(rest[1..]);
    if IsMagic(rest[0]) && |rest| > 1 && rest[1] != 0 {
      assert rest[1..][1..] == rest[2..];
      assert bytes[2..] == UpToNull(rest[2..]);
    }
  }

  /** What sending a macro performs; nothing if the area is being written or holds too few macros. */
  function Performed(area: seq<u8>, count: nat, id: nat): seq<Action> {
    if id >= count || area == [] || area[|area| - 1] != 0 || Nulls(area) < id then [] else Meaning(MacroString(area, id))
  }
}

module SendString {
  import opened Machine
  import opened SendStringModel

  class Sender {
    var log: seq<Action>

    constructor ()
      ensures log == []
    {
      log := [];
    }

    /** Performs the commands of a terminated string. */
    method SendString(str: seq<u8>)
      requires Interpret(str, 0).Some?
      modifies this
      ensures log == old(log) + Interpret(str, 0).value
    {
      var i := 0;
      ghost var all := log + Interpret(str, 0).value;
      while str[i] != 0
        invariant 0 <= i < |str| && Interpret(str, i).Some?
        invariant log + Interpret(str, i).value == all
        decreases |str| - i
      {
        ghost var before := log;
        NextCommand(str, i, before);
        if str[i] == SS_QMK_PREFIX {
          i := SendCommand(str, i);
        } else {
          log := log + [SendChar(str[i])];
          i := i + 1;
        }
      }
    }

    /** Performs the command that begins with the prefix at `start`; the next one begins at `next`. */
    method SendCommand(str: seq<u8>, start: nat) returns (next: nat)
      requires start < |str| && str[start] == SS_QMK_PREFIX && CommandAt(str, start).Some?
      modifies this
      ensures var c := CommandAt(str, start).value; next == c.next && log == old(log) + c.actions
    {
      var i := start + 1;
      var code := str[i];
      if code == SS_TAP_CODE {
        i := i + 1;
        log := log + [TapCode(str[i])];
      } else if code == SS_DOWN_CODE {
        i := i + 1;
        log := log + [RegisterCode(str[i])];
      } else if code == SS_UP_CODE {
        i := i + 1;
        log := log + [UnregisterCode(str[i])];
      } else if code == SS_DELAY_CODE {
        var ms;
        i, ms := ReadDelay(str, i + 1);
        log := log + [Delay(ms)];
      }
      return i + 1;
    }

    /** Accumulates digits up to the first byte that is none. */
    method ReadDelay(str: seq<u8>, start: nat) returns (end: nat, ms: nat)
      requires start <= |str| && DigitsEnd(str, start) < |str|
      ensures end == DigitsEnd(str, start) && ms == DecimalValue(str[start..end])
    {
      end, ms := start, 0;
      while IsDigit(str[end])
        invariant start <= end < |str| && DigitsEnd(str, end) == DigitsEnd(str, start)
        invariant forall k :: start <= k < end ==> IsDigit(str[k])
        invariant ms == DecimalValue(str[start..end])
        decreases |str| - end
      {
        ms := ms * 10;
        ms := ms + ((str[end] as int) - 48);
        DecimalMore(str, start, end);
        end := end + 1;
      }
    }

    /**
      Sends the id-th macro of the area; the bytes read are counted from its start.  The result
      says whether every byte read lies in the area; the model stops before one that does not.
    */
    method DynamicKeymapMacroSend(area: seq<u8>, count: nat, id: nat) returns (inArea: bool)
      requires area != []
      modifies this
      ensures inArea <==> !Overruns(area, count, id)
      ensures log == old(log) + Performed(area, count, id)
    {
      if id >= count {
        return true;
      }
      if area[|area| - 1] != 0 {
        return true;
      }
      var found, p := SkipStrings(area, id);
      if !found {
        return true;
      }
      NothingLeft(area, id);
      if p == |area| {
        return false;
      }
      NullsSkip(area, id);
      SendBytes(area, p);
      return true;
    }

    /** Goes past the first `id` nulls, if there are that many. */
    method SkipStrings(area: seq<u8>, id: nat) returns (found: bool, p: nat)
      ensures found <==> id <= Nulls(area)
      ensures found ==> p <= |area| && area[p..] == Skip(area, id)
    {
      var left: nat := id;
      p := 0;
      while left > 0
        invariant p <= |area| && left <= id && Nulls(area) - id == Nulls(area[p..]) - left
        invariant id <= Nulls(area) ==> Skip(area, id) == Skip(area[p..], left)
        decreases |area| - p
      {
        if p == |area| {
          return false, p;
        }
        SkipOne(area, p, left);
        if area[p] == 0 {
          left := left - 1;
        }
        p := p + 1;
      }
      return true, p;
    }

    /** Sends what precedes the first null from `start` on, one or two bytes at a time. */
    method SendBytes(area: seq<u8>, start: nat)
      requires start <= |area| && Nulls(area[start..]) > 0
      modifies this
      ensures log == old(log) + Meaning(UpToNull(area[start..]))
    {
      var p := start;
      ghost var all := log + Meaning(UpToNull(area[start..]));
      while true
        invariant start <= p <= |area| && Nulls(area[p..]) > 0
        invariant log + Meaning(UpToNull(area[p..])) == all
        decreases |area| - p
      {
        ghost var before := log;
        NextBytes(area, p);
        var c := area[p];
        p := p + 1;
        if c == 0 {
          return;
        }
        if IsMagic(c) {
          var key := area[p];
          p := p + 1;
          if key == 0 {
            return;
          }
          KeyIsShort(c, key);
          SendShort([SS_QMK_PREFIX, c, key, 0], MagicAction(c, key));
          Regroup(before, MagicAction(c, key), Meaning(UpToNull(area[p..])));
        } else {
          CharacterIsShort(c);
          SendShort([c, 0, 0, 0], SendChar(c));
          Regroup(before, SendChar(c), Meaning(UpToNull(area[p..])));
        }
      }
    }

    /** Sends one command or character as a temporary string. */
    method SendShort(data: seq<u8>, ghost a: Action)
      requires Spellable(a) && !a.Delay? && Encode(a) + [0] <= data
      modifies this
      ensures log == old(log) + [a]
    {
      EncodedRuns([a], data[|Encode(a)| + 1..]);
      assert EncodeAll([a]) == Encode(a) + [];
      assert EncodeAll([a]) + [0] + data[|Encode(a)| + 1..] == data;
      SendString(data);
    }
  }

  lemma KeyIsShort(code: u8, key: u8)
    requires IsMagic(code)
    ensures Encode(MagicAction(code, key)) + [0] == [SS_QMK_PREFIX, code, key, 0]
  {
  }

  lemma CharacterIsShort(c: u8)
    requires c != 0 && !IsMagic(c)
    ensures Spellable(SendChar(c)) && Encode(SendChar(c)) + [0] <= [c, 0, 0, 0]
  {
  }

  /** One command of a string, after what has been performed already. */
  lemma NextCommand(str: seq<u8>, i: nat, before: seq<Action>)
    requires i < |str| && str[i] != 0 && Interpret(str, i).Some?
    ensures CommandAt(str, i).Some?
    ensures var c := CommandAt(str, i).value;
            && i < c.next < |str| && Interpret(str, c.next).Some?
            && before + c.actions + Interpret(str, c.next).value == before + Interpret(str, i).value
    ensures str[i] != SS_QMK_PREFIX ==> CommandAt(str, i).value == Command([SendChar(str[i])], i + 1)
  {
    var c := CommandAt(str, i).value;
    assert before + c.actions + Interpret(str, c.next).value == before + (c.actions + Interpret(str, c.next).value);
  }

  /** What the bytes at a position of the area perform, and what remains. */
  lemma NextBytes(area: seq<u8>, p: nat)
    requires p < |area| && Nulls(area[p..]) > 0
    ensures area[p] == 0 ==> Meaning(UpToNull(area[p..])) == []
    ensures area[p] != 0 && !IsMagic(area[p]) ==>
              && Nulls(area[p + 1..]) > 0
              && Meaning(UpToNull(area[p..])) == [SendChar(area[p])] + Meaning(UpToNull(area[p + 1..]))
    ensures IsMagic(area[p]) ==> p + 1 < |area| && (area[p + 1] == 0 ==> Meaning(UpToNull(area[p..])) == [])
    ensures IsMagic(area[p]) && area[p + 1] != 0 ==>
              && Nulls(area[p + 2..]) > 0
              && Meaning(UpToNull(area[p..])) == [MagicAction(area[p], area[p + 1])] + Meaning(UpToNull(area[p + 2..]))
  {
    var rest := area[p..];
    assert rest[1..] == area[p + 1..];
    if area[p] != 0 {
      MeaningSteps(rest);
      if IsMagic(area[p]) {
        assert rest[2..] == area[p + 2..] == rest[1..][1..];
      }
    }
  }

  lemma SkipOne(area: seq<u8>, p: nat, left: nat)
    requires p < |area| && left > 0
    ensures Nulls(area[p..]) == Nulls(area[p + 1..]) + if area[p] == 0 then 1 else 0
    ensures left <= Nulls(area[p..]) ==>
              Skip(area[p..], left) == Skip(area[p + 1..], if area[p] == 0 then left - 1 else left)
  {
    assert area[p..][1..] == area[p + 1..];
  }

  lemma Regroup(log: seq<Action>, a: Action, rest: seq<Action>)
    ensures log + [a] + rest == log + ([a] + rest)
  {
  }
}
