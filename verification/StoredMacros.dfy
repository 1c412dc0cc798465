/** The bytes that stand for actions, on the way through send_string and in the EEPROM. */
module StoredMacros {
  import opened Machine
  import opened SendStringModel

  // ---------- Commands byte by byte ----------

  function Prepended(a: seq<Action>, rest: Option<seq<Action>>): Option<seq<Action>> {
    match rest
    case None => None
    case Some(more) => Some(a + more)
  }

  /** A byte other than 0 and 1 is a character. */
  lemma CharacterRead(str: seq<u8>, i: nat)
    requires i < |str| && str[i] > 1
    ensures Interpret(str, i) == Prepended([SendChar(str[i])], Interpret(str, i + 1))
  {
  }

  /** 1 and a code: 1 taps, 2 presses and 3 releases the keycode that follows. */
  lemma KeyRead(str: seq<u8>, i: nat)
    requires i + 2 < |str| && str[i] == 1 && 1 <= str[i + 1] <= 3
    ensures Interpret(str, i) ==
              Prepended([if str[i + 1] == 1 then TapCode(str[i + 2]) else if str[i + 1] == 2 then RegisterCode(str[i + 2])
                         else UnregisterCode(str[i + 2])], Interpret(str, i + 3))
  {
  }

  /** 1 and 4: a delay in decimal digits, and a byte that ends them. */
  lemma DelayReads(str: seq<u8>, i: nat, end: nat)
    requires i + 2 <= end < |str| && str[i] == 1 && str[i + 1] == 4
    requires !IsDigit(str[end]) && forall k :: i + 2 <= k < end ==> IsDigit(str[k])
    ensures Interpret(str, i) == Prepended([Delay(DecimalValue(str[i + 2..end]))], Interpret(str, end + 1))
  {
    DigitsEndAt(str, i + 2, end);
  }

  /** 1 and any other code: nothing, even if the code is the null that should end the string. */
  lemma UnknownSkipped(str: seq<u8>, i: nat)
    requires i + 1 < |str| && str[i] == 1 && !(1 <= str[i + 1] <= 4)
    ensures Interpret(str, i) == Interpret(str, i + 2)
  {
    match Interpret(str, i + 2)
    case None =>
    case Some(more) => assert [] + more == more;
  }

  // ---------- Macros in the EEPROM ----------

  /** What can be stored: the codes 1 to 3 and the null cannot stand for themselves, and there are no delays. */
  predicate Storable(a: Action) {
    match a
    case TapCode(k) => k != 0
    case RegisterCode(k) => k != 0
    case UnregisterCode(k) => k != 0
    case Delay(_) => false
    case SendChar(c) => c > 3
  }

  predicate AllStorable(actions: seq<Action>) {
    forall i :: 0 <= i < |actions| ==> Storable(actions[i])
  }

  function Stored(a: Action): (bytes: seq<u8>)
    requires Storable(a)
    ensures bytes != []
  {
    match a
    case TapCode(k) => [1, k]
    case RegisterCode(k) => [2, k]
    case UnregisterCode(k) => [3, k]
    case SendChar(c) => [c]
  }

  function StoredAll(actions: seq<Action>): seq<u8>
    requires AllStorable(actions)
  {
    if actions == [] then [] else Stored(actions[0]) + StoredAll(actions[1..])
  }

  /** Macro after macro, each ended by a null. */
  function Area(macros: seq<seq<Action>>): seq<u8>
    requires forall m <- macros :: AllStorable(m)
  {
    if macros == [] then [] else StoredAll(macros[0]) + [0] + Area(macros[1..])
  }

  lemma {:induction false} NoNulls(actions: seq<Action>)
    requires AllStorable(actions)
    ensures 0 !in StoredAll(actions)
  {
    if actions != [] {
      NoNulls(actions[1..]);
    }
  }

  lemma {:induction false} StoredMeans(actions: seq<Action>)
    requires AllStorable(actions)
    ensures Meaning(StoredAll(actions)) == actions
  {
    if actions != [] {
      var rest := StoredAll(actions[1..]);
      StoredMeans(actions[1..]);
      StoredFirst(actions[0], rest);
      assert [actions[0]] + actions[1..] == actions;
    }
  }

  lemma StoredFirst(a: Action, rest: seq<u8>)
    requires Storable(a)
    ensures Meaning(Stored(a) + rest) == [a] + Meaning(rest)
  {
    assert (Stored(a) + rest)[|Stored(a)|..] == rest;
  }

  lemma {:induction false} FirstString(s: seq<u8>, rest: seq<u8>, id: nat)
    requires 0 !in s
    ensures var area := s + [0] + rest;
            && UpToNull(area) == s
            && Nulls(area) == 1 + Nulls(rest)
            && (0 < id <= Nulls(area) ==> Skip(area, id) == Skip(rest, id - 1))
  {
    var area := s + [0] + rest;
    if s == [] {
      assert area[1..] == rest;
    } else {
      assert area[1..] == s[1..] + [0] + rest;
      FirstString(s[1..], rest, id);
    }
  }

  /** Each macro is where as many nulls come before it as there are macros before it. */
  lemma {:induction false} MacroFound(macros: seq<seq<Action>>, padding: seq<u8>, id: nat)
    requires forall m <- macros :: AllStorable(m)
    requires id < |macros|
    ensures var area := Area(macros) + padding;
            id < Nulls(area) && MacroString(area, id) == StoredAll(macros[id])
  {
    var s, rest := StoredAll(macros[0]), Area(macros[1..]) + padding;
    assert Area(macros) + padding == s + [0] + rest;
    NoNulls(macros[0]);
    FirstString(s, rest, id);
    if id > 0 {
      MacroFound(macros[1..], padding, id - 1);
    }
  }

  lemma {:induction false} EndsInNull(macros: seq<seq<Action>>)
    requires macros != [] && forall m <- macros :: AllStorable(m)
    ensures Area(macros) != [] && Area(macros)[|Area(macros)| - 1] == 0
  {
    if |macros| > 1 {
      EndsInNull(macros[1..]);
    }
  }

  /** Round trip: of macros stored one after another, with nulls to the end of the area, each performs its own actions. */
  lemma MacrosRoundTrip(macros: seq<seq<Action>>, padding: seq<u8>, count: nat, id: nat)
    requires forall m <- macros :: AllStorable(m)
    requires id < |macros| && id < count && (padding != [] ==> padding[|padding| - 1] == 0)
    ensures Performed(Area(macros) + padding, count, id) == macros[id]
    ensures !Overruns(Area(macros) + padding, count, id)
  {
    var area := Area(macros) + padding;
    AreaEnds(macros, padding, area);
    MacroFound(macros, padding, id);
    StoredMeans(macros[id]);
    PerformedIs(area, count, id);
  }

  lemma AreaEnds(macros: seq<seq<Action>>, padding: seq<u8>, area: seq<u8>)
    requires macros != [] && forall m <- macros :: AllStorable(m)
    requires area == Area(macros) + padding && (padding != [] ==> padding[|padding| - 1] == 0)
    ensures area != [] && area[|area| - 1] == 0
  {
    EndsInNull(macros);
  }

  lemma PerformedIs(area: seq<u8>, count: nat, id: nat)
    requires id < count && area != [] && area[|area| - 1] == 0 && id < Nulls(area)
    ensures Performed(area, count, id) == Meaning(MacroString(area, id)) && !Overruns(area, count, id)
  {
  }
}
