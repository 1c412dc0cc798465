/** Source maps that reach past their block, and why they break coherence. */
module OledTables {
  import opened Arithmetic
  import opened Machine
  import opened Bits
  import opened OledModel
  import opened OledDisplay

  // ---------- A changed source shows ----------

  lemma DigitsDecide(a: u8, b: u8)
    requires forall i :: 0 <= i < 8 ==> (Digit(a, i) <==> Digit(b, i))
    ensures a == b
  {
    LowDecide(a, b, 8);
    assert Weight(8) == 256 by {
      assert Weight(4) == 16;
    }
    AllDigits(a, 8);
    AllDigits(b, 8);
  }

  lemma {:induction false} LowDecide(a: nat, b: nat, n: nat)
    requires forall i :: 0 <= i < n ==> (Digit(a, i) <==> Digit(b, i))
    ensures Low(a, n) == Low(b, n)
  {
    if n > 0 {
      LowDecide(a, b, n - 1);
      NextDigit(a, n - 1);
      NextDigit(b, n - 1);
    }
  }

  /** A quarter turn comes from one source only. */
  lemma TurnedFrom(src: seq<u8>, src': seq<u8>, dest: seq<u8>)
    requires |src| == |src'| == |dest| == 8 && QuarterTurn(src, dest) && QuarterTurn(src', dest)
    ensures src == src'
  {
    forall j | 0 <= j < 8
      ensures src[j] == src'[j]
    {
      forall i | 0 <= i < 8
        ensures Digit(src[j], i) <==> Digit(src'[j], i)
      {
        assert Digit(dest[i], 7 - j) <==> Digit(src[7 - (7 - j)], i);
        assert Digit(dest[i], 7 - j) <==> Digit(src'[7 - (7 - j)], i);
      }
      DigitsDecide(src[j], src'[j]);
    }
  }

  /** So what is shown of a block tells every source group. */
  lemma ShownTells(p: Panel, w: seq<u8>, w': seq<u8>, t: nat)
    requires p.Valid() && p.rotated && TargetsApart(p) && |w| == |w'| == p.blockSize + p.beyond && t < |p.source|
    requires Shown(p, w) == Shown(p, w')
    ensures Group(w, p.source[t]) == Group(w', p.source[t])
  {
    BlockRotates(p, w, t);
    BlockRotates(p, w', t);
    TurnedFrom(Group(w, p.source[t]), Group(w', p.source[t]), Group(RotateBlock(p, w, |p.source|), p.target[t]));
  }

  lemma ShownDiffers(p: Panel, w: seq<u8>, w': seq<u8>, t: nat, k: nat)
    requires p.Valid() && p.rotated && TargetsApart(p) && |w| == |w'| == p.blockSize + p.beyond && t < |p.source|
    requires k < 8 && w[p.source[t] + k] != w'[p.source[t] + k]
    ensures Shown(p, w) != Shown(p, w')
  {
    var g, g' := Group(w, p.source[t]), Group(w', p.source[t]);
    assert g[k] != g'[k];
    if Shown(p, w) == Shown(p, w') {
      ShownTells(p, w, w', t);
    }
  }

  // ---------- A run to a clean display ----------

  const SENT: Tx := Tx(true, true, [])

  lemma GoesOn(p: Panel, f: Font, states: seq<State>, ops: seq<Op>, op: Op, s': State)
    requires p.Valid() && ValidFont(p, f) && Goes(p, f, states, ops)
    requires Shape(p, states[|ops|]) && Allowed(p, op) && s' == Step(p, f, states[|ops|], op)
    ensures Goes(p, f, states + [s'], ops + [op])
  {
    var states', ops' := states + [s'], ops + [op];
    forall i | 0 <= i < |ops'|
      ensures Allowed(p, ops'[i]) && Shape(p, states'[i]) && states'[i + 1] == Step(p, f, states'[i], ops'[i])
    {
      if i < |ops| {
        assert states'[i] == states[i] && states'[i + 1] == states[i + 1] && ops'[i] == ops[i];
      }
    }
  }

  function Times(n: nat): (txs: seq<Tx>)
    ensures |txs| == n
  {
    if n == 0 then [] else Times(n - 1) + [SENT]
  }

  lemma {:induction false} TimesSucceed(n: nat)
    ensures Successes(Times(n)) == n
  {
    if n > 0 {
      TimesSucceed(n - 1);
      assert Times(n)[..n - 1] == Times(n - 1);
    }
  }

  lemma OneMoreRender(p: Panel, s: State, n: nat)
    requires p.Valid() && Shape(p, s) && n > 0
    ensures Renders(p, s, Times(n)) == RenderStep(p, Renders(p, s, Times(n - 1)), SENT)
  {
    assert Times(n)[..n - 1] == Times(n - 1);
  }

  function RenderStates(p: Panel, s: State, n: nat): (states: seq<State>)
    requires p.Valid() && Shape(p, s)
    ensures |states| == n + 1 && forall i :: 0 <= i <= n ==> states[i] == Renders(p, s, Times(i))
  {
    seq(n + 1, i requires 0 <= i <= n => Renders(p, s, Times(i)))
  }

  lemma RendersGo(p: Panel, f: Font, s: State, n: nat)
    requires p.Valid() && ValidFont(p, f) && Initial(p, s) && Shape(p, s)
    ensures Goes(p, f, RenderStates(p, s, n), seq(n, _ => Render(SENT)))
  {
    assert Times(0) == [];
    forall i | 0 <= i < n
      ensures Steps(p, f, RenderStates(p, s, n)[i], Render(SENT), RenderStates(p, s, n)[i + 1])
    {
      RendersStep(p, f, s, i);
    }
  }

  /** One operation leads from one state to the other. */
  ghost predicate Steps(p: Panel, f: Font, s: State, op: Op, s': State)
    requires p.Valid() && ValidFont(p, f)
  {
    Allowed(p, op) && Shape(p, s) && s' == Step(p, f, s, op)
  }

  lemma RendersStep(p: Panel, f: Font, s: State, i: nat)
    requires p.Valid() && ValidFont(p, f) && Shape(p, s)
    ensures Steps(p, f, Renders(p, s, Times(i)), Render(SENT), Renders(p, s, Times(i + 1)))
  {
    OneMoreRender(p, s, i + 1);
  }

  /** From initialisation, as many renders as there are blocks leave nothing to send. */
  lemma CleanRun(p: Panel, f: Font) returns (states: seq<State>, ops: seq<Op>)
    requires p.Valid() && ValidFont(p, f)
    ensures Goes(p, f, states, ops) && Shape(p, states[|ops|]) && Coherent(p, states[|ops|])
    ensures states[|ops|].dirty == {} && !states[|ops|].scrolling
  {
    var s := State(seq(p.size, _ => 0), seq(p.beyond, _ => 0), 0, AllBlocks(p), false, seq(p.blocks, _ => []));
    SmallRemainder(0, p.lineWidth);
    assert Shape(p, s) && Coherent(p, s);
    states, ops := RenderStates(p, s, p.blocks), seq(p.blocks, _ => Render(SENT));
    RendersGo(p, f, s, p.blocks);
    TimesSucceed(p.blocks);
    DisplayConverges(p, s, Times(p.blocks));
  }

  // ---------- Exactly ----------

  ghost predicate AllCoherent(p: Panel, states: seq<State>)
    requires p.Valid()
  {
    forall i :: 0 <= i < |states| ==> Shape(p, states[i]) && Coherent(p, states[i])
  }

  /** Over every sequence of operations the display stays coherent. */
  ghost predicate StaysCoherent(p: Panel, f: Font)
    requires p.Valid() && ValidFont(p, f)
  {
    forall states, ops :: Goes(p, f, states, ops) ==> AllCoherent(p, states)
  }

  function Other(byte: u8): u8 { if byte == 0 then 1 else 0 }

  /** Changing a byte that a clean block is made up of, but that does not lie in it. */
  function Disturb(p: Panel, s: State, x: nat): Op
    requires p.Valid() && Shape(p, s) && x < p.size + p.beyond
  {
    if x < p.size then WriteRawByte(Other(s.buffer[x]), x)
    else Elsewhere(s.after[x - p.size := Other(s.after[x - p.size])])
  }

  lemma DisturbIs(p: Panel, f: Font, s: State, x: nat)
    requires p.Valid() && ValidFont(p, f) && Shape(p, s) && p.blockSize <= x < p.size + p.beyond && s.dirty == {}
    ensures Allowed(p, Disturb(p, s, x))
    ensures var s' := Step(p, f, s, Disturb(p, s, x));
            && Shape(p, s') && 0 !in s'.dirty && s'.display == s.display && s'.scrolling == s.scrolling
            && s'.buffer + s'.after == (s.buffer + s.after)[x := Other((s.buffer + s.after)[x])]
  {
    if x < p.size {
      BlockBound(p, x);
      LaterBlock(x, p.blockSize);
    }
  }

  lemma LaterBlock(x: nat, blockSize: nat)
    requires 0 < blockSize <= x
    ensures x / blockSize > 0
  {
    InBlock(x, blockSize, 0);
  }

  /** Then the first block, clean as it is, shows something else than the memory has. */
  lemma DisturbShows(p: Panel, f: Font, s: State, t: nat) returns (op: Op, s': State)
    requires p.Valid() && ValidFont(p, f) && p.rotated && TargetsApart(p) && t < |p.source| && p.source[t] + 8 > p.blockSize
    requires Shape(p, s) && Coherent(p, s) && s.dirty == {} && !s.scrolling
    ensures Allowed(p, op) && s' == Step(p, f, s, op) && Shape(p, s') && !Coherent(p, s')
  {
    var x := p.source[t] + 7;
    DisturbIs(p, f, s, x);
    op := Disturb(p, s, x);
    s' := Step(p, f, s, op);
    FirstDiffers(p, s, s', t, x);
    FirstBreaks(p, s, s');
  }

  lemma FirstBreaks(p: Panel, s: State, s': State)
    requires p.Valid() && Shape(p, s) && Shape(p, s') && Coherent(p, s) && s.dirty == {} && !s.scrolling
    requires 0 !in s'.dirty && s'.display == s.display && !s'.scrolling
    requires Shown(p, Window(p, s.buffer, s.after, 0)) != Shown(p, Window(p, s'.buffer, s'.after, 0))
    ensures !Coherent(p, s')
  {
    assert s.display[0] == Shown(p, Window(p, s.buffer, s.after, 0));
  }

  lemma FirstDiffers(p: Panel, s: State, s': State, t: nat, x: nat)
    requires p.Valid() && p.rotated && TargetsApart(p) && t < |p.source| && x == p.source[t] + 7 < p.size + p.beyond
    requires |s.buffer| == |s'.buffer| == p.size && |s.after| == |s'.after| == p.beyond
    requires s'.buffer + s'.after == (s.buffer + s.after)[x := Other((s.buffer + s.after)[x])]
    ensures Shown(p, Window(p, s.buffer, s.after, 0)) != Shown(p, Window(p, s'.buffer, s'.after, 0))
  {
    FirstWindow(p, s.buffer, s.after);
    FirstWindow(p, s'.buffer, s'.after);
    ShownDiffers(p, Window(p, s.buffer, s.after, 0), Window(p, s'.buffer, s'.after, 0), t, 7);
  }

  lemma FirstWindow(p: Panel, buffer: seq<u8>, after: seq<u8>)
    requires p.Valid() && |buffer| == p.size && |after| == p.beyond
    ensures p.blockSize <= p.size
    ensures Window(p, buffer, after, 0) == (buffer + after)[..p.blockSize + p.beyond]
  {
    BlockFits(0, p.blockSize, p.blocks);
  }

  lemma LocalStays(p: Panel, f: Font)
    requires p.Valid() && ValidFont(p, f) && Local(p)
    ensures StaysCoherent(p, f)
  {
    forall states, ops | Goes(p, f, states, ops)
      ensures AllCoherent(p, states)
    {
      forall i | 0 <= i < |states|
        ensures Shape(p, states[i]) && Coherent(p, states[i])
      {
        DisplayCoherence(p, f, states, ops, i);
      }
    }
  }

  /** A run at whose end the display is not coherent. */
  lemma OtherwiseBreaks(p: Panel, f: Font, t: nat) returns (states: seq<State>, ops: seq<Op>)
    requires p.Valid() && ValidFont(p, f) && p.rotated && TargetsApart(p)
    requires t < |p.source| && p.source[t] + 8 > p.blockSize
    ensures Goes(p, f, states, ops) && Shape(p, states[|ops|]) && !Coherent(p, states[|ops|])
  {
    states, ops := CleanRun(p, f);
    var op, s' := DisturbShows(p, f, states[|ops|], t);
    GoesOn(p, f, states, ops, op, s');
    states, ops := states + [s'], ops + [op];
  }

  /** With targets apart, a display stays coherent if and only if every block is made up of its own bytes only. */
  lemma CoherentExactly(p: Panel, f: Font)
    requires p.Valid() && ValidFont(p, f) && (p.rotated ==> TargetsApart(p))
    ensures StaysCoherent(p, f) <==> Local(p)
  {
    if Local(p) {
      LocalStays(p, f);
    } else {
      var t :| 0 <= t < |p.source| && p.source[t] + 8 > p.blockSize;
      var states, ops := OtherwiseBreaks(p, f, t);
      NotAllCoherent(p, states, |ops|);
    }
  }

  lemma NotAllCoherent(p: Panel, states: seq<State>, i: nat)
    requires p.Valid() && i < |states| && Shape(p, states[i]) && !Coherent(p, states[i])
    ensures !AllCoherent(p, states)
  {
  }

  // ---------- The tables noted for 32-bit block masks ----------

  /** The 128x64 panel in blocks of 32 bytes, turned with those tables. */
  const NOTED_TABLES: Panel :=
    Panel(1024, 32, 32, 64, 128, 8, 6, true, [32, 40, 48, 56], [24, 16, 8, 0], 32)

  /**
    With them every block is made up of the bytes of the next one, and the last one of what follows
    the buffer.
  */
  lemma NotedTables(f: Font)
    requires ValidFont(NOTED_TABLES, f)
    ensures NOTED_TABLES.Valid() && TargetsApart(NOTED_TABLES) && !Local(NOTED_TABLES)
    ensures !StaysCoherent(NOTED_TABLES, f)
    ensures BlockOf(NOTED_TABLES, NOTED_TABLES.source[0]) == 1
    ensures Multiple(31, 32) + NOTED_TABLES.source[0] == NOTED_TABLES.size
  {
    NotedFit();
    MultipleIs(31, 32);
    CoherentExactly(NOTED_TABLES, f);
  }

  lemma NotedFit()
    ensures NOTED_TABLES.Valid() && TargetsApart(NOTED_TABLES) && !Local(NOTED_TABLES)
  {
    assert NOTED_TABLES.Tiled();
    assert NOTED_TABLES.source[0] + 8 > NOTED_TABLES.blockSize;
  }

  /** Changing the first byte of the second block changes what the first one is to show, and marks only the second. */
  lemma NotedByte(buffer: seq<u8>, after: seq<u8>, byte: u8)
    requires |buffer| == 1024 && |after| == 32 && byte != buffer[32]
    ensures NOTED_TABLES.Valid()
    ensures Shown(NOTED_TABLES, Window(NOTED_TABLES, buffer[32 := byte], after, 0))
         != Shown(NOTED_TABLES, Window(NOTED_TABLES, buffer, after, 0))
  {
    NotedFit();
    var w, w' := Window(NOTED_TABLES, buffer, after, 0), Window(NOTED_TABLES, buffer[32 := byte], after, 0);
    FirstWindow(NOTED_TABLES, buffer, after);
    FirstWindow(NOTED_TABLES, buffer[32 := byte], after);
    assert w[32] == buffer[32] && w'[32] == byte;
    ShownDiffers(NOTED_TABLES, w, w', 0, 0);
  }
}
