/** Layer resolution, and the bit-sliced cache that makes a release repeat its press. */
module LayerModel {
  import opened Arithmetic
  import opened Machine
  import opened KeyRecords

  /** A `layer_state_t`, as the set of its bits. */
  type LayerSet = set<nat>

  const MAX_LAYER := 32
  const MAX_LAYER_BITS := 5
  const ACTION_TRANSPARENT: u16 := 1

  /** The action a key has on a layer. */
  type Keymap = (nat, Key) -> u16

  predicate Opaque(layers: LayerSet, keymap: Keymap, key: Key, i: nat)
  {
    i in layers && keymap(i, key) != ACTION_TRANSPARENT
  }

  /** The topmost active layer below `n` on which the key is not transparent, else layer 0. */
  function TopLayer(layers: LayerSet, keymap: Keymap, key: Key, n: nat): (layer: nat)
    requires n <= MAX_LAYER
    ensures layer < MAX_LAYER
    ensures Opaque(layers, keymap, key, layer) || layer == 0
    ensures forall i :: layer < i < n ==> !Opaque(layers, keymap, key, i)
    decreases n + 1
  {
    if n == 0 then 0 else if Opaque(layers, keymap, key, n - 1) then n - 1 else TopLayer(layers, keymap, key, n - 1)
  }

  function Resolve(layers: LayerSet, keymap: Keymap, key: Key): (layer: nat)
    ensures layer < MAX_LAYER
  {
    TopLayer(layers, keymap, key, MAX_LAYER)
  }

  /** A key's position in the cache; the matrix is numbered in eight bits. */
  function KeyNumber(cols: nat, key: Key): u8 {
    Wrap8(key.col + key.row * cols)
  }

  predicate OnMatrix(rows: nat, cols: nat, key: Key) {
    key.row < rows && key.col < cols
  }

  lemma RowBound(rows: nat, cols: nat, key: Key)
    requires OnMatrix(rows, cols, key)
    ensures 0 <= key.col + key.row * cols < rows * cols
  {
    assert key.row * cols <= (rows - 1) * cols;
  }

  lemma NumberFits(rows: nat, cols: nat, key: Key)
    requires OnMatrix(rows, cols, key) && rows * cols <= 256
    ensures KeyNumber(cols, key) == key.col + key.row * cols
  {
    RowBound(rows, cols, key);
  }

  /** Two keys of the matrix never share a cache cell exactly when it has at most 256 keys. */
  lemma KeyNumbersDistinct(rows: nat, cols: nat)
    requires rows <= 255 && cols <= 255
    ensures rows * cols <= 256 <==>
              forall a, b :: OnMatrix(rows, cols, a) && OnMatrix(rows, cols, b) && KeyNumber(cols, a) == KeyNumber(cols, b) ==> a == b
  {
    if rows * cols <= 256 {
      forall a, b | OnMatrix(rows, cols, a) && OnMatrix(rows, cols, b) && KeyNumber(cols, a) == KeyNumber(cols, b)
        ensures a == b
      {
        RowBound(rows, cols, a);
        RowBound(rows, cols, b);
        SameCell(cols, a, b);
      }
    } else {
      // key number 256 wraps to 0
      var a, b := Key(0, 0), Key(256 / cols, 256 % cols);
      assert 256 == 256 / cols * cols + 256 % cols;
      assert (256 / cols) * cols < rows * cols;
      RowOf(rows, cols, 256 / cols);
      assert KeyNumber(cols, a) == KeyNumber(cols, b) && a != b;
    }
  }

  lemma RowOf(rows: nat, cols: nat, r: nat)
    requires r * cols < rows * cols
    ensures r < rows
  {
    MulOrder(rows, r, cols);
  }

  lemma SameCell(cols: nat, a: Key, b: Key)
    requires a.col < cols && b.col < cols
    requires a.col + a.row * cols == b.col + b.row * cols
    ensures a == b
  {
    PositionsDistinct(a.row, a.col, b.row, b.col, cols);
  }

  // ---------- Runs ----------

  /** Layers change, and keys are pressed and released, with the cache in use or not. */
  datatype Op =
    | SetLayers(layers: LayerSet)
    | SetDefault(layers: LayerSet)
    | KeyEvent(pressed: bool, key: Key, nocache: bool)

  datatype State = State(layerState: LayerSet, defaultState: LayerSet, cache: map<Key, nat>)

  function Cached(s: State, key: Key): nat {
    if key in s.cache then s.cache[key] else 0
  }

  /** The layer a press of the key resolves to at this moment. */
  function ResolveNow(s: State, keymap: Keymap, key: Key): (layer: nat)
    ensures layer < MAX_LAYER
  {
    Resolve(s.layerState + s.defaultState, keymap, key)
  }

  function Step(keymap: Keymap, s: State, op: Op): State {
    match op
    case SetLayers(layers) => s.(layerState := layers)
    case SetDefault(layers) => s.(defaultState := layers)
    case KeyEvent(pressed, key, nocache) =>
      if pressed && !nocache then s.(cache := s.cache[key := ResolveNow(s, keymap, key)]) else s
  }

  /** The action a key event triggers. */
  function Action(keymap: Keymap, s: State, op: Op): u16
    requires op.KeyEvent?
  {
    var layer := if op.pressed || op.nocache then ResolveNow(s, keymap, op.key) else Cached(s, op.key);
    keymap(layer, op.key)
  }

  function Run(keymap: Keymap, s: State, ops: seq<Op>): State {
    if ops == [] then s else Step(keymap, Run(keymap, s, ops[..|ops| - 1]), ops[|ops| - 1])
  }

  predicate IsPress(op: Op, key: Key) {
    op.KeyEvent? && op.pressed && !op.nocache && op.key == key
  }

  lemma {:induction false} CacheKept(keymap: Keymap, s: State, ops: seq<Op>, key: Key)
    requires forall op <- ops :: !IsPress(op, key)
    ensures Cached(Run(keymap, s, ops), key) == Cached(s, key)
  {
    if ops != [] {
      var before := ops[..|ops| - 1];
      assert ops[|ops| - 1] in ops && forall op <- before :: op in ops;
      CacheKept(keymap, s, before, key);
    }
  }

  /** On, in one of the two states. */
  predicate IsOn(s: State, layer: nat) {
    layer in s.layerState || layer in s.defaultState
  }

  /** The layer that decides a key: a layer that is on and not transparent, or 0, under transparent ones only. */
  predicate Decides(s: State, keymap: Keymap, key: Key, layer: nat) {
    && layer < MAX_LAYER
    && (layer == 0 || (IsOn(s, layer) && keymap(layer, key) != ACTION_TRANSPARENT))
    && forall i :: layer < i < MAX_LAYER && IsOn(s, i) ==> keymap(i, key) == ACTION_TRANSPARENT
  }

  lemma DecidesOnce(s: State, keymap: Keymap, key: Key, a: nat, b: nat)
    requires Decides(s, keymap, key, a) && Decides(s, keymap, key, b)
    ensures a == b
  {
  }

  lemma ResolvedDecides(s: State, keymap: Keymap, key: Key)
    ensures Decides(s, keymap, key, ResolveNow(s, keymap, key))
  {
    var layers := s.layerState + s.defaultState;
    var layer := ResolveNow(s, keymap, key);
    forall i | layer < i < MAX_LAYER && IsOn(s, i)
      ensures keymap(i, key) == ACTION_TRANSPARENT
    {
      assert !Opaque(layers, keymap, key, i);
    }
  }

  /** Exactly one layer decides a press, and every event while the cache is off. */
  lemma DecidedNow(s: State, keymap: Keymap, key: Key, pressed: bool, nocache: bool)
    requires pressed || nocache
    ensures exists layer :: Decides(s, keymap, key, layer)
    ensures forall layer :: Decides(s, keymap, key, layer) ==> Action(keymap, s, KeyEvent(pressed, key, nocache)) == keymap(layer, key)
  {
    ResolvedDecides(s, keymap, key);
    forall layer | Decides(s, keymap, key, layer)
      ensures layer == ResolveNow(s, keymap, key)
    {
      DecidesOnce(s, keymap, key, layer, ResolveNow(s, keymap, key));
    }
  }

  /**
    However layers change and whatever other keys do in between, a release triggers the action
    its own press triggered: that of the layer which decided the key at the time of the press.
  */
  lemma ReleaseRepeatsPress(keymap: Keymap, s: State, key: Key, between: seq<Op>)
    requires forall op <- between :: !IsPress(op, key)
    ensures var pressed := Step(keymap, s, KeyEvent(true, key, false));
            exists layer :: Decides(s, keymap, key, layer)
              && Action(keymap, s, KeyEvent(true, key, false)) == keymap(layer, key)
              && Action(keymap, Run(keymap, pressed, between), KeyEvent(false, key, false)) == keymap(layer, key)
  {
    ResolvedDecides(s, keymap, key);
    CacheKept(keymap, Step(keymap, s, KeyEvent(true, key, false)), between, key);
  }

  /** What is on is what was set last. */
  lemma LayersSet(keymap: Keymap, s: State, layers: LayerSet, i: nat)
    ensures IsOn(Step(keymap, s, SetLayers(layers)), i) <==> i in layers || i in s.defaultState
    ensures IsOn(Step(keymap, s, SetDefault(layers)), i) <==> i in s.layerState || i in layers
  {
  }
}

module ActionLayer {
  import opened Machine
  import opened KeyRecords
  import opened Bits
  import opened LayerModel

  class LayerState {
    const rows: nat
    const cols: nat
    const keymap: Keymap
    var layerState: LayerSet
    var defaultState: LayerSet
    var disableActionCache: bool
    const cache: array2<bv8>
    ghost var model: map<Key, nat>

    ghost predicate Shape()
    {
      rows * cols <= 256 && cache.Length0 == (rows * cols + 7) / 8 && cache.Length1 == MAX_LAYER_BITS
    }

    function StorageRow(key: Key): nat { KeyNumber(cols, key) / 8 }

    function StorageBit(key: Key): (b: nat)
      ensures b < 8
    {
      KeyNumber(cols, key) % 8
    }

    /** The layer digit the cache holds for a key. */
    predicate CacheBit(key: Key, bit: nat)
      requires Shape() && OnMatrix(rows, cols, key) && bit < MAX_LAYER_BITS
      reads cache
    {
      InShape(key);
      Bit8(cache[StorageRow(key), bit], StorageBit(key))
    }

    /** The bit slices hold exactly the layers of the map. */
    ghost predicate Valid()
      reads this, cache
    {
      && Shape()
      && (forall key <- model :: model[key] < MAX_LAYER)
      && forall key, bit :: OnMatrix(rows, cols, key) && 0 <= bit < MAX_LAYER_BITS ==>
        CacheBit(key, bit) == Digit(Cached(View(), key), bit)
    }

    ghost function View(): State
      reads this
    {
      State(layerState, defaultState, model)
    }

    lemma InShape(key: Key)
      requires Shape() && OnMatrix(rows, cols, key)
      ensures StorageRow(key) < cache.Length0
    {
      RowBound(rows, cols, key);
    }

    constructor (rows: nat, cols: nat, keymap: Keymap)
      requires rows * cols <= 256
      ensures Valid() && View() == State({}, {}, map[]) && fresh(cache)
      ensures this.rows == rows && this.cols == cols && this.keymap == keymap && !disableActionCache
    {
      this.rows, this.cols, this.keymap := rows, cols, keymap;
      layerState, defaultState, disableActionCache, model := {}, {}, false, map[];
      cache := new bv8[(rows * cols + 7) / 8, MAX_LAYER_BITS]((_, _) => 0);
      new;
      forall key, bit | OnMatrix(rows, cols, key) && 0 <= bit < MAX_LAYER_BITS
        ensures !CacheBit(key, bit) && !Digit(0, bit)
      {
        InShape(key);
        NoBits8(StorageBit(key));
        NoDigits(bit);
      }
    }

    lemma OtherCell(a: Key, b: Key)
      requires Shape() && OnMatrix(rows, cols, a) && OnMatrix(rows, cols, b) && a != b
      ensures StorageRow(a) != StorageRow(b) || StorageBit(a) != StorageBit(b)
    {
      NumberFits(rows, cols, a);
      NumberFits(rows, cols, b);
      if KeyNumber(cols, a) == KeyNumber(cols, b) {
        SameCell(cols, a, b);
      }
    }

    method PutCell(row: nat, bit: nat, cell: nat, on: bool)
      requires row < cache.Length0 && bit < cache.Length1 && cell < 8
      modifies cache
      ensures forall r, b, c :: 0 <= r < cache.Length0 && 0 <= b < cache.Length1 && 0 <= c < 8 ==>
        Bit8(cache[r, b], c) == if r == row && b == bit && c == cell then on else old(Bit8(cache[r, b], c))
    {
      var all: bv8 := if on then 0xFF else 0;
      var was := cache[row, bit];
      forall c | 0 <= c < 8
        ensures Bit8(was ^ ((all ^ was) & Mask8(cell)), c) == if c == cell then on else Bit8(was, c)
      {
        PutBit8(was, on, cell, c);
      }
      cache[row, bit] := was ^ ((all ^ was) & Mask8(cell));
    }

    method PutCacheBit(key: Key, bit: nat, on: bool)
      requires Shape() && OnMatrix(rows, cols, key) && bit < MAX_LAYER_BITS
      modifies cache
      ensures CacheBit(key, bit) == on
      ensures forall k, b :: OnMatrix(rows, cols, k) && 0 <= b < MAX_LAYER_BITS && (k != key || b != bit) ==>
        CacheBit(k, b) == old(CacheBit(k, b))
    {
      InShape(key);
      PutCell(StorageRow(key), bit, StorageBit(key), on);
      forall k, b | OnMatrix(rows, cols, k) && 0 <= b < MAX_LAYER_BITS && (k != key || b != bit)
        ensures CacheBit(k, b) == old(CacheBit(k, b))
      {
        InShape(k);
        if k != key {
          OtherCell(k, key);
        }
      }
    }

    method UpdateSourceLayersCache(key: Key, layer: nat)
      requires Valid() && OnMatrix(rows, cols, key) && layer < MAX_LAYER
      modifies cache, this`model
      ensures Valid() && model == old(model)[key := layer]
    {
      for bit := 0 to MAX_LAYER_BITS
        invariant model == old(model)
        invariant forall b :: 0 <= b < bit ==> CacheBit(key, b) == Digit(layer, b)
        invariant forall k, b :: OnMatrix(rows, cols, k) && 0 <= b < MAX_LAYER_BITS && k != key ==>
          CacheBit(k, b) == Digit(Cached(View(), k), b)
      {
        PutCacheBit(key, bit, Digit(layer, bit));
      }
      model := model[key := layer];
    }

    method ReadSourceLayersCache(key: Key) returns (layer: nat)
      requires Valid() && OnMatrix(rows, cols, key)
      ensures layer == Cached(View(), key)
    {
      InShape(key);
      layer := 0;
      ghost var stored := Cached(View(), key);
      for bit := 0 to MAX_LAYER_BITS
        invariant layer == Low(stored, bit)
      {
        NextDigit(stored, bit);
        assert CacheBit(key, bit) == Digit(stored, bit);
        // the digit is not in the number yet, so adding it is the source's bitwise or
        layer := layer + if cache[StorageRow(key), bit] & Mask8(StorageBit(key)) != 0 then Weight(bit) else 0;
      }
      assert stored < Weight(MAX_LAYER_BITS);
      AllDigits(stored, MAX_LAYER_BITS);
    }

    method LayerSwitchGetLayer(key: Key) returns (layer: nat)
      ensures layer == ResolveNow(View(), keymap, key)
      ensures Decides(View(), keymap, key, layer)
    {
      ResolvedDecides(View(), keymap, key);
      var layers := layerState + defaultState;
      var i: int := MAX_LAYER - 1;
      while i >= 0
        invariant -1 <= i < MAX_LAYER
        invariant TopLayer(layers, keymap, key, MAX_LAYER) == TopLayer(layers, keymap, key, i + 1)
      {
        if i in layers {
          var action := keymap(i, key);
          if action != ACTION_TRANSPARENT {
            return i;
          }
        }
        i := i - 1;
      }
      return 0;
    }

    method StoreOrGetAction(pressed: bool, key: Key) returns (action: u16)
      requires Valid() && OnMatrix(rows, cols, key)
      modifies cache, this`model
      ensures Valid()
      ensures var op := KeyEvent(pressed, key, disableActionCache);
              && action == LayerModel.Action(keymap, old(View()), op)
              && View() == Step(keymap, old(View()), op)
    {
      var layer;
      if disableActionCache {
        layer := LayerSwitchGetLayer(key);
        return keymap(layer, key);
      }
      if pressed {
        layer := LayerSwitchGetLayer(key);
        UpdateSourceLayersCache(key, layer);
      } else {
        layer := ReadSourceLayersCache(key);
      }
      return keymap(layer, key);
    }

    /** The keyboard's own code may have its say about the new state. */
    method LayerStateSet(layers: LayerSet, keyboard: LayerSet -> LayerSet)
      requires Valid()
      modifies this`layerState
      ensures Valid() && View() == Step(keymap, old(View()), SetLayers(keyboard(layers)))
    {
      layerState := keyboard(layers);
    }

    method DefaultLayerStateSet(layers: LayerSet, keyboard: LayerSet -> LayerSet)
      requires Valid()
      modifies this`defaultState
      ensures Valid() && View() == Step(keymap, old(View()), SetDefault(keyboard(layers)))
    {
      defaultState := keyboard(layers);
    }
  }
}
