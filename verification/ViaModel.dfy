/**
  VIA's EEPROM area: a magic number, layout options, a keymap and macros.  Every operation is a
  sequence of byte writes, so that losing power between any two of them can be reasoned about.
*/
module ViaModel {
  import opened Arithmetic
  import opened Machine

  /** Sizes and the first address; the areas follow one another. */
  datatype Layout = Layout(
    magicAddr: nat, optionsSize: nat, customSize: nat, layers: nat, rows: nat, cols: nat, maxAddr: nat)
  {
    function OptionsAddr(): nat { magicAddr + 3 }
    function KeymapAddr(): nat { OptionsAddr() + optionsSize + customSize }
    function KeyCount(): nat { layers * rows * cols }
    function MacroAddr(): nat { KeymapAddr() + KeyCount() * 2 }
    function MacroSize(): nat
      requires Fits()
    {
      maxAddr + 1 - MacroAddr()
    }
    /** At least a hundred bytes are left for macros. */
    predicate Fits() { 1 <= optionsSize <= 4 && maxAddr >= MacroAddr() + 100 }
    predicate OnKeymap(layer: nat, row: nat, col: nat) { layer < layers && row < rows && col < cols }
    function KeyIndex(layer: nat, row: nat, col: nat): nat { layer * rows * cols + row * cols + col }
    function KeyAddr(layer: nat, row: nat, col: nat): nat { KeymapAddr() + KeyIndex(layer, row, col) * 2 }
  }

  /** What the firmware carries: build date, default options and the keymap in flash. */
  datatype Firmware = Firmware(magic: seq<u8>, options: u32, keymap: (nat, nat, nat) -> u16)

  /** Two decimal digits of the build date in one byte, as binary-coded decimal. */
  function Bcd(high: char, low: char): u8 {
    Wrap8((high as int % 16) * 16 + low as int % 16)
  }

  predicate IsDigit(c: char) { '0' <= c <= '9' }

  /** A build date such as 2019-11-05: year, month and day have digits where they should. */
  predicate IsBuildDate(p: string) {
    |p| >= 10 && IsDigit(p[2]) && IsDigit(p[3]) && IsDigit(p[5]) && IsDigit(p[6]) && IsDigit(p[8]) && IsDigit(p[9])
  }

  function Magic(p: string): (m: seq<u8>)
    requires IsBuildDate(p)
    ensures |m| == 3 && forall i :: 0 <= i < 3 ==> m[i] != 0xFF
  {
    NotErased(p[2], p[3]);
    NotErased(p[5], p[6]);
    NotErased(p[8], p[9]);
    [Bcd(p[2], p[3]), Bcd(p[5], p[6]), Bcd(p[8], p[9])]
  }

  lemma NotErased(high: char, low: char)
    requires IsDigit(high) && IsDigit(low)
    ensures Bcd(high, low) != 0xFF
  {
    assert high as int % 16 == high as int - 48;
  }

  /** A digit of the build date. */
  function DateDigit(p: string, i: nat): nat
    requires i < |p| && IsDigit(p[i])
  {
    p[i] as int - '0' as int
  }

  lemma BcdDigits(high: char, low: char)
    requires IsDigit(high) && IsDigit(low)
    ensures Bcd(high, low) == (high as int - 48) * 16 + (low as int - 48)
  {
    assert high as int % 16 == high as int - 48 && low as int % 16 == low as int - 48;
  }

  /** In hexadecimal, the magic reads as the year, month and day of the build. */
  lemma MagicReads(p: string)
    requires IsBuildDate(p)
    ensures Magic(p) == [DateDigit(p, 2) * 16 + DateDigit(p, 3), DateDigit(p, 5) * 16 + DateDigit(p, 6), DateDigit(p, 8) * 16 + DateDigit(p, 9)]
  {
    BcdDigits(p[2], p[3]);
    BcdDigits(p[5], p[6]);
    BcdDigits(p[8], p[9]);
  }

  /** The magics of two builds agree exactly if their dates do, but for the century. */
  lemma MagicDistinct(p: string, q: string)
    requires IsBuildDate(p) && IsBuildDate(q)
    ensures Magic(p) == Magic(q) <==>
              p[2] == q[2] && p[3] == q[3] && p[5] == q[5] && p[6] == q[6] && p[8] == q[8] && p[9] == q[9]
  {
    BcdDistinct(p[2], p[3], q[2], q[3]);
    BcdDistinct(p[5], p[6], q[5], q[6]);
    BcdDistinct(p[8], p[9], q[8], q[9]);
  }

  lemma BcdDistinct(a: char, b: char, c: char, d: char)
    requires IsDigit(a) && IsDigit(b) && IsDigit(c) && IsDigit(d)
    ensures Bcd(a, b) == Bcd(c, d) <==> a == c && b == d
  {
    BcdDigits(a, b);
    BcdDigits(c, d);
  }

  predicate ValidFirmware(fw: Firmware) {
    |fw.magic| == 3 && forall i :: 0 <= i < 3 ==> fw.magic[i] != 0xFF
  }

  datatype Write = Write(addr: nat, value: u8)

  function Apply(mem: seq<u8>, ws: seq<Write>): (mem': seq<u8>)
    ensures |mem'| == |mem|
  {
    if ws == [] then mem
    else
      var before, w := Apply(mem, ws[..|ws| - 1]), ws[|ws| - 1];
      if w.addr < |mem| then before[w.addr := w.value] else before
  }

  lemma {:induction false} ApplySplits(mem: seq<u8>, a: seq<Write>, b: seq<Write>)
    ensures Apply(mem, a + b) == Apply(Apply(mem, a), b)
  {
    if b == [] {
      assert a + b == a;
    } else {
      assert (a + b)[..|a + b| - 1] == a + b[..|b| - 1];
      ApplySplits(mem, a, b[..|b| - 1]);
    }
  }

  predicate Within(ws: seq<Write>, low: nat, high: nat) {
    forall i :: 0 <= i < |ws| ==> low <= ws[i].addr < high
  }

  /** Writes within an area leave everything outside it alone. */
  lemma {:induction false} Outside(mem: seq<u8>, ws: seq<Write>, low: nat, high: nat, addr: nat)
    requires Within(ws, low, high) && addr < |mem| && !(low <= addr < high)
    ensures Apply(mem, ws)[addr] == mem[addr]
  {
    if ws != [] {
      Outside(mem, ws[..|ws| - 1], low, high, addr);
    }
  }

  // ---------- The writes ----------

  function MagicWrites(lay: Layout, fw: Firmware, valid: bool): (ws: seq<Write>)
    requires |fw.magic| == 3
    ensures |ws| == 3
  {
    [Write(lay.magicAddr, if valid then fw.magic[0] else 0xFF),
     Write(lay.magicAddr + 1, if valid then fw.magic[1] else 0xFF),
     Write(lay.magicAddr + 2, if valid then fw.magic[2] else 0xFF)]
  }

  function MagicBytes(lay: Layout, mem: seq<u8>): seq<u8>
    requires lay.magicAddr + 3 <= |mem|
  {
    [mem[lay.magicAddr], mem[lay.magicAddr + 1], mem[lay.magicAddr + 2]]
  }

  predicate HasMagic(lay: Layout, fw: Firmware, mem: seq<u8>)
    requires lay.magicAddr + 3 <= |mem|
  {
    MagicBytes(lay, mem) == fw.magic
  }

  /** The low `n` bytes of the options, least significant first and downwards. */
  function OptionsWrites(lay: Layout, value: nat, n: nat): (ws: seq<Write>)
    requires n <= lay.optionsSize
    ensures |ws| == n && Within(ws, lay.OptionsAddr(), lay.OptionsAddr() + n)
    decreases n
  {
    if n == 0 then []
    else [Write(lay.OptionsAddr() + n - 1, value % 256)] + OptionsWrites(lay, value / 256, n - 1)
  }

  lemma NextOption(lay: Layout, done: seq<Write>, value: nat, n: nat)
    requires 0 < n <= lay.optionsSize
    ensures done + OptionsWrites(lay, value, n)
         == done + [Write(lay.OptionsAddr() + n - 1, value % 256)] + OptionsWrites(lay, value / 256, n - 1)
  {
  }

  function KeyWrites(lay: Layout, layer: nat, row: nat, col: nat, keycode: u16): seq<Write> {
    [Write(lay.KeyAddr(layer, row, col), keycode / 256), Write(lay.KeyAddr(layer, row, col) + 1, keycode % 256)]
  }

  function RowWrites(lay: Layout, fw: Firmware, layer: nat, row: nat, n: nat): seq<Write> {
    if n == 0 then []
    else RowWrites(lay, fw, layer, row, n - 1) + KeyWrites(lay, layer, row, n - 1, fw.keymap(layer, row, n - 1))
  }

  function LayerWrites(lay: Layout, fw: Firmware, layer: nat, n: nat): seq<Write> {
    if n == 0 then [] else LayerWrites(lay, fw, layer, n - 1) + RowWrites(lay, fw, layer, n - 1, lay.cols)
  }

  function KeymapWrites(lay: Layout, fw: Firmware, n: nat): seq<Write> {
    if n == 0 then [] else KeymapWrites(lay, fw, n - 1) + LayerWrites(lay, fw, n - 1, lay.rows)
  }

  function MacroWrites(lay: Layout, n: nat): (ws: seq<Write>)
    ensures |ws| == n
    ensures forall i :: 0 <= i < n ==> ws[i] == Write(lay.MacroAddr() + i, 0)
  {
    seq(n, i requires 0 <= i => Write(lay.MacroAddr() + i, 0))
  }

  function ResetWrites(lay: Layout, fw: Firmware): seq<Write>
    requires lay.Fits()
  {
    OptionsWrites(lay, fw.options, lay.optionsSize) + KeymapWrites(lay, fw, lay.layers) + MacroWrites(lay, lay.MacroSize())
  }

  /** Magic off, everything reset, magic on. */
  function InitWrites(lay: Layout, fw: Firmware): seq<Write>
    requires |fw.magic| == 3 && lay.Fits()
  {
    MagicWrites(lay, fw, false) + ResetWrites(lay, fw) + MagicWrites(lay, fw, true)
  }

  // ---------- Addresses ----------

  lemma KeyIndexBound(lay: Layout, layer: nat, row: nat, col: nat)
    requires lay.OnKeymap(layer, row, col)
    ensures lay.KeyIndex(layer, row, col) < lay.KeyCount()
  {
    var w := lay.rows * lay.cols;
    assert layer * lay.rows * lay.cols == layer * w;
    assert lay.layers * lay.rows * lay.cols == lay.layers * w;
    MulOrder(layer + 1, lay.layers, w);
    MulOrder(row + 1, lay.rows, lay.cols);
    Next(layer, w);
    Next(row, lay.cols);
  }

  lemma InRow(r: nat, c: nat, rows: nat, cols: nat)
    requires r < rows && c < cols
    ensures r * cols + c < rows * cols
  {
    MulOrder(r + 1, rows, cols);
    Next(r, cols);
  }

  lemma Grouped(l: nat, rows: nat, cols: nat)
    ensures l * rows * cols == l * (rows * cols)
  {
  }

  lemma KeysDistinct(lay: Layout, l: nat, r: nat, c: nat, l': nat, r': nat, c': nat)
    requires lay.OnKeymap(l, r, c) && lay.OnKeymap(l', r', c')
    requires lay.KeyIndex(l, r, c) == lay.KeyIndex(l', r', c')
    ensures l == l' && r == r' && c == c'
  {
    InRow(r, c, lay.rows, lay.cols);
    InRow(r', c', lay.rows, lay.cols);
    Grouped(l, lay.rows, lay.cols);
    Grouped(l', lay.rows, lay.cols);
    PositionsDistinct(l, r * lay.cols + c, l', r' * lay.cols + c', lay.rows * lay.cols);
    PositionsDistinct(r, c, r', c', lay.cols);
  }

  /** Keys are stored layer by layer, in each layer row by row, and in each row by column. */
  predicate KeyBefore(l: nat, r: nat, c: nat, l': nat, r': nat, c': nat) {
    l < l' || (l == l' && (r < r' || (r == r' && c < c')))
  }

  lemma KeysInOrder(lay: Layout, l: nat, r: nat, c: nat, l': nat, r': nat, c': nat)
    requires lay.OnKeymap(l, r, c) && lay.OnKeymap(l', r', c')
    ensures lay.KeyIndex(l, r, c) < lay.KeyIndex(l', r', c') <==> KeyBefore(l, r, c, l', r', c')
  {
    if KeyBefore(l, r, c, l', r', c') {
      KeyAfter(lay, l, r, c, l', r', c');
    } else if KeyBefore(l', r', c', l, r, c) {
      KeyAfter(lay, l', r', c', l, r, c);
    }
  }

  lemma KeyAfter(lay: Layout, l: nat, r: nat, c: nat, l': nat, r': nat, c': nat)
    requires lay.OnKeymap(l, r, c) && lay.OnKeymap(l', r', c') && KeyBefore(l, r, c, l', r', c')
    ensures lay.KeyIndex(l, r, c) < lay.KeyIndex(l', r', c')
  {
    Grouped(l, lay.rows, lay.cols);
    Grouped(l', lay.rows, lay.cols);
    if l < l' {
      InRow(r, c, lay.rows, lay.cols);
      MulOrder(l + 1, l', lay.rows * lay.cols);
      Next(l, lay.rows * lay.cols);
    } else if r < r' {
      MulOrder(r + 1, r', lay.cols);
      Next(r, lay.cols);
    }
  }

  // ---------- Reading back ----------

  predicate InMemory(lay: Layout, mem: seq<u8>) {
    lay.Fits() && lay.maxAddr < |mem|
  }

  /** The big-endian options value. */
  function OptionsFrom(mem: seq<u8>, at: nat, n: nat): nat
    requires at + n <= |mem|
  {
    if n == 0 then 0 else 256 * OptionsFrom(mem, at, n - 1) + mem[at + n - 1]
  }

  function GetKeycode(lay: Layout, mem: seq<u8>, l: nat, r: nat, c: nat): u16
    requires InMemory(lay, mem) && lay.OnKeymap(l, r, c)
  {
    KeyIndexBound(lay, l, r, c);
    (mem[lay.KeyAddr(l, r, c)] as int) * 256 + mem[lay.KeyAddr(l, r, c) + 1]
  }

  /** Setting one keycode sets exactly that one. */
  lemma SetKeycode(lay: Layout, mem: seq<u8>, l: nat, r: nat, c: nat, keycode: u16, l': nat, r': nat, c': nat)
    requires InMemory(lay, mem) && lay.OnKeymap(l, r, c) && lay.OnKeymap(l', r', c')
    ensures GetKeycode(lay, Apply(mem, KeyWrites(lay, l, r, c, keycode)), l', r', c')
         == if l == l' && r == r' && c == c' then keycode else GetKeycode(lay, mem, l', r', c')
  {
    var ws := KeyWrites(lay, l, r, c, keycode);
    assert ws[..1] == [ws[0]] && ws[..1][..0] == [];
    assert Apply(mem, ws[..1]) == mem[ws[0].addr := ws[0].value] by {
      KeyIndexBound(lay, l, r, c);
    }
    KeyIndexBound(lay, l, r, c);
    KeyIndexBound(lay, l', r', c');
    if lay.KeyIndex(l, r, c) == lay.KeyIndex(l', r', c') {
      KeysDistinct(lay, l, r, c, l', r', c');
    }
  }

  lemma OneWrite(mem: seq<u8>, a: nat, x: u8)
    requires a < |mem|
    ensures Apply(mem, [Write(a, x)]) == mem[a := x]
  {
    assert [Write(a, x)][..0] == [];
  }

  lemma TwoWrites(mem: seq<u8>, a: nat, x: u8, b: nat, y: u8)
    requires a < |mem| && b < |mem|
    ensures Apply(mem, [Write(a, x), Write(b, y)]) == mem[a := x][b := y]
  {
    OneWrite(mem, a, x);
    OneWrite(mem[a := x], b, y);
    ApplySplits(mem, [Write(a, x)], [Write(b, y)]);
    assert [Write(a, x)] + [Write(b, y)] == [Write(a, x), Write(b, y)];
  }

  lemma KeyPlace(lay: Layout, mem: seq<u8>, l: nat, r: nat, c: nat, keycode: u16, index: nat) returns (at: nat)
    requires InMemory(lay, mem) && lay.OnKeymap(l, r, c) && index == lay.KeyIndex(l, r, c)
    ensures at == lay.KeymapAddr() + 2 * index && at + 1 < |mem|
    ensures KeyWrites(lay, l, r, c, keycode) == [Write(at, keycode / 256), Write(at + 1, keycode % 256)]
  {
    at := lay.KeymapAddr() + 2 * index;
    KeyIndexBound(lay, l, r, c);
  }

  /** The bytes of a keycode, the high one first, and no others; each key takes two. */
  lemma KeycodeBytes(lay: Layout, mem: seq<u8>, l: nat, r: nat, c: nat, keycode: u16, index: nat) returns (at: nat)
    requires InMemory(lay, mem) && lay.OnKeymap(l, r, c) && index == lay.KeyIndex(l, r, c)
    ensures at == lay.KeymapAddr() + 2 * index && at + 1 < |mem|
    ensures Apply(mem, KeyWrites(lay, l, r, c, keycode)) == mem[at := keycode / 256][at + 1 := keycode % 256]
  {
    at := KeyPlace(lay, mem, l, r, c, keycode, index);
    TwoWrites(mem, at, keycode / 256, at + 1, keycode % 256);
  }

  lemma {:induction false} RowWritten(lay: Layout, fw: Firmware, mem: seq<u8>, n: nat, m: nat, k: nat, l: nat, r: nat, c: nat)
    requires InMemory(lay, mem) && lay.OnKeymap(l, r, c) && n < lay.layers && m < lay.rows && k <= lay.cols
    ensures GetKeycode(lay, Apply(mem, RowWrites(lay, fw, n, m, k)), l, r, c)
         == if l == n && r == m && c < k then fw.keymap(l, r, c) else GetKeycode(lay, mem, l, r, c)
  {
    if k > 0 {
      var before := RowWrites(lay, fw, n, m, k - 1);
      RowWritten(lay, fw, mem, n, m, k - 1, l, r, c);
      ApplySplits(mem, before, KeyWrites(lay, n, m, k - 1, fw.keymap(n, m, k - 1)));
      SetKeycode(lay, Apply(mem, before), n, m, k - 1, fw.keymap(n, m, k - 1), l, r, c);
    }
  }

  lemma {:induction false} LayerWritten(lay: Layout, fw: Firmware, mem: seq<u8>, n: nat, m: nat, l: nat, r: nat, c: nat)
    requires InMemory(lay, mem) && lay.OnKeymap(l, r, c) && n < lay.layers && m <= lay.rows
    ensures GetKeycode(lay, Apply(mem, LayerWrites(lay, fw, n, m)), l, r, c)
         == if l == n && r < m then fw.keymap(l, r, c) else GetKeycode(lay, mem, l, r, c)
  {
    if m > 0 {
      var before := LayerWrites(lay, fw, n, m - 1);
      LayerWritten(lay, fw, mem, n, m - 1, l, r, c);
      ApplySplits(mem, before, RowWrites(lay, fw, n, m - 1, lay.cols));
      RowWritten(lay, fw, Apply(mem, before), n, m - 1, lay.cols, l, r, c);
    }
  }

  /** Resetting the keymap leaves every key with what is in flash. */
  lemma {:induction false} KeymapWritten(lay: Layout, fw: Firmware, mem: seq<u8>, n: nat, l: nat, r: nat, c: nat)
    requires InMemory(lay, mem) && lay.OnKeymap(l, r, c) && n <= lay.layers
    ensures GetKeycode(lay, Apply(mem, KeymapWrites(lay, fw, n)), l, r, c)
         == if l < n then fw.keymap(l, r, c) else GetKeycode(lay, mem, l, r, c)
  {
    if n > 0 {
      KeymapWritten(lay, fw, mem, n - 1, l, r, c);
      LayerAfter(lay, fw, mem, n);
      LayerWritten(lay, fw, Apply(mem, KeymapWrites(lay, fw, n - 1)), n - 1, lay.rows, l, r, c);
    }
  }

  lemma LayerAfter(lay: Layout, fw: Firmware, mem: seq<u8>, n: nat)
    requires 0 < n
    ensures Apply(mem, KeymapWrites(lay, fw, n))
         == Apply(Apply(mem, KeymapWrites(lay, fw, n - 1)), LayerWrites(lay, fw, n - 1, lay.rows))
  {
    ApplySplits(mem, KeymapWrites(lay, fw, n - 1), LayerWrites(lay, fw, n - 1, lay.rows));
  }

  // ---------- Where the writes go ----------

  lemma KeyWithin(lay: Layout, l: nat, r: nat, c: nat, keycode: u16)
    requires lay.OnKeymap(l, r, c)
    ensures Within(KeyWrites(lay, l, r, c, keycode), lay.KeymapAddr(), lay.MacroAddr())
  {
    KeyIndexBound(lay, l, r, c);
  }

  lemma {:induction false} RowWithin(lay: Layout, fw: Firmware, l: nat, r: nat, k: nat)
    requires l < lay.layers && r < lay.rows && k <= lay.cols
    ensures Within(RowWrites(lay, fw, l, r, k), lay.KeymapAddr(), lay.MacroAddr())
  {
    if k > 0 {
      RowWithin(lay, fw, l, r, k - 1);
      KeyWithin(lay, l, r, k - 1, fw.keymap(l, r, k - 1));
    }
  }

  lemma {:induction false} LayerWithin(lay: Layout, fw: Firmware, l: nat, m: nat)
    requires l < lay.layers && m <= lay.rows
    ensures Within(LayerWrites(lay, fw, l, m), lay.KeymapAddr(), lay.MacroAddr())
  {
    if m > 0 {
      LayerWithin(lay, fw, l, m - 1);
      RowWithin(lay, fw, l, m - 1, lay.cols);
    }
  }

  lemma {:induction false} KeymapWithin(lay: Layout, fw: Firmware, n: nat)
    requires n <= lay.layers
    ensures Within(KeymapWrites(lay, fw, n), lay.KeymapAddr(), lay.MacroAddr())
  {
    if n > 0 {
      KeymapWithin(lay, fw, n - 1);
      LayerWithin(lay, fw, n - 1, lay.rows);
    }
  }

  /** Between switching the magic off and on, the magic is not touched. */
  lemma ResetWithin(lay: Layout, fw: Firmware)
    requires lay.Fits()
    ensures Within(ResetWrites(lay, fw), lay.OptionsAddr(), lay.maxAddr + 1)
  {
    KeymapWithin(lay, fw, lay.layers);
  }

  // ---------- Crash consistency ----------

  /** The magic bytes after the first `k` of its three writes. */
  lemma {:induction false} MagicWritten(lay: Layout, fw: Firmware, mem: seq<u8>, valid: bool, k: nat)
    requires ValidFirmware(fw) && lay.magicAddr + 3 <= |mem| && k <= 3
    ensures MagicBytes(lay, Apply(mem, MagicWrites(lay, fw, valid)[..k]))
         == (if valid then fw.magic[..k] else [0xFF, 0xFF, 0xFF][..k]) + MagicBytes(lay, mem)[k..]
  {
    var ws := MagicWrites(lay, fw, valid);
    if k > 0 {
      MagicWritten(lay, fw, mem, valid, k - 1);
      assert ws[..k][..k - 1] == ws[..k - 1];
      var before := Apply(mem, ws[..k - 1]);
      assert Apply(mem, ws[..k]) == before[lay.magicAddr + (k - 1) := ws[k - 1].value];
      NextMagic(lay, before, MagicBytes(lay, mem), if valid then fw.magic else [0xFF, 0xFF, 0xFF], k);
    }
  }

  lemma NextMagic(lay: Layout, mem: seq<u8>, was: seq<u8>, magic: seq<u8>, k: nat)
    requires lay.magicAddr + 3 <= |mem| && |was| == |magic| == 3 && 0 < k <= 3
    requires MagicBytes(lay, mem) == magic[..k - 1] + was[k - 1..]
    ensures MagicBytes(lay, mem[lay.magicAddr + (k - 1) := magic[k - 1]]) == magic[..k] + was[k..]
  {
    assert k - 1 + 1 == k;
    MagicByteSet(lay, mem, k - 1, magic[k - 1]);
    PatchMore(magic, was, k - 1);
  }

  lemma MagicByteSet(lay: Layout, mem: seq<u8>, i: nat, byte: u8)
    requires lay.magicAddr + 3 <= |mem| && i < 3
    ensures MagicBytes(lay, mem[lay.magicAddr + i := byte]) == MagicBytes(lay, mem)[i := byte]
  {
  }

  lemma PatchMore(bytes: seq<u8>, was: seq<u8>, i: nat)
    requires |bytes| == |was| && i < |was|
    ensures (bytes[..i] + was[i..])[i := bytes[i]] == bytes[..i + 1] + was[i + 1..]
  {
  }

  /**
    The magic is valid at no point between the first and the last write: after the first `k` of the
    writes it is valid exactly if none has been made and it was, or all have.
  */
  lemma CrashPoint(lay: Layout, fw: Firmware, mem: seq<u8>, k: nat)
    requires ValidFirmware(fw) && InMemory(lay, mem) && k <= |InitWrites(lay, fw)|
    ensures HasMagic(lay, fw, Apply(mem, InitWrites(lay, fw)[..k]))
       <==> (k == 0 && HasMagic(lay, fw, mem)) || k == |InitWrites(lay, fw)|
  {
    var off, reset, on := MagicWrites(lay, fw, false), ResetWrites(lay, fw), MagicWrites(lay, fw, true);
    var all := InitWrites(lay, fw);
    if k <= 3 {
      assert all[..k] == off[..k];
      MagicWritten(lay, fw, mem, false, k);
    } else {
      var off' := Apply(mem, off);
      assert off[..3] == off;
      MagicWritten(lay, fw, mem, false, 3);
      if k <= 3 + |reset| {
        var part := reset[..k - 3];
        assert all[..k] == off + part;
        ApplySplits(mem, off, part);
        ResetLeavesMagic(lay, fw, off', part);
      } else {
        var part := on[..k - 3 - |reset|];
        assert all[..k] == off + (reset + part);
        ApplySplits(mem, off, reset + part);
        ApplySplits(off', reset, part);
        ResetLeavesMagic(lay, fw, off', reset);
        MagicWritten(lay, fw, Apply(off', reset), true, |part|);
        assert k == |all| <==> |part| == 3;
      }
    }
  }

  lemma ResetLeavesMagic(lay: Layout, fw: Firmware, mem: seq<u8>, part: seq<Write>)
    requires InMemory(lay, mem) && part <= ResetWrites(lay, fw)
    ensures MagicBytes(lay, Apply(mem, part)) == MagicBytes(lay, mem)
  {
    ResetWithin(lay, fw);
    assert Within(part, lay.OptionsAddr(), lay.maxAddr + 1);
    Outside(mem, part, lay.OptionsAddr(), lay.maxAddr + 1, lay.magicAddr);
    Outside(mem, part, lay.OptionsAddr(), lay.maxAddr + 1, lay.magicAddr + 1);
    Outside(mem, part, lay.OptionsAddr(), lay.maxAddr + 1, lay.magicAddr + 2);
  }

  // ---------- The reset state ----------

  lemma {:induction false} OptionsLocal(mem: seq<u8>, mem': seq<u8>, at: nat, n: nat)
    requires at + n <= |mem| == |mem'| && forall i :: at <= i < at + n ==> mem[i] == mem'[i]
    ensures OptionsFrom(mem, at, n) == OptionsFrom(mem', at, n)
  {
    if n > 0 {
      OptionsLocal(mem, mem', at, n - 1);
    }
  }

  /** The options read back are the ones written, as far as their bytes reach. */
  lemma {:induction false} OptionsWritten(lay: Layout, mem: seq<u8>, value: nat, n: nat)
    requires InMemory(lay, mem) && n <= lay.optionsSize
    ensures OptionsFrom(Apply(mem, OptionsWrites(lay, value, n)), lay.OptionsAddr(), n) == value % Pow256(n)
    decreases n
  {
    if n > 0 {
      var mem1 := OptionsStep(lay, mem, value, n);
      OptionsWritten(lay, mem1, value / 256, n - 1);
      LowBytes(value, n);
    }
  }

  lemma LastOptionFirst(lay: Layout, value: nat, n: nat, rest: seq<Write>)
    requires 0 < n <= lay.optionsSize && rest == OptionsWrites(lay, value / 256, n - 1)
    ensures OptionsWrites(lay, value, n) == [Write(lay.OptionsAddr() + n - 1, value % 256)] + rest
  {
  }

  /** The options are stored with the least significant byte last. */
  lemma LastOptionByte(lay: Layout, mem: seq<u8>, value: nat)
    requires InMemory(lay, mem)
    ensures var n := lay.optionsSize;
            Apply(mem, OptionsWrites(lay, value, n))[lay.OptionsAddr() + n - 1] == value % 256
  {
    var n := lay.optionsSize;
    LastOptionFirst(lay, value, n, OptionsWrites(lay, value / 256, n - 1));
    var mem1 := FirstKept(mem, lay.OptionsAddr() + n - 1, value % 256, OptionsWrites(lay, value / 256, n - 1), lay.OptionsAddr());
  }

  lemma OptionsStep(lay: Layout, mem: seq<u8>, value: nat, n: nat) returns (mem1: seq<u8>)
    requires InMemory(lay, mem) && 0 < n <= lay.optionsSize
    ensures InMemory(lay, mem1)
    ensures OptionsFrom(Apply(mem, OptionsWrites(lay, value, n)), lay.OptionsAddr(), n)
         == 256 * OptionsFrom(Apply(mem1, OptionsWrites(lay, value / 256, n - 1)), lay.OptionsAddr(), n - 1) + value % 256
  {
    var low, rest := value % 256, OptionsWrites(lay, value / 256, n - 1);
    assert OptionsWrites(lay, value, n) == [Write(lay.OptionsAddr() + n - 1, low)] + rest;
    mem1 := LastOption(lay, mem, low, rest, n);
  }

  lemma LowBytes(value: nat, n: nat)
    requires n > 0
    ensures value % Pow256(n) == 256 * (value / 256 % Pow256(n - 1)) + value % 256
  {
    ByteRemainder(value, Pow256(n - 1));
  }

  /** The last byte of the options is written first, and read last. */
  lemma LastOption(lay: Layout, mem: seq<u8>, low: u8, rest: seq<Write>, n: nat) returns (mem1: seq<u8>)
    requires InMemory(lay, mem) && 0 < n <= lay.optionsSize
    requires Within(rest, lay.OptionsAddr(), lay.OptionsAddr() + n - 1)
    ensures InMemory(lay, mem1)
    ensures var mem' := Apply(mem1, rest);
            && Apply(mem, [Write(lay.OptionsAddr() + n - 1, low)] + rest) == mem'
            && OptionsFrom(mem', lay.OptionsAddr(), n) == 256 * OptionsFrom(mem', lay.OptionsAddr(), n - 1) + low
  {
    mem1 := FirstKept(mem, lay.OptionsAddr() + n - 1, low, rest, lay.OptionsAddr());
  }

  /** A first write that the later ones do not touch. */
  lemma FirstKept(mem: seq<u8>, addr: nat, byte: u8, rest: seq<Write>, at: nat) returns (mem1: seq<u8>)
    requires addr < |mem| && Within(rest, at, addr)
    ensures |mem1| == |mem|
    ensures var mem' := Apply(mem1, rest);
            Apply(mem, [Write(addr, byte)] + rest) == mem' && mem'[addr] == byte
  {
    var first := [Write(addr, byte)];
    ApplySplits(mem, first, rest);
    mem1 := Apply(mem, first);
    assert first[..0] == [];
    Outside(mem1, rest, at, addr, addr);
  }

  lemma {:induction false} MacrosWritten(lay: Layout, mem: seq<u8>, n: nat, i: nat)
    requires InMemory(lay, mem) && i < n <= lay.MacroSize()
    ensures Apply(mem, MacroWrites(lay, n))[lay.MacroAddr() + i] == 0
  {
    assert MacroWrites(lay, n)[..n - 1] == MacroWrites(lay, n - 1);
    if i < n - 1 {
      MacrosWritten(lay, mem, n - 1, i);
    }
  }

  /** Everything is as after a reset. */
  ghost predicate WhollyReset(lay: Layout, fw: Firmware, mem: seq<u8>)
    requires InMemory(lay, mem)
  {
    && HasMagic(lay, fw, mem)
    && OptionsFrom(mem, lay.OptionsAddr(), lay.optionsSize) == fw.options % Pow256(lay.optionsSize)
    && (forall l, r, c :: lay.OnKeymap(l, r, c) ==> GetKeycode(lay, mem, l, r, c) == fw.keymap(l, r, c))
    && (forall i :: lay.MacroAddr() <= i <= lay.maxAddr ==> mem[i] == 0)
  }

  /** Bytes of VIA's own areas; the custom area between options and keymap is the keyboard's. */
  predicate Owned(lay: Layout, addr: nat) {
    lay.magicAddr <= addr < lay.OptionsAddr() + lay.optionsSize || lay.KeymapAddr() <= addr <= lay.maxAddr
  }

  /** Keymaps that agree byte by byte agree key by key. */
  lemma KeycodeLocal(lay: Layout, mem: seq<u8>, mem': seq<u8>, l: nat, r: nat, c: nat)
    requires InMemory(lay, mem) && |mem'| == |mem| && lay.OnKeymap(l, r, c)
    requires forall i :: lay.KeymapAddr() <= i < lay.MacroAddr() ==> mem[i] == mem'[i]
    ensures GetKeycode(lay, mem, l, r, c) == GetKeycode(lay, mem', l, r, c)
  {
    KeyIndexBound(lay, l, r, c);
  }

  lemma AreaKept(mem: seq<u8>, ws: seq<Write>, low: nat, high: nat, from: nat, to: nat)
    requires Within(ws, low, high) && to <= |mem| && (to <= low || high <= from)
    ensures forall i :: from <= i < to ==> Apply(mem, ws)[i] == mem[i]
  {
    forall i | from <= i < to
      ensures Apply(mem, ws)[i] == mem[i]
    {
      Outside(mem, ws, low, high, i);
    }
  }

  /** The memory after the options, after the keymap, and after the macros have been written. */
  lemma ResetInThree(lay: Layout, fw: Firmware, mem: seq<u8>) returns (mem1: seq<u8>, mem2: seq<u8>)
    requires InMemory(lay, mem)
    ensures InMemory(lay, mem1) && InMemory(lay, mem2)
    ensures mem1 == Apply(mem, OptionsWrites(lay, fw.options, lay.optionsSize))
    ensures mem2 == Apply(mem1, KeymapWrites(lay, fw, lay.layers))
    ensures Apply(mem, ResetWrites(lay, fw)) == Apply(mem2, MacroWrites(lay, lay.MacroSize()))
  {
    var options, keymap, macros := OptionsWrites(lay, fw.options, lay.optionsSize),
      KeymapWrites(lay, fw, lay.layers), MacroWrites(lay, lay.MacroSize());
    ApplySplits(mem, options + keymap, macros);
    ApplySplits(mem, options, keymap);
    mem1 := Apply(mem, options);
    mem2 := Apply(mem1, keymap);
  }

  lemma OptionsReset(lay: Layout, fw: Firmware, mem: seq<u8>)
    requires InMemory(lay, mem)
    ensures var mem' := Apply(mem, ResetWrites(lay, fw));
            OptionsFrom(mem', lay.OptionsAddr(), lay.optionsSize) == fw.options % Pow256(lay.optionsSize)
  {
    var mem1, mem2 := ResetInThree(lay, fw, mem);
    var keymap, macros := KeymapWrites(lay, fw, lay.layers), MacroWrites(lay, lay.MacroSize());
    KeymapWithin(lay, fw, lay.layers);
    OptionsWritten(lay, mem, fw.options, lay.optionsSize);
    AreaKept(mem1, keymap, lay.KeymapAddr(), lay.MacroAddr(), lay.OptionsAddr(), lay.OptionsAddr() + lay.optionsSize);
    AreaKept(mem2, macros, lay.MacroAddr(), lay.maxAddr + 1, lay.OptionsAddr(), lay.MacroAddr());
    OptionsLocal(mem1, Apply(mem2, macros), lay.OptionsAddr(), lay.optionsSize);
  }

  lemma KeyReset(lay: Layout, fw: Firmware, mem: seq<u8>, l: nat, r: nat, c: nat)
    requires InMemory(lay, mem) && lay.OnKeymap(l, r, c)
    ensures GetKeycode(lay, Apply(mem, ResetWrites(lay, fw)), l, r, c) == fw.keymap(l, r, c)
  {
    var mem1, mem2 := ResetInThree(lay, fw, mem);
    var macros := MacroWrites(lay, lay.MacroSize());
    KeymapWritten(lay, fw, mem1, lay.layers, l, r, c);
    AreaKept(mem2, macros, lay.MacroAddr(), lay.maxAddr + 1, lay.OptionsAddr(), lay.MacroAddr());
    KeycodeLocal(lay, mem2, Apply(mem2, macros), l, r, c);
  }

  /** After the options, the keymap and the macros have been written, each holds its defaults. */
  lemma ResetDone(lay: Layout, fw: Firmware, mem: seq<u8>)
    requires InMemory(lay, mem)
    ensures var mem' := Apply(mem, ResetWrites(lay, fw));
            && OptionsFrom(mem', lay.OptionsAddr(), lay.optionsSize) == fw.options % Pow256(lay.optionsSize)
            && (forall l, r, c :: lay.OnKeymap(l, r, c) ==> GetKeycode(lay, mem', l, r, c) == fw.keymap(l, r, c))
            && (forall i :: lay.MacroAddr() <= i <= lay.maxAddr ==> mem'[i] == 0)
  {
    OptionsReset(lay, fw, mem);
    forall l, r, c | lay.OnKeymap(l, r, c)
      ensures GetKeycode(lay, Apply(mem, ResetWrites(lay, fw)), l, r, c) == fw.keymap(l, r, c)
    {
      KeyReset(lay, fw, mem, l, r, c);
    }
    var _, mem2 := ResetInThree(lay, fw, mem);
    forall i | lay.MacroAddr() <= i <= lay.maxAddr
      ensures Apply(mem, ResetWrites(lay, fw))[i] == 0
    {
      MacrosWritten(lay, mem2, lay.MacroSize(), i - lay.MacroAddr());
    }
  }

  /** Memories that agree outside the magic hold the same settings. */
  lemma SettingsLocal(lay: Layout, fw: Firmware, mem: seq<u8>, mem': seq<u8>)
    requires InMemory(lay, mem) && |mem'| == |mem| && HasMagic(lay, fw, mem')
    requires forall i :: lay.magicAddr + 3 <= i < |mem| ==> mem[i] == mem'[i]
    requires OptionsFrom(mem, lay.OptionsAddr(), lay.optionsSize) == fw.options % Pow256(lay.optionsSize)
    requires forall l, r, c :: lay.OnKeymap(l, r, c) ==> GetKeycode(lay, mem, l, r, c) == fw.keymap(l, r, c)
    requires forall i :: lay.MacroAddr() <= i <= lay.maxAddr ==> mem[i] == 0
    ensures WhollyReset(lay, fw, mem')
  {
    OptionsLocal(mem, mem', lay.OptionsAddr(), lay.optionsSize);
    forall l, r, c | lay.OnKeymap(l, r, c)
      ensures GetKeycode(lay, mem', l, r, c) == fw.keymap(l, r, c)
    {
      KeycodeLocal(lay, mem, mem', l, r, c);
    }
  }

  /** An uninterrupted initialisation leaves exactly the reset state. */
  lemma InitResets(lay: Layout, fw: Firmware, mem: seq<u8>)
    requires ValidFirmware(fw) && InMemory(lay, mem)
    ensures WhollyReset(lay, fw, Apply(mem, InitWrites(lay, fw)))
  {
    var off, reset, on := MagicWrites(lay, fw, false), ResetWrites(lay, fw), MagicWrites(lay, fw, true);
    ApplySplits(mem, off + reset, on);
    ApplySplits(mem, off, reset);
    var mem1 := Apply(mem, off);
    var mem2 := Apply(mem1, reset);
    ResetDone(lay, fw, mem1);
    CrashPoint(lay, fw, mem, |InitWrites(lay, fw)|);
    assert InitWrites(lay, fw)[..|InitWrites(lay, fw)|] == InitWrites(lay, fw);
    AreaKept(mem2, on, lay.magicAddr, lay.magicAddr + 3, lay.magicAddr + 3, |mem|);
    SettingsLocal(lay, fw, mem2, Apply(mem2, on));
  }

  predicate AllOwned(lay: Layout, ws: seq<Write>) {
    forall j :: 0 <= j < |ws| ==> Owned(lay, ws[j].addr)
  }

  lemma InitOwned(lay: Layout, fw: Firmware)
    requires ValidFirmware(fw) && lay.Fits()
    ensures AllOwned(lay, InitWrites(lay, fw))
  {
    KeymapWithin(lay, fw, lay.layers);
    assert AllOwned(lay, OptionsWrites(lay, fw.options, lay.optionsSize));
    assert AllOwned(lay, KeymapWrites(lay, fw, lay.layers));
    assert AllOwned(lay, MacroWrites(lay, lay.MacroSize()));
  }

  lemma {:induction false} OwnedOnly(lay: Layout, mem: seq<u8>, ws: seq<Write>, i: nat)
    requires AllOwned(lay, ws) && i < |mem| && !Owned(lay, i)
    ensures Apply(mem, ws)[i] == mem[i]
  {
    if ws != [] {
      OwnedOnly(lay, mem, ws[..|ws| - 1], i);
    }
  }

  lemma UnownedKept(lay: Layout, fw: Firmware, mem: seq<u8>, k: nat, i: nat)
    requires ValidFirmware(fw) && InMemory(lay, mem) && k <= |InitWrites(lay, fw)|
    requires i < |mem| && !Owned(lay, i)
    ensures Apply(mem, InitWrites(lay, fw)[..k])[i] == mem[i]
  {
    InitOwned(lay, fw);
    OwnedOnly(lay, mem, InitWrites(lay, fw)[..k], i);
  }

  // ---------- Repeated attempts ----------

  /** Initialisation that loses power after `k` writes, if it makes that many. */
  function Attempt(lay: Layout, fw: Firmware, mem: seq<u8>, k: nat): (mem': seq<u8>)
    requires ValidFirmware(fw) && InMemory(lay, mem)
    ensures |mem'| == |mem|
  {
    if HasMagic(lay, fw, mem) then mem
    else Apply(mem, if k < |InitWrites(lay, fw)| then InitWrites(lay, fw)[..k] else InitWrites(lay, fw))
  }

  function Attempts(lay: Layout, fw: Firmware, mem: seq<u8>, ks: seq<nat>): (mem': seq<u8>)
    requires ValidFirmware(fw) && InMemory(lay, mem)
    ensures |mem'| == |mem|
  {
    if ks == [] then mem else Attempt(lay, fw, Attempts(lay, fw, mem, ks[..|ks| - 1]), ks[|ks| - 1])
  }

  /** What the keyboard may find: the original contents, the reset state, or no valid magic. */
  ghost predicate Consistent(lay: Layout, fw: Firmware, original: seq<u8>, mem: seq<u8>)
    requires InMemory(lay, original) && |mem| == |original|
  {
    && (HasMagic(lay, fw, mem) ==> (HasMagic(lay, fw, original) && mem == original) || WhollyReset(lay, fw, mem))
    && (HasMagic(lay, fw, original) ==> mem == original)
    && (forall i :: 0 <= i < |mem| && !Owned(lay, i) ==> mem[i] == original[i])
  }

  lemma AttemptConsistent(lay: Layout, fw: Firmware, original: seq<u8>, mem: seq<u8>, k: nat)
    requires ValidFirmware(fw) && InMemory(lay, original) && |mem| == |original|
    requires Consistent(lay, fw, original, mem)
    ensures Consistent(lay, fw, original, Attempt(lay, fw, mem, k))
    ensures k >= |InitWrites(lay, fw)| ==> HasMagic(lay, fw, Attempt(lay, fw, mem, k))
  {
    if !HasMagic(lay, fw, mem) {
      var all := InitWrites(lay, fw);
      var n := if k < |all| then k else |all|;
      assert all[..|all|] == all;
      CrashPoint(lay, fw, mem, n);
      if n == |all| {
        InitResets(lay, fw, mem);
      }
      forall i | 0 <= i < |mem| && !Owned(lay, i)
        ensures Apply(mem, all[..n])[i] == original[i]
      {
        UnownedKept(lay, fw, mem, n, i);
      }
    }
  }

  /**
    However often initialisation is interrupted, and wherever, a valid magic means the original
    contents or wholly the reset state; and one run to the end leaves a valid magic.
  */
  lemma {:induction false} CrashConsistency(lay: Layout, fw: Firmware, mem: seq<u8>, ks: seq<nat>)
    requires ValidFirmware(fw) && InMemory(lay, mem)
    ensures Consistent(lay, fw, mem, Attempts(lay, fw, mem, ks))
    ensures ks != [] && ks[|ks| - 1] >= |InitWrites(lay, fw)| ==> HasMagic(lay, fw, Attempts(lay, fw, mem, ks))
  {
    if ks != [] {
      CrashConsistency(lay, fw, mem, ks[..|ks| - 1]);
      AttemptConsistent(lay, fw, mem, Attempts(lay, fw, mem, ks[..|ks| - 1]), ks[|ks| - 1]);
    }
  }
}
