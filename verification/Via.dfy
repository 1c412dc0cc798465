/** The EEPROM code of VIA and of the dynamic keymap, writing byte by byte. */
module Via {
  import opened Machine
  import opened ViaModel

  class ViaEeprom {
    const lay: Layout
    const fw: Firmware
    const memory: array<u8>
    ghost var written: seq<Write>

    ghost predicate Valid()
      reads memory
    {
      ValidFirmware(fw) && InMemory(lay, memory[..])
    }

    /** Since the given memory and trace, exactly these bytes were written, in this order. */
    ghost predicate Since(start: seq<u8>, mark: seq<Write>, ws: seq<Write>)
      reads this`written, memory
    {
      memory[..] == Apply(start, ws) && written == mark + ws
    }

    constructor (lay: Layout, fw: Firmware, contents: seq<u8>)
      requires ValidFirmware(fw) && InMemory(lay, contents)
      ensures Valid() && memory[..] == contents && fresh(memory)
      ensures this.lay == lay && this.fw == fw && written == []
    {
      this.lay, this.fw := lay, fw;
      memory := new u8[|contents|](i requires 0 <= i < |contents| => contents[i]);
      written := [];
    }

    method UpdateByte(addr: nat, value: u8)
      requires addr < memory.Length
      modifies memory, this`written
      ensures memory[..] == old(memory[..])[addr := value]
      ensures written == old(written) + [Write(addr, value)]
    {
      memory[addr] := value;
      written := written + [Write(addr, value)];
    }

    /** One more byte of a trace. */
    method Append(addr: nat, value: u8, ghost start: seq<u8>, ghost mark: seq<Write>, ghost ws: seq<Write>)
      requires addr < memory.Length && |start| == memory.Length && Since(start, mark, ws)
      modifies memory, this`written
      ensures Since(start, mark, ws + [Write(addr, value)])
    {
      UpdateByte(addr, value);
      assert (ws + [Write(addr, value)])[..|ws|] == ws;
      assert mark + ws + [Write(addr, value)] == mark + (ws + [Write(addr, value)]);
    }

    method ViaEepromIsValid() returns (valid: bool)
      requires Valid()
      ensures valid == HasMagic(lay, fw, memory[..])
    {
      return memory[lay.magicAddr] == fw.magic[0] && memory[lay.magicAddr + 1] == fw.magic[1]
          && memory[lay.magicAddr + 2] == fw.magic[2];
    }

    method ViaEepromSetValid(valid: bool)
      requires Valid()
      modifies memory, this`written
      ensures Since(old(memory[..]), old(written), MagicWrites(lay, fw, valid))
    {
      ghost var start, mark := memory[..], written;
      assert written == mark + [];
      Append(lay.magicAddr, if valid then fw.magic[0] else 0xFF, start, mark, []);
      Append(lay.magicAddr + 1, if valid then fw.magic[1] else 0xFF, start, mark, MagicWrites(lay, fw, valid)[..1]);
      Append(lay.magicAddr + 2, if valid then fw.magic[2] else 0xFF, start, mark, MagicWrites(lay, fw, valid)[..2]);
    }

    method ViaGetLayoutOptions() returns (value: nat)
      requires Valid()
      ensures value == OptionsFrom(memory[..], lay.OptionsAddr(), lay.optionsSize)
    {
      value := 0;
      for i := 0 to lay.optionsSize
        invariant value == OptionsFrom(memory[..], lay.OptionsAddr(), i)
      {
        value := value * 256;
        value := value + memory[lay.OptionsAddr() + i];
      }
    }

    /** The lowest byte of what is left of the value; `done` is the trace so far. */
    method PutOption(value: nat, n: nat, ghost start: seq<u8>, ghost mark: seq<Write>, ghost done: seq<Write>)
      returns (ghost done': seq<Write>)
      requires Valid() && 0 < n <= lay.optionsSize && |start| == memory.Length && Since(start, mark, done)
      modifies memory, this`written
      ensures Since(start, mark, done')
      ensures done' + OptionsWrites(lay, value / 256, n - 1) == done + OptionsWrites(lay, value, n)
    {
      Append(lay.OptionsAddr() + n - 1, value % 256, start, mark, done);
      NextOption(lay, done, value, n);
      done' := done + [Write(lay.OptionsAddr() + n - 1, value % 256)];
    }

    method ViaSetLayoutOptions(options: u32)
      requires Valid()
      modifies memory, this`written
      ensures Since(old(memory[..]), old(written), OptionsWrites(lay, options, lay.optionsSize))
    {
      ghost var start, mark, done := memory[..], written, [];
      var value: nat := options;
      var n := lay.optionsSize;
      for i := 0 to n
        invariant Since(start, mark, done)
        invariant done + OptionsWrites(lay, value, n - i) == OptionsWrites(lay, options, n)
      {
        done := PutOption(value, n - i, start, mark, done);
        value := value / 256;
      }
      assert done + [] == done;
    }

    method DynamicKeymapGetKeycode(layer: nat, row: nat, col: nat) returns (keycode: u16)
      requires Valid() && lay.OnKeymap(layer, row, col)
      ensures keycode == GetKeycode(lay, memory[..], layer, row, col)
    {
      KeyIndexBound(lay, layer, row, col);
      var address := lay.KeyAddr(layer, row, col);
      return (memory[address] as int) * 256 + memory[address + 1];
    }

    method DynamicKeymapSetKeycode(layer: nat, row: nat, col: nat, keycode: u16)
      requires Valid() && lay.OnKeymap(layer, row, col)
      modifies memory, this`written
      ensures Since(old(memory[..]), old(written), KeyWrites(lay, layer, row, col, keycode))
    {
      KeyIndexBound(lay, layer, row, col);
      ghost var start, mark := memory[..], written;
      assert written == mark + [];
      var address := lay.KeyAddr(layer, row, col);
      Append(address, keycode / 256, start, mark, []);
      Append(address + 1, keycode % 256, start, mark, [Write(address, keycode / 256)]);
    }

    /** A trace continued by another. */
    lemma Joined(start: seq<u8>, mark: seq<Write>, a: seq<Write>, b: seq<Write>)
      requires Since(Apply(start, a), mark + a, b)
      ensures Since(start, mark, a + b)
    {
      ApplySplits(start, a, b);
      assert mark + a + b == mark + (a + b);
    }

    method DynamicKeymapReset()
      requires Valid()
      modifies memory, this`written
      ensures Since(old(memory[..]), old(written), KeymapWrites(lay, fw, lay.layers))
    {
      ghost var start, mark := memory[..], written;
      assert written == mark + [];
      for layer := 0 to lay.layers
        invariant Since(start, mark, KeymapWrites(lay, fw, layer))
      {
        ResetLayer(layer);
        Joined(start, mark, KeymapWrites(lay, fw, layer), LayerWrites(lay, fw, layer, lay.rows));
      }
    }

    method ResetLayer(layer: nat)
      requires Valid() && layer < lay.layers
      modifies memory, this`written
      ensures Since(old(memory[..]), old(written), LayerWrites(lay, fw, layer, lay.rows))
    {
      ghost var start, mark := memory[..], written;
      assert written == mark + [];
      for row := 0 to lay.rows
        invariant Since(start, mark, LayerWrites(lay, fw, layer, row))
      {
        ghost var done := LayerWrites(lay, fw, layer, row);
        ghost var start', mark' := memory[..], written;
        assert written == mark' + [];
        for col := 0 to lay.cols
          invariant Since(start', mark', RowWrites(lay, fw, layer, row, col))
        {
          DynamicKeymapSetKeycode(layer, row, col, fw.keymap(layer, row, col));
          Joined(start', mark', RowWrites(lay, fw, layer, row, col), KeyWrites(lay, layer, row, col, fw.keymap(layer, row, col)));
        }
        Joined(start, mark, done, RowWrites(lay, fw, layer, row, lay.cols));
      }
    }

    method DynamicKeymapMacroReset()
      requires Valid()
      modifies memory, this`written
      ensures Since(old(memory[..]), old(written), MacroWrites(lay, lay.MacroSize()))
    {
      ghost var start, mark := memory[..], written;
      assert written == mark + [];
      var p := lay.MacroAddr();
      var end := lay.MacroAddr() + lay.MacroSize();
      ghost var n := 0;
      while p != end
        invariant n <= lay.MacroSize() && p == lay.MacroAddr() + n
        invariant Since(start, mark, MacroWrites(lay, n))
        decreases lay.MacroSize() - n
      {
        Append(p, 0, start, mark, MacroWrites(lay, n));
        assert MacroWrites(lay, n + 1) == MacroWrites(lay, n) + [Write(p, 0)];
        p := p + 1;
        n := n + 1;
      }
    }

    /** Options, keymap and macros, in this order. */
    method ResetSettings()
      requires Valid()
      modifies memory, this`written
      ensures Since(old(memory[..]), old(written), ResetWrites(lay, fw))
    {
      ghost var start, mark := memory[..], written;
      ghost var options, keymap := OptionsWrites(lay, fw.options, lay.optionsSize), KeymapWrites(lay, fw, lay.layers);
      ViaSetLayoutOptions(fw.options);
      DynamicKeymapReset();
      Joined(start, mark, options, keymap);
      DynamicKeymapMacroReset();
      Joined(start, mark, options + keymap, MacroWrites(lay, lay.MacroSize()));
    }

    method EeconfigInitVia()
      requires Valid()
      modifies memory, this`written
      ensures Since(old(memory[..]), old(written), InitWrites(lay, fw))
    {
      ghost var start, mark := memory[..], written;
      ghost var off, reset := MagicWrites(lay, fw, false), ResetWrites(lay, fw);
      ViaEepromSetValid(false);
      ResetSettings();
      Joined(start, mark, off, reset);
      ViaEepromSetValid(true);
      Joined(start, mark, off + reset, MagicWrites(lay, fw, true));
    }

    /** Resets the EEPROM unless its magic is valid. */
    method ViaInit()
      requires Valid()
      modifies memory, this`written
      ensures HasMagic(lay, fw, memory[..])
      ensures Since(old(memory[..]), old(written), if HasMagic(lay, fw, old(memory[..])) then [] else InitWrites(lay, fw))
    {
      ghost var start := memory[..];
      assert written == written + [];
      var valid := ViaEepromIsValid();
      if !valid {
        EeconfigInitVia();
        InitResets(lay, fw, start);
      }
    }
  }
}
