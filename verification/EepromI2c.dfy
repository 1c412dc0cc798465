/**
  Writing a block to a paged EEPROM whose writes wrap round within a page, and of which a large
  part of the location may be sent as the device address.
*/
module EepromModel {
  import opened Arithmetic
  import opened Machine

  /**
    The geometry of a part: size, page size, number of address bytes, and how many banks the
    device address can tell apart (1 if it is always the base address).
  */
  datatype Part = Part(bytes: nat, page: nat, addressBytes: nat, banks: nat)

  /** The cells that the address bytes can tell apart. */
  function BankSize(p: Part): (bank: nat)
    ensures bank > 0
  {
    Pow256(p.addressBytes)
  }

  /** Pages make up the part and its banks, and the addresses reach every cell. */
  predicate ValidPart(p: Part) {
    0 < p.page && 0 < p.banks && p.bytes % p.page == 0 && BankSize(p) % p.page == 0 && p.bytes <= p.banks * BankSize(p)
  }

  /** The bank that the device address of a location selects. */
  function DeviceOf(p: Part, location: nat): (device: nat)
    requires p.banks > 0
    ensures device < p.banks
  {
    location / BankSize(p) % p.banks
  }

  /** The number a big-endian address stands for. */
  function DecodeAddress(bytes: seq<u8>): nat {
    if bytes == [] then 0 else 256 * DecodeAddress(bytes[..|bytes| - 1]) + bytes[|bytes| - 1]
  }

  /** The cell that byte `i` of a write at `address` lands in: the page is left only at its start. */
  function Cell(page: nat, address: nat, i: nat): nat
    requires page > 0
  {
    address - address % page + (address % page + i) % page
  }

  /** What the part does with a write, byte by byte. */
  function PageWrite(page: nat, mem: seq<u8>, address: nat, data: seq<u8>): (mem': seq<u8>)
    requires page > 0
    ensures |mem'| == |mem|
  {
    if data == [] then mem
    else
      var n := |data| - 1;
      var before := PageWrite(page, mem, address, data[..n]);
      if Cell(page, address, n) < |mem| then before[Cell(page, address, n) := data[n]] else before
  }

  /** A plain copy into memory. */
  function FlatCopy(mem: seq<u8>, address: nat, data: seq<u8>): (mem': seq<u8>)
    requires address + |data| <= |mem|
    ensures |mem'| == |mem|
  {
    mem[..address] + data + mem[address + |data|..]
  }

  lemma CellInPage(page: nat, address: nat, i: nat)
    requires page > 0 && address % page + i < page
    ensures Cell(page, address, i) == address + i
  {
    SmallRemainder(address % page + i, page);
  }

  /** Within one page the part does what a plain copy does. */
  lemma {:induction false} WriteInPage(page: nat, mem: seq<u8>, address: nat, data: seq<u8>)
    requires page > 0 && address % page + |data| <= page && address + |data| <= |mem|
    ensures PageWrite(page, mem, address, data) == FlatCopy(mem, address, data)
  {
    if data == [] {
    } else {
      var n := |data| - 1;
      WriteInPage(page, mem, address, data[..n]);
      CellInPage(page, address, n);
      assert FlatCopy(mem, address, data) == FlatCopy(mem, address, data[..n])[address + n := data[n]];
    }
  }

  /** A write stays on the page of its address. */
  lemma {:induction false} WriteKeepsOthers(page: nat, mem: seq<u8>, address: nat, data: seq<u8>, i: nat)
    requires page > 0 && i < |mem| && !(address - address % page <= i < address - address % page + page)
    ensures PageWrite(page, mem, address, data)[i] == mem[i]
  {
    if data != [] {
      WriteKeepsOthers(page, mem, address, data[..|data| - 1], i);
    }
  }

  /** Every write of a length does what a plain copy does, whatever the memory and the data. */
  ghost predicate WritesFlat(page: nat, size: nat, address: nat, length: nat)
    requires page > 0 && address + length <= size
  {
    forall mem: seq<u8>, data: seq<u8> :: |mem| == size && |data| == length ==>
      PageWrite(page, mem, address, data) == FlatCopy(mem, address, data)
  }

  /** Why requests are split: a write is a plain copy for all contents and data exactly if it stays within a page. */
  lemma WritesFlatExactly(page: nat, size: nat, address: nat, length: nat)
    requires page > 0 && address + length <= size
    ensures WritesFlat(page, size, address, length) <==> length == 0 || address % page + length <= page
  {
    if length == 0 || address % page + length <= page {
      forall mem: seq<u8>, data: seq<u8> | |mem| == size && |data| == length
        ensures PageWrite(page, mem, address, data) == FlatCopy(mem, address, data)
      {
        if length == 0 {
          assert FlatCopy(mem, address, data) == mem;
        } else {
          WriteInPage(page, mem, address, data);
        }
      }
    } else {
      var mem, data := seq(size, _ => 0 as u8), seq(length, _ => 1 as u8);
      var end := address - address % page + page;
      WriteKeepsOthers(page, mem, address, data, end);
      CopiedByte(mem, address, data, end);
    }
  }

  // ---------- Where a request lands ----------

  /** The first cell of the bank that the device address of a request selects. */
  function BankStart(p: Part, address: nat): nat
    requires p.banks > 0
  {
    Multiple(DeviceOf(p, address), BankSize(p))
  }

  /**
    The bytes of a request from `address` on, each in the cell that its own low address bytes
    select in the bank that starts at `base`.
  */
  function Landed(base: nat, bank: nat, mem: seq<u8>, address: nat, data: seq<u8>): (mem': seq<u8>)
    requires bank > 0
    ensures |mem'| == |mem|
  {
    if data == [] then mem
    else
      var n := |data| - 1;
      var before := Landed(base, bank, mem, address, data[..n]);
      var cell := base + (address + n) % bank;
      if cell < |mem| then before[cell := data[n]] else before
  }

  lemma NextLow(target: nat, bank: nat, i: nat)
    requires bank > 0 && target % bank + i < bank
    ensures (target + i) % bank == target % bank + i
  {
    assert target == bank * (target / bank) + target % bank;
    DivisionUnique(target + i, bank, target / bank, target % bank + i);
  }

  /** Bytes that stay in the bank land side by side. */
  lemma {:induction false} LandedMore(base: nat, bank: nat, mem: seq<u8>, address: nat, done: seq<u8>, data: seq<u8>)
    requires bank > 0 && (address + |done|) % bank + |data| <= bank
    requires base + (address + |done|) % bank + |data| <= |mem|
    ensures Landed(base, bank, mem, address, done + data)
         == FlatCopy(Landed(base, bank, mem, address, done), base + (address + |done|) % bank, data)
  {
    var at := base + (address + |done|) % bank;
    var before := Landed(base, bank, mem, address, done);
    if data == [] {
      assert done + data == done;
    } else {
      var n := |data| - 1;
      LandedMore(base, bank, mem, address, done, data[..n]);
      NextLow(address + |done|, bank, n);
      LandedLast(base, bank, mem, address, done, data);
      CopyMore(before, at, data);
    }
  }

  lemma LandedLast(base: nat, bank: nat, mem: seq<u8>, address: nat, done: seq<u8>, data: seq<u8>)
    requires bank > 0 && data != [] && base + (address + |done| + (|data| - 1)) % bank < |mem|
    ensures var n := |data| - 1;
            Landed(base, bank, mem, address, done + data)
            == Landed(base, bank, mem, address, done + data[..n])[base + (address + |done| + n) % bank := data[n]]
  {
    assert (done + data)[..|done + data| - 1] == done + data[..|data| - 1];
  }

  lemma CopyMore(mem: seq<u8>, at: nat, data: seq<u8>)
    requires data != [] && at + |data| <= |mem|
    ensures var n := |data| - 1; FlatCopy(mem, at, data) == FlatCopy(mem, at, data[..n])[at + n := data[n]]
  {
  }

  lemma LowPart(x: nat, bank: nat)
    requires bank > 0
    ensures x == x / bank * bank + x % bank
  {
  }

  /** The bank of a location on the part is the one its device address selects. */
  lemma FirstOfBank(address: nat, bank: nat, banks: nat)
    requires bank > 0 && banks > 0 && address < banks * bank
    ensures Multiple(address / bank % banks, bank) == address - address % bank
  {
    LowPart(address, bank);
    BlockInRange(address, bank, banks);
    SmallRemainder(address / bank, banks);
    MultipleIs(address / bank, bank);
  }

  lemma BankOf(p: Part, address: nat)
    requires ValidPart(p) && address < p.bytes
    ensures BankStart(p, address) == address - address % BankSize(p)
  {
    FirstOfBank(address, BankSize(p), p.banks);
  }

  /** The request stays within one bank. */
  predicate InOneBank(p: Part, address: nat, length: nat) {
    length == 0 || address % BankSize(p) + length <= BankSize(p)
  }

  /** Within one bank the request lands as one flat copy. */
  lemma LandedFlat(p: Part, mem: seq<u8>, address: nat, data: seq<u8>)
    requires ValidPart(p) && address + |data| <= p.bytes == |mem| && InOneBank(p, address, |data|)
    ensures Landed(BankStart(p, address), BankSize(p), mem, address, data) == FlatCopy(mem, address, data)
  {
    if data != [] {
      BankOf(p, address);
      assert [] + data == data;
      LandedMore(BankStart(p, address), BankSize(p), mem, address, [], data);
    }
  }

  /** Nothing lands past the bank. */
  lemma {:induction false} LandedInBank(base: nat, bank: nat, mem: seq<u8>, address: nat, data: seq<u8>, i: nat)
    requires bank > 0 && base + bank <= i < |mem|
    ensures Landed(base, bank, mem, address, data)[i] == mem[i]
  {
    if data != [] {
      LandedInBank(base, bank, mem, address, data[..|data| - 1], i);
    }
  }

  /** Across the end of a bank the bytes of the next one are not written where they belong. */
  lemma CrossesBank(base: nat, bank: nat, mem: seq<u8>, address: nat, data: seq<u8>)
    requires bank > 0 && base == address - address % bank
    requires address % bank + |data| > bank && data != [] && address + |data| <= |mem|
    ensures address < base + bank < address + |data|
    ensures Landed(base, bank, mem, address, data)[base + bank] == mem[base + bank]
    ensures FlatCopy(mem, address, data)[base + bank] == data[base + bank - address]
  {
    LandedInBank(base, bank, mem, address, data, base + bank);
    CopiedByte(mem, address, data, base + bank);
  }

  lemma CopiedByte(mem: seq<u8>, address: nat, data: seq<u8>, i: nat)
    requires address <= i < address + |data| <= |mem|
    ensures FlatCopy(mem, address, data)[i] == data[i - address]
  {
  }

  /** Every request of a length lands flat, whatever the memory and the data. */
  ghost predicate LandsFlat(p: Part, address: nat, length: nat)
    requires ValidPart(p) && address + length <= p.bytes
  {
    forall mem: seq<u8>, data: seq<u8> :: |mem| == p.bytes && |data| == length ==>
      Landed(BankStart(p, address), BankSize(p), mem, address, data) == FlatCopy(mem, address, data)
  }

  /**
    The device address is that of the start of the request: it is one flat copy for all contents
    and data if and only if it stays within one bank.
  */
  lemma FlatExactly(p: Part, address: nat, length: nat)
    requires ValidPart(p) && address + length <= p.bytes
    ensures LandsFlat(p, address, length) <==> InOneBank(p, address, length)
  {
    if InOneBank(p, address, length) {
      forall mem: seq<u8>, data: seq<u8> | |mem| == p.bytes && |data| == length
        ensures Landed(BankStart(p, address), BankSize(p), mem, address, data) == FlatCopy(mem, address, data)
      {
        LandedFlat(p, mem, address, data);
      }
    } else {
      var mem, data := seq(p.bytes, _ => 0 as u8), seq(length, _ => 1 as u8);
      BankOf(p, address);
      CrossesBank(BankStart(p, address), BankSize(p), mem, address, data);
    }
  }

  /** Two bytes across the end of the first bank of a part of four: the second lands in cell 0. */
  lemma CrossingLands(mem: seq<u8>, a: u8, b: u8)
    requires |mem| == 0x4_0000
    ensures var p := Part(0x4_0000, 128, 2, 8);
            && ValidPart(p)
            && Landed(BankStart(p, 0xFFFF), BankSize(p), mem, 0xFFFF, [a, b]) == mem[0xFFFF := a][0 := b]
  {
    var p := Part(0x4_0000, 128, 2, 8);
    TwoBytes(p);
    LandedTwo(mem, a, b);
  }

  lemma TwoBytes(p: Part)
    requires p.addressBytes == 2 && p.banks > 0
    ensures BankSize(p) == 0x1_0000 && BankStart(p, 0xFFFF) == 0
  {
    assert Pow256(1) == 256;
  }

  lemma LandedTwo(mem: seq<u8>, a: u8, b: u8)
    requires |mem| > 0xFFFF
    ensures Landed(0, 0x1_0000, mem, 0xFFFF, [a, b]) == mem[0xFFFF := a][0 := b]
  {
    assert [a, b][..1] == [a] && [a][..0] == [];
    assert Landed(0, 0x1_0000, mem, 0xFFFF, [a]) == mem[0xFFFF := a];
  }

  // ---------- Transmissions ----------

  /** One transmission: the device, an address on it, and the bytes that follow. */
  datatype Chunk = Chunk(device: nat, address: nat, data: seq<u8>)

  predicate InOnePage(page: nat, c: Chunk)
    requires page > 0
  {
    c.data != [] && c.address % page + |c.data| <= page
  }

  /** How many bytes fit on the page of an address, from there on. */
  function RoomInPage(page: nat, address: nat): (room: nat)
    requires page > 0
    ensures 1 <= room <= page && address % page + room == page
  {
    page - address % page
  }

  /** The bytes of the next transmission of a request. */
  function ChunkLength(page: nat, address: nat, length: nat): (n: nat)
    requires page > 0
    ensures n <= length && (length > 0 ==> n > 0) && address % page + n <= page
  {
    if RoomInPage(page, address) > length then length else RoomInPage(page, address)
  }

  /** The chunks, end to end, are exactly the bytes from `address` on, all sent to one device. */
  predicate Tiles(device: nat, bank: nat, chunks: seq<Chunk>, address: nat, data: seq<u8>)
    requires bank > 0
    decreases |chunks|
  {
    if chunks == [] then data == []
    else
      var c := chunks[|chunks| - 1];
      && |c.data| <= |data|
      && c.data == data[|data| - |c.data|..]
      && c.device == device
      && c.address == (address + |data| - |c.data|) % bank
      && Tiles(device, bank, chunks[..|chunks| - 1], address, data[..|data| - |c.data|])
  }

  lemma TilesSnoc(device: nat, bank: nat, chunks: seq<Chunk>, address: nat, data: seq<u8>, c: Chunk)
    requires bank > 0 && Tiles(device, bank, chunks, address, data)
    requires c.device == device && c.address == (address + |data|) % bank
    ensures Tiles(device, bank, chunks + [c], address, data + c.data)
  {
    assert (chunks + [c])[..|chunks|] == chunks;
    assert (data + c.data)[..|data|] == data;
    assert (data + c.data)[|data|..] == c.data;
  }

  /** The first bytes of a request, and the chunks that wrote them. */
  ghost predicate WrittenSoFar(p: Part, start: seq<u8>, mem: seq<u8>, chunks: seq<Chunk>, address: nat, done: seq<u8>)
    requires ValidPart(p)
  {
    && mem == Landed(BankStart(p, address), BankSize(p), start, address, done)
    && Tiles(DeviceOf(p, address), BankSize(p), chunks, address, done)
    && forall c <- chunks :: InOnePage(p.page, c)
  }

  /** Whole pages before a position do not change its place on the page. */
  lemma AddPages(m: nat, low: nat, page: nat)
    requires page > 0 && m % page == 0
    ensures (m + low) % page == low % page
  {
    var k, q, r := m / page, low / page, low % page;
    assert m == page * k && low == page * q + r;
    Distributes(k, q, page);
    DivisionUnique(m + low, page, k + q, r);
  }

  /** Banks of whole pages are whole pages. */
  lemma {:induction false} BanksOfPages(device: nat, bank: nat, page: nat)
    requires page > 0 && bank % page == 0
    ensures Multiple(device, bank) % page == 0
  {
    if device == 0 {
      SmallRemainder(0, page);
    } else {
      BanksOfPages(device - 1, bank, page);
      AddPages(Multiple(device - 1, bank), bank, page);
    }
  }

  /** The remainder by a bank leaves the place on the page alone. */
  lemma PagePlace(x: nat, bank: nat, page: nat)
    requires page > 0 && bank > 0 && bank % page == 0
    ensures x % bank % page == x % page
    ensures x % bank - x % page + page <= bank
  {
    LowPart(x, bank);
    MultipleIs(x / bank, bank);
    BanksOfPages(x / bank, bank, page);
    AddPages(Multiple(x / bank, bank), x % bank, page);
    RunEnds(x % bank, page, bank);
  }

  /** A transmission of a request stays on its page, in its bank and in the memory. */
  lemma ChunkFits(bytes: nat, page: nat, bank: nat, banks: nat, address: nat, target: nat, n: nat)
    requires page > 0 && bank > 0 && banks > 0 && bank % page == 0 && bytes <= banks * bank
    requires address <= target < target + n <= bytes && target % page + n <= page
    ensures var base, low := Multiple(address / bank % banks, bank), target % bank;
            && (base + low) % page + n <= page && low % page + n <= page
            && low + n <= bank && base + low + n <= bytes
  {
    PagePlace(target, bank, page);
    BanksOfPages(address / bank % banks, bank, page);
    AddPages(Multiple(address / bank % banks, bank), target % bank, page);
    FirstOfBank(address, bank, banks);
    LaterBank(address, target, bank);
  }

  lemma LaterBank(address: nat, target: nat, bank: nat)
    requires bank > 0 && address <= target
    ensures address - address % bank == target - target % bank || address - address % bank + bank <= target
  {
    LowPart(address, bank);
    LowPart(target, bank);
    DivisionOrder(address, target, bank);
    if address / bank < target / bank {
      MulOrder(address / bank + 1, target / bank, bank);
      Next(address / bank, bank);
    }
  }

  /** What the part does with a transmission. */
  function WriteOf(p: Part, mem: seq<u8>, c: Chunk): seq<u8>
    requires ValidPart(p)
  {
    PageWrite(p.page, mem, Multiple(c.device, BankSize(p)) + c.address, c.data)
  }

  /** The transmission of some of the bytes of a request that begin `done` bytes after its start. */
  function ChunkOf(p: Part, address: nat, done: nat, data: seq<u8>): Chunk
    requires ValidPart(p)
  {
    Chunk(DeviceOf(p, address), (address + done) % BankSize(p), data)
  }

  lemma NextChunk(p: Part, start: seq<u8>, mem: seq<u8>, chunks: seq<Chunk>, address: nat, done: seq<u8>, data: seq<u8>)
    requires ValidPart(p) && |start| == p.bytes && WrittenSoFar(p, start, mem, chunks, address, done)
    requires data != [] && address + |done| + |data| <= p.bytes && (address + |done|) % p.page + |data| <= p.page
    ensures var c := ChunkOf(p, address, |done|, data);
            WrittenSoFar(p, start, WriteOf(p, mem, c), chunks + [c], address, done + data)
  {
    var c := ChunkOf(p, address, |done|, data);
    ChunkFits(p.bytes, p.page, BankSize(p), p.banks, address, address + |done|, |data|);
    LandsAt(p.page, BankStart(p, address), BankSize(p), start, address, done, data);
    TilesSnoc(c.device, BankSize(p), chunks, address, done, c);
  }

  /** What the part does with a transmission is what the request is to do with its bytes. */
  lemma LandsAt(page: nat, base: nat, bank: nat, start: seq<u8>, address: nat, done: seq<u8>, data: seq<u8>)
    requires page > 0 && bank > 0
    requires var low := (address + |done|) % bank;
             (base + low) % page + |data| <= page && low + |data| <= bank && base + low + |data| <= |start|
    ensures PageWrite(page, Landed(base, bank, start, address, done), base + (address + |done|) % bank, data)
         == Landed(base, bank, start, address, done + data)
  {
    WriteInPage(page, Landed(base, bank, start, address, done), base + (address + |done|) % bank, data);
    LandedMore(base, bank, start, address, done, data);
  }

  // ---------- The packet loop ----------

  /** The eight-bit counter of the loop that fills a packet, after `n` rounds. */
  function Counter(n: nat): u8 {
    if n == 0 then 0 else Wrap8(Counter(n - 1) + 1)
  }

  lemma {:induction false} CounterIs(n: nat)
    ensures Counter(n) == Wrap8(n)
  {
    if n > 0 {
      CounterIs(n - 1);
      WrapNext(n - 1);
    }
  }

  lemma WrapNext(n: nat)
    ensures Wrap8(Wrap8(n) + 1) == Wrap8(n + 1)
  {
  }

  /** The loop ends once the counter has reached the length. */
  ghost predicate LoopEnds(length: nat) {
    exists n: nat :: Counter(n) >= length
  }

  /** It does if and only if the transmission is shorter than 256 bytes. */
  lemma LoopEndsExactly(length: nat)
    ensures LoopEnds(length) <==> length < 256
  {
    if length < 256 {
      CounterIs(length);
      assert Counter(length) >= length;
    }
  }

  /**
    Where a request of which `done` bytes have been sent stops: before a packet loop that never
    ends, or at its length if there is none.
  */
  function StopsAt(page: nat, address: nat, length: nat, done: nat): (n: nat)
    requires page > 0 && done <= length
    ensures done <= n <= length
    decreases length - done
  {
    if done == length then length
    else
      var chunk := ChunkLength(page, address + done, length - done);
      if chunk >= 256 then done else StopsAt(page, address, length, done + chunk)
  }

  /** The bytes of a request that are sent. */
  function Sendable(page: nat, address: nat, length: nat): (n: nat)
    requires page > 0
    ensures n <= length
  {
    StopsAt(page, address, length, 0)
  }

  /** A request ends: each of its packet loops does. */
  predicate Ends(page: nat, address: nat, length: nat)
    requires page > 0
  {
    Sendable(page, address, length) == length
  }

  lemma {:induction false} ShortPages(page: nat, address: nat, length: nat, done: nat)
    requires 0 < page < 256 && done <= length
    ensures StopsAt(page, address, length, done) == length
    decreases length - done
  {
    if done < length {
      ShortPages(page, address, length, done + ChunkLength(page, address + done, length - done));
    }
  }

  /** From the start of a page on, a request on long pages ends if and only if it is short. */
  lemma FromPageStart(page: nat, address: nat, length: nat, done: nat)
    requires page >= 256 && done <= length && (address + done) % page == 0
    ensures StopsAt(page, address, length, done) == length <==> length - done < 256
  {
    if 0 < length - done < 256 {
      assert ChunkLength(page, address + done, length - done) == length - done;
      assert StopsAt(page, address, length, length) == length;
    }
  }

  /**
    A request ends if and only if the bytes on its first page are fewer than 256, and those after
    it too unless the pages are shorter than that.
  */
  lemma EndsExactly(page: nat, address: nat, length: nat)
    requires page > 0
    ensures var first := ChunkLength(page, address, length);
            Ends(page, address, length) <==> first < 256 && (page < 256 || length - first < 256)
  {
    var first := ChunkLength(page, address, length);
    if page < 256 {
      ShortPages(page, address, length, 0);
    } else if 0 < length == first < 256 {
      assert StopsAt(page, address, length, length) == length;
    } else if first < length {
      RoundUp(address, page);
      assert first == page - address % page;
      FromPageStart(page, address, length, first);
    }
  }

  /** On pages of 256 bytes nothing of an aligned request of a page or more is ever sent. */
  lemma FullPageHangs(address: nat, length: nat)
    requires address % 256 == 0 && length >= 256
    ensures Sendable(256, address, length) == 0 && forall n: nat :: Counter(n) < ChunkLength(256, address, length)
  {
  }

  // ---------- A request under way ----------

  /** `done` bytes of a request have been written since `start`, by `chunks`. */
  ghost predicate Progress(p: Part, buf: seq<u8>, address: nat, done: nat, start: seq<u8>, mem: seq<u8>, chunks: seq<Chunk>)
    requires ValidPart(p)
  {
    && address + |buf| <= p.bytes == |start| && done <= |buf|
    && WrittenSoFar(p, start, mem, chunks, address, buf[..done])
    && StopsAt(p.page, address, |buf|, done) == Sendable(p.page, address, |buf|)
  }

  lemma ProgressMade(p: Part, buf: seq<u8>, address: nat, done: nat, n: nat, start: seq<u8>, mem: seq<u8>, chunks: seq<Chunk>)
    requires ValidPart(p) && Progress(p, buf, address, done, start, mem, chunks) && done < |buf|
    requires n == ChunkLength(p.page, address + done, |buf| - done) < 256
    ensures var c := ChunkOf(p, address, done, buf[done..done + n]);
            Progress(p, buf, address, done + n, start, WriteOf(p, mem, c), chunks + [c])
  {
    SlicesJoin(buf, done, n);
    NextChunk(p, start, mem, chunks, address, buf[..done], buf[done..done + n]);
    StopsLater(p.page, address, |buf|, done);
  }

  lemma SlicesJoin(buf: seq<u8>, done: nat, n: nat)
    requires done + n <= |buf|
    ensures buf[..done + n] == buf[..done] + buf[done..done + n]
  {
  }

  lemma StopsLater(page: nat, address: nat, length: nat, done: nat)
    requires page > 0 && done < length && ChunkLength(page, address + done, length - done) < 256
    ensures StopsAt(page, address, length, done)
         == StopsAt(page, address, length, done + ChunkLength(page, address + done, length - done))
  {
  }

  // ---------- Addresses ----------

  /** The last `n` bytes of an address, most significant first. */
  function BigEndian(p: nat, n: nat): (bytes: seq<u8>)
    ensures |bytes| == n
  {
    if n == 0 then [] else BigEndian(p / 256, n - 1) + [p % 256]
  }

  lemma DivideTwice(p: nat, w: nat)
    requires w > 0
    ensures p / 256 / w == p / (256 * w)
  {
    var h, q, r := p / 256, p / 256 / w, p / 256 % w;
    assert h == w * q + r;
    assert 256 * (w * q) == q * (256 * w);
    DivisionUnique(p, 256 * w, q, 256 * r + p % 256);
  }

  /** Byte `i` of `n` is the one with `n - 1 - i` less significant ones after it. */
  lemma {:induction false} AddressByte(p: nat, n: nat, i: nat)
    requires i < n
    ensures BigEndian(p, n)[i] == p / Pow256(n - 1 - i) % 256
  {
    if i < n - 1 {
      AddressByte(p / 256, n - 1, i);
      DivideTwice(p, Pow256(n - 2 - i));
    }
  }

  /** The part reads back as much of the address as the bytes hold. */
  lemma {:induction false} AddressDecodes(p: nat, n: nat)
    ensures DecodeAddress(BigEndian(p, n)) == p % Pow256(n)
  {
    if n > 0 {
      AddressDecodes(p / 256, n - 1);
      assert BigEndian(p, n)[..n - 1] == BigEndian(p / 256, n - 1);
      ByteRemainder(p, Pow256(n - 1));
    }
  }
}

module EepromI2c {
  import opened Arithmetic
  import opened Machine
  import opened EepromModel

  class Eeprom {
    const part: Part
    const memory: array<u8>
    ghost var sent: seq<Chunk>

    predicate Valid() {
      ValidPart(part) && memory.Length == part.bytes
    }

    constructor (part: Part)
      requires ValidPart(part)
      ensures Valid() && fresh(memory) && this.part == part
    {
      this.part := part;
      memory := new u8[part.bytes](_ => 0xFF);
      sent := [];
    }

    /** The address in the packet's first bytes, most significant first. */
    method FillTargetAddress(packet: array<u8>, address: nat)
      requires part.addressBytes <= packet.Length && packet != memory
      modifies packet
      ensures packet[..part.addressBytes] == BigEndian(address, part.addressBytes)
    {
      var p := address;
      var n := part.addressBytes;
      for i := 0 to n
        invariant BigEndian(address, n) == BigEndian(p, n - i) + packet[n - i..n]
      {
        ghost var low := packet[n - i..n];
        packet[n - 1 - i] := p % 256;
        assert packet[n - 1 - i..n] == [p % 256] + low;
        p := p / 256;
      }
      assert packet[0..n] == packet[..n];
    }

    /** The part receives a packet. */
    method Transmit(device: nat, packet: seq<u8>)
      requires Valid() && part.addressBytes <= |packet|
      modifies memory, this`sent
      ensures var address, data := DecodeAddress(packet[..part.addressBytes]), packet[part.addressBytes..];
              && memory[..] == PageWrite(part.page, old(memory[..]), Multiple(device, BankSize(part)) + address, data)
              && sent == old(sent) + [Chunk(device, address, data)]
    {
      var address, data := DecodeAddress(packet[..part.addressBytes]), packet[part.addressBytes..];
      Program(Multiple(device, BankSize(part)) + address, data);
      sent := sent + [Chunk(device, address, data)];
    }

    /** Programs the cells of one page. */
    method Program(address: nat, data: seq<u8>)
      requires Valid()
      modifies memory
      ensures memory[..] == PageWrite(part.page, old(memory[..]), address, data)
    {
      ghost var before := memory[..];
      for i := 0 to |data|
        invariant memory[..] == PageWrite(part.page, before, address, data[..i])
      {
        assert data[..i + 1][..i] == data[..i];
        var cell := Cell(part.page, address, i);
        if cell < memory.Length {
          memory[cell] := data[i];
        }
      }
      assert data[..|data|] == data;
    }

    /** `done` bytes of a request have been written since `start`, by `chunks`. */
    ghost predicate Written(buf: seq<u8>, address: nat, done: nat, start: seq<u8>, mark: seq<Chunk>, chunks: seq<Chunk>)
      reads this`sent, memory
    {
      Valid() && Progress(part, buf, address, done, start, memory[..], chunks) && sent == mark + chunks
    }

    /** Writes as much of the rest of a request as fits on one page. */
    method WriteNext(packet: array<u8>, buf: seq<u8>, address: nat, done: nat, writeLength: nat, ghost start: seq<u8>, ghost mark: seq<Chunk>, ghost chunks: seq<Chunk>)
      returns (ghost chunk: Chunk)
      requires packet != memory && packet.Length == part.addressBytes + part.page
      requires Written(buf, address, done, start, mark, chunks) && done < |buf|
      requires writeLength == ChunkLength(part.page, address + done, |buf| - done) && LoopEnds(writeLength)
      modifies packet, memory, this`sent
      ensures Written(buf, address, done + writeLength, start, mark, chunks + [chunk])
    {
      ghost var before := memory[..];
      LoopEndsExactly(writeLength);
      chunk := WriteChunk(packet, DeviceOf(part, address), address + done, buf, done, writeLength);
      assert chunk == ChunkOf(part, address, done, buf[done..done + writeLength]);
      ProgressMade(part, buf, address, done, writeLength, start, before, chunks);
    }

    /**
      Every request on the part.  The result says whether all packet loops end; if one does not,
      nothing from there on is ever sent.
    */
    method WriteBlock(buf: seq<u8>, address: nat) returns (ends: bool)
      requires Valid() && address + |buf| <= part.bytes
      modifies memory, this`sent
      ensures ends <==> Ends(part.page, address, |buf|)
      ensures var done := buf[..Sendable(part.page, address, |buf|)];
              && memory[..] == Landed(BankStart(part, address), BankSize(part), old(memory[..]), address, done)
              && |old(sent)| <= |sent| && sent[..|old(sent)|] == old(sent)
              && Tiles(DeviceOf(part, address), BankSize(part), sent[|old(sent)|..], address, done)
      ensures forall c <- sent[|old(sent)|..] :: InOnePage(part.page, c)
      ensures ends && InOneBank(part, address, |buf|) ==> memory[..] == FlatCopy(old(memory[..]), address, buf)
    {
      var packet := new u8[part.addressBytes + part.page](_ => 0);
      var len: nat, done: nat := |buf|, 0;
      ghost var start, mark, chunks: seq<Chunk> := memory[..], sent, [];
      while len > 0
        invariant done + len == |buf| && Written(buf, address, done, start, mark, chunks)
        decreases len
      {
        var writeLength := RoomInPage(part.page, address + done);
        if writeLength > len {
          writeLength := len;
        }
        LoopEndsExactly(writeLength);
        if writeLength >= 256 {
          // the packet loop goes on for ever
          assert sent[|mark|..] == chunks;
          return false;
        }
        ghost var chunk := WriteNext(packet, buf, address, done, writeLength, start, mark, chunks);
        chunks := chunks + [chunk];
        done := done + writeLength;
        len := len - writeLength;
      }
      assert sent[|mark|..] == chunks && buf[..done] == buf;
      if InOneBank(part, address, |buf|) {
        LandedFlat(part, start, address, buf);
      }
      return true;
    }

    method FillPacket(packet: array<u8>, target: nat, buf: seq<u8>, from: nat, length: nat)
      requires packet != memory && packet.Length == part.addressBytes + part.page
      requires from + length <= |buf| && length <= part.page && LoopEnds(length)
      modifies packet
      ensures packet[..part.addressBytes] == BigEndian(target, part.addressBytes)
      ensures packet[part.addressBytes..part.addressBytes + length] == buf[from..from + length]
    {
      var n := part.addressBytes;
      FillTargetAddress(packet, target);
      ghost var address := packet[..n];
      LoopEndsExactly(length);
      var i: u8 := 0;
      while i < length
        invariant i <= length
        invariant packet[..n] == address
        invariant forall k :: n <= k < n + i ==> packet[k] == buf[k - n + from]
        decreases length - i
      {
        packet[n + i] := buf[from + i];
        SmallRemainder(i + 1, 256);
        i := Wrap8(i + 1);
      }
    }

    /** Makes up and sends one packet. */
    method WriteChunk(packet: array<u8>, device: nat, target: nat, buf: seq<u8>, from: nat, length: nat)
      returns (ghost chunk: Chunk)
      requires Valid() && packet != memory && packet.Length == part.addressBytes + part.page
      requires from + length <= |buf| && length <= part.page && LoopEnds(length)
      modifies packet, memory, this`sent
      ensures chunk == Chunk(device, target % BankSize(part), buf[from..from + length])
      ensures memory[..] == WriteOf(part, old(memory[..]), chunk) && sent == old(sent) + [chunk]
    {
      var n := part.addressBytes;
      FillPacket(packet, target, buf, from, length);
      AddressDecodes(target, n);
      var bytes := packet[..n + length];
      assert bytes[..n] == packet[..n] && bytes[n..] == packet[n..n + length];
      chunk := Chunk(device, target % BankSize(part), buf[from..from + length]);
      Transmit(device, bytes);
    }

    /** Writes zeros page by page, if the pages are short enough for the packet loop to end. */
    method DriverErase() returns (ends: bool)
      requires Valid()
      modifies memory, this`sent
      ensures ends <==> part.page < 256 || part.bytes == 0
      ensures memory[..] == if ends then seq(part.bytes, _ => 0) else old(memory[..])
    {
      var zeros := seq(part.page, _ => 0 as u8);
      var address := 0;
      while address < part.bytes
        invariant address % part.page == 0 && address <= part.bytes && (address > 0 ==> part.page < 256)
        invariant memory[..address] == seq(address, _ => 0)
        invariant address == 0 ==> memory[..] == old(memory[..])
        decreases part.bytes - address
      {
        NextPage(part.bytes, part.page, address);
        ghost var before := memory[..];
        PageEnds(part.page, address);
        var written := WriteBlock(zeros, address);
        if !written {
          assert zeros[..0] == [];
          return false;
        }
        PageInBank(part, address);
        assert zeros[..part.page] == zeros;
        LandedFlat(part, before, address, zeros);
        assert memory[..address] == before[..address];
        address := address + part.page;
      }
      assert memory[..part.bytes] == memory[..];
      return true;
    }
  }

  /** A whole page is one transmission. */
  lemma PageEnds(page: nat, address: nat)
    requires page > 0 && address % page == 0
    ensures Sendable(page, address, page) == if page < 256 then page else 0
  {
    assert ChunkLength(page, address, page) == page;
    assert StopsAt(page, address, page, page) == page;
  }

  lemma PageInBank(p: Part, address: nat)
    requires ValidPart(p) && address % p.page == 0
    ensures InOneBank(p, address, p.page)
  {
    PagePlace(address, BankSize(p), p.page);
  }

  /** Pages tile the part. */
  lemma NextPage(bytes: nat, page: nat, address: nat)
    requires page > 0 && bytes % page == 0 && address % page == 0 && address < bytes
    ensures address + page <= bytes && (address + page) % page == 0
  {
    var j, k := address / page, bytes / page;
    assert address == page * j && bytes == page * k;
    MulOrder(k, j, page);
    MulOrder(j + 1, k, page);
    Next(j, page);
    AddModulus(address, page);
  }
}
