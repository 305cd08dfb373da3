/** The router against the flat-array device: on the same contents they agree, with every exception named. */
module FlatAgreement {
  import opened Bits
  import opened AddressSpace
  import opened WriteRoute
  import opened Maps
  import opened Domain
  import opened CoilRouter
  import opened RegisterRouter
  import opened ReadRouter
  import opened SingleWrite
  import opened AsyncRouter
  import opened BulkAndSingle
  import opened RouterLaws
  import opened FlatDevice

  /** A domain that maps exactly the addresses below `n`. */
  ghost predicate Tiling<V>(cells: map<int, V>, n: nat)
  {
    forall a :: a in cells <==> 0 <= a < n
  }

  /** The contents of an array that a bank also holds map the addresses below its length, which is at most 65536. */
  lemma ArrayTiles<V>(bank: Bank<V>, cells: array<V>)
    requires bank.Valid() && bank.Cells() == CellsIn(cells)
    ensures Tiling(bank.Cells(), cells.Length) && cells.Length <= 0x1_0000
  {
    if cells.Length > 0x1_0000 {
      BeyondIsUnmapped(bank, 0x1_0000);
      assert false;
    }
  }

  /** Where the two devices part: an empty request, and the last window of a full address space. */
  ghost predicate Parts(n: nat, start: int, end: int)
  {
    start == end || (n == 0x1_0000 && end == 0x1_0000)
  }

  /** Where the router gives up a write that leaves the mapped addresses; what comes before stays written. */
  function Stuck(n: nat, start: int): int
  {
    if start <= n then n else start
  }

  /**
    Hook-free writes: same answer exactly where the devices do not part, and the same store
    wherever the device accepts.
   */
  lemma TilingWrite<V>(ranges: seq<Range>, cells: map<int, V>, n: nat, w: Window<V>)
    requires Tiling(cells, n) && n <= 0x1_0000 && w.Valid() && w.limit == w.end
    ensures BulkVerdict(ranges, cells.Keys, w) == BoundsVerdict(w.end, n) <==> !Parts(n, w.start, w.end)
    ensures w.end <= n ==> Put(cells, w, w.start, Reach(cells.Keys, w.start, w.limit)) == Overlay(cells, w.start, w.values)
    ensures n < w.end ==> Reach(cells.Keys, w.start, w.end) == Stuck(n, w.start)
  {
    var last := if w.end <= n then w.end else Stuck(n, w.start);
    ReachUnique(cells.Keys, w.start, w.end, last);
    assert Slice(w, w.start, w.end) == w.values;
  }

  /** Reads with room for the response. */
  lemma TilingRead<V>(cells: map<int, V>, n: nat, at: u16, end: int, bytes: nat, room: nat)
    requires Tiling(cells, n) && n <= 0x1_0000 && at <= end && bytes <= room
    ensures (ReadVerdict(cells, at, end, bytes, room) == if end <= n then Ok(bytes % 0x100) else Err(InvalidAddress)) <==>
            !Parts(n, at, end)
    ensures at < end ==> (end <= n <==> AllMapped(cells, at, end))
  {
    if AllMapped(cells, at, end) && at < end {
      var last := end - 1;
      assert last in cells;
    }
  }

  /** The device's array is none of the bank's objects. */
  ghost predicate Separate<V>(bank: Bank<V>, cells: array<V>)
  {
    cells as object != bank && forall m :: m in bank.maps ==> cells as object != m
  }

  /** FC10 on a hook-free router and on the flat device with the same contents. */
  method WriteBothRegisters(bank: RegisterBank, device: FlatApp, start: u16, values: seq<bv16>)
    returns (r: Result<()>, s: Result<()>)
    requires bank.Valid() && bank.batch.None? && bank.Cells() == CellsIn(device.registers)
    requires Separate(bank, device.registers)
    requires |values| < 0x1_0000
    modifies bank`log, bank.maps, device.registers
    ensures bank.Valid()
    ensures r == s <==> !Parts(device.registers.Length, start, start + |values|)
    ensures s.Ok? ==> bank.Cells() == CellsIn(device.registers)
    ensures s.Err? ==> CellsIn(device.registers) == old(CellsIn(device.registers))
    ensures s.Err? ==>
              && device.registers.Length < start + |values|
              && bank.Cells() == Put(old(bank.Cells()), WordWindow(start, values), start, Stuck(device.registers.Length, start))
  {
    ghost var cells, w := bank.Cells(), WordWindow(start, values);
    ArrayTiles(bank, device.registers);
    TilingWrite(bank.layout, cells, device.registers.Length, w);
    r := WriteFreeRegisters(bank, start, values, w);
    s := device.WriteMultipleRegisters(start, values);
  }

  /** FC0F on both, with a payload for the window. */
  method WriteBothCoils(bank: CoilBank, device: FlatApp, start: u16, quantity: u16, values: seq<bv8>)
    returns (r: Result<()>, s: Result<()>)
    requires bank.Valid() && bank.batch.None? && bank.Cells() == CellsIn(device.coils) && Separate(bank, device.coils)
    requires quantity <= 8 * |values|
    modifies bank`log, bank.maps, device.coils
    ensures bank.Valid()
    ensures r == s <==> !Parts(device.coils.Length, start, start + quantity)
    ensures s.Ok? ==> bank.Cells() == CellsIn(device.coils)
    ensures s.Err? ==> CellsIn(device.coils) == old(CellsIn(device.coils))
    ensures s.Err? ==>
              && device.coils.Length < start + quantity
              && bank.Cells() == Put(old(bank.Cells()), BitWindow(values, start, quantity), start, Stuck(device.coils.Length, start))
  {
    ghost var cells, w := bank.Cells(), BitWindow(values, start, quantity);
    ArrayTiles(bank, device.coils);
    TilingWrite(bank.layout, cells, device.coils.Length, w);
    r := WriteFreeCoils(bank, start, quantity, values, w);
    s := device.WriteMultipleCoils(start, quantity, values);
  }

  /** FC01 on both: the bit-at-a-time packer of the router and the byte-at-a-time one of the device agree. */
  method ReadBothCoils(bank: CoilBank, device: FlatApp, address: u16, quantity: u16, left: array<bv8>,
                       right: array<bv8>)
    returns (r: Option<Result<nat>>, s: Result<nat>)
    requires bank.Valid() && bank.Cells() == CellsIn(device.coils)
    requires ByteCount(quantity) <= left.Length && ByteCount(quantity) <= right.Length
    requires left != right && left as object != device.coils && right as object != device.coils
    modifies left, right
    ensures r.None? <==> TooWide(bank.layout, bank.Cells(), address, address + quantity)
    ensures r.Some? ==> (r.value == s <==> !Parts(device.coils.Length, address, address + quantity))
    ensures r.Some? && r.value.Ok? ==> s.Ok? && left[..ByteCount(quantity)] == right[..ByteCount(quantity)]
  {
    ghost var end := address + quantity;
    ArrayTiles(bank, device.coils);
    TilingRead(bank.Cells(), device.coils.Length, address, end, ByteCount(quantity), left.Length);
    r := ReadBits(bank, address, quantity, left);
    s := device.ReadCoils(address, quantity, right);
  }

  /** FC03 on both. */
  method ReadBothRegisters(bank: RegisterBank, device: FlatApp, address: u16, quantity: u16, left: array<bv8>,
                           right: array<bv8>)
    returns (r: Result<nat>, s: Result<nat>)
    requires bank.Valid() && bank.Cells() == CellsIn(device.registers)
    requires 2 * quantity <= left.Length && 2 * quantity <= right.Length
    requires left != right && left as object != device.registers && right as object != device.registers
    modifies left, right
    ensures r == s <==> !Parts(device.registers.Length, address, address + quantity)
    ensures r.Ok? ==> s.Ok? && left[..2 * quantity] == right[..2 * quantity]
  {
    ghost var end := address + quantity;
    ArrayTiles(bank, device.registers);
    TilingRead(bank.Cells(), device.registers.Length, address, end, 2 * quantity, left.Length);
    r := ReadWords(bank, address, quantity, left);
    s := device.ReadRegisters(address, quantity, right);
  }

  /** FC06 on both; here the full address space is no exception. */
  method WriteBothSingle(bank: RegisterBank, device: FlatApp, address: u16, value: bv16)
    returns (r: Result<()>, s: Result<()>)
    requires bank.Valid() && HookFree(bank) && bank.Cells() == CellsIn(device.registers)
    requires Separate(bank, device.registers)
    modifies bank`log, bank.maps, device.registers
    ensures bank.Valid() && r == s && bank.Cells() == CellsIn(device.registers)
  {
    r := SetRegister(bank, address, value);
    s := device.WriteSingleRegister(address, value);
  }

  /** FC05 on both. */
  method WriteBothSingleCoil(bank: CoilBank, device: FlatApp, address: u16, value: bool)
    returns (r: Result<()>, s: Result<()>)
    requires bank.Valid() && HookFree(bank) && bank.Cells() == CellsIn(device.coils) && Separate(bank, device.coils)
    modifies bank`log, bank.maps, device.coils
    ensures bank.Valid() && r == s && bank.Cells() == CellsIn(device.coils)
  {
    r := SetCoil(bank, address, value);
    s := device.WriteSingleCoil(address, value);
  }

  /** FC16 on both. */
  method MaskBoth(bank: RegisterBank, device: FlatApp, address: u16, andMask: bv16, orMask: bv16)
    returns (r: Result<()>, s: Result<()>)
    requires bank.Valid() && bank.Cells() == CellsIn(device.registers) && Separate(bank, device.registers)
    modifies bank.maps, device.registers
    ensures bank.Valid() && r == s && bank.Cells() == CellsIn(device.registers)
  {
    r := MaskWriteRegister(bank, address, andMask, orMask);
    s := device.MaskWrite(address, andMask, orMask);
  }

  /** Where FC17 parts: both windows lie in a full address space, and one of them ends with it. */
  ghost predicate PartsReadWrite(n: nat, readEnd: int, writeEnd: int)
  {
    n == 0x1_0000 && readEnd <= n && writeEnd <= n && (readEnd == n || writeEnd == n)
  }

  /** The answer of the flat device to FC17, as a response. */
  ghost function DeviceResponse(written: map<int, bv16>, n: nat, at: int, readEnd: int, writeEnd: int): Response
    requires at <= readEnd && (writeEnd <= n && readEnd <= n ==> AllMapped(written, at, readEnd))
  {
    if writeEnd <= n && readEnd <= n then PackedBits(FcReadWriteMultipleRegisters, BigEndian(Read(written, at, readEnd)))
    else Exception(FcReadWriteMultipleRegisters, IllegalDataAddress)
  }

  /** The answer of the router's FC17 on a tiling domain. */
  lemma TilingReadWrite(ranges: seq<Range>, cells: map<int, bv16>, n: nat, w: Window<bv16>, readAt: u16, readEnd: int)
    requires Tiling(cells, n) && n <= 0x1_0000 && w.Valid() && w.limit == w.end && w.start < w.end && readAt < readEnd
    ensures var written := Overlay(cells, w.start, w.values);
            var after := Put(cells, w, w.start, Reach(cells.Keys, w.start, w.end));
            && (w.end <= n ==> after == written)
            && (w.end <= n && readEnd <= n ==> AllMapped(written, readAt, readEnd))
            && (ReadWriteResponse(cells, w, after, readAt, readEnd) == DeviceResponse(written, n, readAt, readEnd, w.end) <==>
                !PartsReadWrite(n, readEnd, w.end))
  {
    TilingWrite(ranges, cells, n, w);
    var written := Overlay(cells, w.start, w.values);
    assert Tiling(written, n);
    TilingRead(written, n, readAt, readEnd, 0, 0);
  }

  /** FC17 on a hook-free router that maps the addresses below `n`. */
  method RouterReadWrite(bank: RegisterBank, readAt: u16, readCount: u16, writeAt: u16, values: seq<bv16>,
                         ghost n: nat, ghost readEnd: int, ghost writeEnd: int) returns (r: Response)
    requires bank.Valid() && bank.batch.None? && Tiling(bank.Cells(), n) && n <= 0x1_0000
    requires 1 <= readCount <= 125 && 1 <= |values| <= 121 && readEnd == readAt + readCount
    requires writeEnd == writeAt + |values|
    modifies bank`log, bank.maps
    ensures bank.Valid() && (writeEnd <= n ==> bank.Cells() == Overlay(old(bank.Cells()), writeAt, values))
    ensures var written := Overlay(old(bank.Cells()), writeAt, values);
            && (writeEnd <= n && readEnd <= n ==> AllMapped(written, readAt, readEnd))
            && (r == DeviceResponse(written, n, readAt, readEnd, writeEnd) <==> !PartsReadWrite(n, readEnd, writeEnd))
  {
    ghost var w := WordWindow(writeAt, values);
    assert w.end == writeEnd;
    TilingReadWrite(bank.layout, bank.Cells(), n, w, readAt, readEnd);
    DecodedWhole(values, |values|, 121);
    r := ReadWriteFree(bank, readAt, readCount, writeAt, |values|, BigEndian(values), w);
  }

  /** FC17 on both, with counts in range and a full payload; a failed write may leave a prefix on the router only. */
  method ReadWriteBoth(bank: RegisterBank, device: FlatApp, readAt: u16, readCount: u16, writeAt: u16,
                       values: seq<bv16>, out: array<bv8>)
    returns (r: Response, s: Result<nat>)
    requires bank.Valid() && bank.batch.None? && bank.Cells() == CellsIn(device.registers)
    requires Separate(bank, device.registers)
    requires 1 <= readCount <= 125 && 1 <= |values| <= 121 && 2 * readCount <= out.Length
    requires out as object != device.registers
    requires out as object != bank && forall m :: m in bank.maps ==> out as object != m
    modifies bank`log, bank.maps, device.registers, out
    ensures bank.Valid()
    ensures writeAt + |values| <= device.registers.Length ==> bank.Cells() == CellsIn(device.registers)
    ensures r == (if s.Ok? then PackedBits(FcReadWriteMultipleRegisters, out[..2 * readCount])
                  else Exception(FcReadWriteMultipleRegisters, IllegalDataAddress)) <==>
            !PartsReadWrite(device.registers.Length, readAt + readCount, writeAt + |values|)
  {
    ghost var n, readEnd, writeEnd := device.registers.Length, readAt + readCount, writeAt + |values|;
    ArrayTiles(bank, device.registers);
    r := RouterReadWrite(bank, readAt, readCount, writeAt, values, n, readEnd, writeEnd);
    s := device.ReadWrite(readAt, readCount, writeAt, values, out);
  }
}
