/** Laws that relate several handlers of the router: the bit round trip, and independence of the split into maps. */
module RouterLaws {
  import opened Bits
  import opened AddressSpace
  import opened WriteRoute
  import opened FlatLaws
  import opened Maps
  import opened Domain
  import opened CoilRouter
  import opened RegisterRouter
  import opened ReadRouter
  import opened SingleWrite
  import opened AsyncRouter
  import opened BulkAndSingle

  /** What FC01 packs after a window was stored is the payload with its padding cleared. */
  lemma BitRoundTrip(cells: map<int, bool>, values: seq<bv8>, start: u16, quantity: u16, end: int)
    requires quantity <= 8 * |values| && end == start + quantity && AllMapped(cells, start, end)
    ensures var w := BitWindow(values, start, quantity);
            && w.limit == w.end == end
            && AllMapped(Put(cells, w, start, end), start, end)
            && Cleared(values, quantity, Pack(Read(Put(cells, w, start, end), start, end)))
  {
    var w := BitWindow(values, start, quantity);
    assert w.limit == end;
    assert Slice(w, start, end) == Unpack(values, 0, quantity);
    ReadOverlay(cells, start, end, Unpack(values, 0, quantity));
    PackUnpackCleared(values, quantity);
  }

  /** A whole window can be stored only where every address is mapped. */
  lemma OkIsMapped<V>(ranges: seq<Range>, cells: map<int, V>, w: Window<V>, o: Outcome<V>)
    requires w.Valid() && Meant(ranges, cells.Keys, w, o) && o.verdict.Ok?
    ensures o.reached == w.end == w.limit && AllMapped(cells, w.start, w.end) && (!o.refused ==> w.end <= 0xFFFF)
  {
    ReachMapped(cells.Keys, w.start, w.limit);
  }

  /** FC0F, and what FC01 would pack after it. */
  method WriteWhole(bank: CoilBank, start: u16, quantity: u16, values: seq<bv8>, ghost end: int)
    returns (written: Result<()>, ghost packed: seq<bv8>)
    requires bank.Valid() && Sound(bank, start, end, values) && end == start + quantity
    modifies bank`log, bank.maps
    ensures bank.Valid()
    ensures written.Ok? ==>
              && 0 < quantity <= 8 * |values| && end <= 0xFFFF && AllMapped(bank.Cells(), start, end)
              && packed == Pack(Read(bank.Cells(), start, end)) && Cleared(values, quantity, packed)
  {
    ghost var cells, w := bank.Cells(), BitWindow(values, start, quantity);
    ghost var o := Serve(bank.layout, cells.Keys, bank.batch, w, bank.log, w.start);
    packed := [];
    written := WriteMultipleCoils(bank, start, quantity, values);
    if written.Ok? {
      OkIsMapped(bank.layout, cells, w, o);
      BitRoundTrip(cells, values, start, quantity, end);
      assert bank.Cells() == Put(cells, w, start, end);
      packed := Pack(Read(bank.Cells(), start, end));
    }
  }

  /** FC0F, then FC01 of the same window. Past the standard's limits the read may leave its scratch buffer. */
  method WriteThenRead(bank: CoilBank, start: u16, quantity: u16, values: seq<bv8>, out: array<bv8>)
    returns (written: Result<()>, read: Option<Result<nat>>)
    requires bank.Valid() && Sound(bank, start, start + quantity, values) && ByteCount(quantity) <= out.Length
    requires out as object != bank && forall m :: m in bank.maps ==> out as object != m
    modifies bank`log, bank.maps, out
    ensures bank.Valid()
    ensures read.None? <==> TooWide(bank.layout, bank.Cells(), start, start + quantity)
    ensures written.Ok? && read.Some? ==>
              && quantity <= 8 * |values| && read.value == Ok(ByteCount(quantity) % 0x100)
              && Cleared(values, quantity, out[..ByteCount(quantity)])
  {
    ghost var end := start + quantity;
    ghost var packed;
    written, packed := WriteWhole(bank, start, quantity, values, end);
    read := ReadBits(bank, start, quantity, out);
    assert written.Ok? && read.Some? ==> out[..ByteCount(quantity)] == packed;
  }

  /** The answer of a hook-free FC0F or FC10, seen from the flat view. */
  ghost function BulkVerdict<V>(ranges: seq<Range>, keys: set<int>, w: Window<V>): Result<()>
    requires w.Valid()
  {
    if w.start == w.end then Err(InvalidQuantity) else FlatVerdict(ranges, keys, w)
  }

  method WriteFreeRegisters(bank: RegisterBank, start: u16, values: seq<bv16>, ghost w: Window<bv16>)
    returns (r: Result<()>)
    requires bank.Valid() && bank.batch.None? && |values| < 0x1_0000 && w == WordWindow(start, values)
    modifies bank`log, bank.maps
    ensures bank.Valid() && r == BulkVerdict(bank.layout, old(bank.Cells()).Keys, w)
    ensures bank.Cells() == Put(old(bank.Cells()), w, w.start, Reach(old(bank.Cells()).Keys, w.start, w.limit))
  {
    ghost var cells := bank.Cells();
    BankContains(bank);
    ServeFree(bank.layout, cells.Keys, w, bank.log);
    PutNothing(cells, w, start);
    r := WriteMultipleRegisters(bank, start, values);
  }

  method WriteFreeCoils(bank: CoilBank, start: u16, quantity: u16, values: seq<bv8>, ghost w: Window<bool>)
    returns (r: Result<()>)
    requires bank.Valid() && bank.batch.None? && w == BitWindow(values, start, quantity)
    modifies bank`log, bank.maps
    ensures bank.Valid() && r == BulkVerdict(bank.layout, old(bank.Cells()).Keys, w)
    ensures bank.Cells() == Put(old(bank.Cells()), w, w.start, Reach(old(bank.Cells()).Keys, w.start, w.limit))
  {
    ghost var cells := bank.Cells();
    BankContains(bank);
    ServeFree(bank.layout, cells.Keys, w, bank.log);
    PutNothing(cells, w, start);
    r := WriteMultipleCoils(bank, start, quantity, values);
  }

  /**
    Two splits answer alike unless the payload runs out, with all before it stored, where only one
    of them has a map.
   */
  ghost predicate SplitsAgree<V>(left: seq<Range>, right: seq<Range>, keys: set<int>, w: Window<V>)
    requires w.Valid()
  {
    Reach(keys, w.start, w.limit) == w.limit < w.end ==> (Covered(left, w.limit) <==> Covered(right, w.limit))
  }

  /** FC10 on two apps that split the same contents into different maps. */
  method SplitRegisters(left: RegisterBank, right: RegisterBank, start: u16, values: seq<bv16>)
    returns (l: Result<()>, r: Result<()>)
    requires left.Valid() && right.Valid() && Apart(left, right) && left.Cells() == right.Cells() && |values| < 0x1_0000
    modifies left`log, left.maps, right`log, right.maps
    ensures left.Valid() && right.Valid() && l == r && left.Cells() == right.Cells()
  {
    ghost var cells, w := left.Cells(), WordWindow(start, values);
    l := WriteFreeRegisters(left, start, values, w);
    ghost var after := left.Cells();
    assert right.Valid() && right.Cells() == cells;
    r := WriteFreeRegisters(right, start, values, w);
    assert left.Valid() && left.Cells() == after;
  }

  /** FC0F on two such apps, with any payload. */
  method SplitCoils(left: CoilBank, right: CoilBank, start: u16, quantity: u16, values: seq<bv8>)
    returns (l: Result<()>, r: Result<()>)
    requires left.Valid() && right.Valid() && Apart(left, right) && left.Cells() == right.Cells()
    modifies left`log, left.maps, right`log, right.maps
    ensures left.Valid() && right.Valid() && left.Cells() == right.Cells()
    ensures l == r <==> SplitsAgree(left.layout, right.layout, old(left.Cells()).Keys, BitWindow(values, start, quantity))
  {
    ghost var cells, w := left.Cells(), BitWindow(values, start, quantity);
    l := WriteFreeCoils(left, start, quantity, values, w);
    ghost var after := left.Cells();
    assert right.Valid() && right.Cells() == cells;
    r := WriteFreeCoils(right, start, quantity, values, w);
    assert left.Valid() && left.Cells() == after;
  }

  /** FC06 on two such apps. */
  method SplitSingleRegister(left: RegisterBank, right: RegisterBank, address: u16, value: bv16)
    returns (l: Result<()>, r: Result<()>)
    requires left.Valid() && right.Valid() && Apart(left, right) && left.Cells() == right.Cells()
    modifies left`log, left.maps, right`log, right.maps
    ensures left.Valid() && right.Valid() && l == r && left.Cells() == right.Cells()
  {
    ghost var cells := left.Cells();
    l := SetRegister(left, address, value);
    ghost var after := left.Cells();
    assert right.Valid() && right.Cells() == cells;
    r := SetRegister(right, address, value);
    assert left.Valid() && left.Cells() == after;
  }

  /** FC05 on two such apps. */
  method SplitSingleCoil(left: CoilBank, right: CoilBank, address: u16, value: bool)
    returns (l: Result<()>, r: Result<()>)
    requires left.Valid() && right.Valid() && Apart(left, right) && left.Cells() == right.Cells()
    modifies left`log, left.maps, right`log, right.maps
    ensures left.Valid() && right.Valid() && l == r && left.Cells() == right.Cells()
  {
    ghost var cells := left.Cells();
    l := SetCoil(left, address, value);
    ghost var after := left.Cells();
    assert right.Valid() && right.Cells() == cells;
    r := SetCoil(right, address, value);
    assert left.Valid() && left.Cells() == after;
  }

  /** FC16 on two such apps. */
  method SplitMask(left: RegisterBank, right: RegisterBank, address: u16, andMask: bv16, orMask: bv16)
    returns (l: Result<()>, r: Result<()>)
    requires left.Valid() && right.Valid() && Apart(left, right) && left.Cells() == right.Cells()
    modifies left.maps, right.maps
    ensures left.Valid() && right.Valid() && l == r && left.Cells() == right.Cells()
  {
    ghost var cells := left.Cells();
    l := MaskWriteRegister(left, address, andMask, orMask);
    ghost var after := left.Cells();
    assert right.Valid() && right.Cells() == cells;
    r := MaskWriteRegister(right, address, andMask, orMask);
    assert left.Valid() && left.Cells() == after;
  }

  /**
    FC01 and FC02 on two apps with the same contents: same answer, same bytes, unless just one of
    them has a segment that is too long for the scratch buffer.
   */
  method SplitBitReads(left: CoilBank, right: CoilBank, address: u16, quantity: u16, first: array<bv8>,
                       second: array<bv8>)
    returns (l: Option<Result<nat>>, r: Option<Result<nat>>)
    requires left.Valid() && right.Valid() && left.Cells() == right.Cells()
    requires first != second && first.Length == second.Length
    modifies first, second
    ensures l == r <==>
            (ByteCount(quantity) <= first.Length ==>
               (TooWide(left.layout, left.Cells(), address, address + quantity) <==>
                TooWide(right.layout, right.Cells(), address, address + quantity)))
    ensures l.Some? && l.value.Ok? && r.Some? ==>
              ByteCount(quantity) <= first.Length && first[..ByteCount(quantity)] == second[..ByteCount(quantity)]
  {
    l := ReadBits(left, address, quantity, first);
    r := ReadBits(right, address, quantity, second);
  }

  /** FC03 and FC04 on two such apps. */
  method SplitWordReads(left: RegisterBank, right: RegisterBank, address: u16, quantity: u16, first: array<bv8>,
                        second: array<bv8>)
    returns (l: Result<nat>, r: Result<nat>)
    requires left.Valid() && right.Valid() && left.Cells() == right.Cells()
    requires first != second && first.Length == second.Length
    modifies first, second
    ensures l == r
    ensures l.Ok? ==> 2 * quantity <= first.Length && first[..2 * quantity] == second[..2 * quantity]
  {
    l := ReadWords(left, address, quantity, first);
    r := ReadWords(right, address, quantity, second);
  }

  /** The flat meaning of a hook-free FC17: what is stored, and the response. */
  ghost function ReadWriteResponse(cells: map<int, bv16>, w: Window<bv16>, after: map<int, bv16>, readAt: int,
                                   readEnd: int): Response
    requires w.Valid() && readAt <= readEnd
  {
    if Reach(cells.Keys, w.start, w.end) == w.end <= 0xFFFF
    then WordResponse(FcReadWriteMultipleRegisters, after, readAt, readEnd)
    else Exception(FcReadWriteMultipleRegisters, IllegalDataAddress)
  }

  method ReadWriteFree(bank: RegisterBank, readAt: u16, readCount: u16, writeAt: u16, writeCount: u16, data: seq<bv8>,
                       ghost w: Window<bv16>) returns (response: Response)
    requires bank.Valid() && bank.batch.None? && w == WordWindow(writeAt, Decoded(data, writeCount, 121))
    modifies bank`log, bank.maps
    ensures bank.Valid()
    ensures 1 <= writeCount <= 121 && 1 <= readCount <= 125 ==>
              && bank.Cells() == Put(old(bank.Cells()), w, w.start, Reach(old(bank.Cells()).Keys, w.start, w.end))
              && response == ReadWriteResponse(old(bank.Cells()), w, bank.Cells(), readAt, readAt + readCount)
    ensures !(1 <= writeCount <= 121 && 1 <= readCount <= 125) ==>
              && bank.Cells() == old(bank.Cells())
              && response == Exception(FcReadWriteMultipleRegisters, IllegalDataValue)
  {
    BankContains(bank);
    ServeFree(bank.layout, bank.Cells().Keys, w, bank.log);
    response := ReadWriteArm(bank, readAt, readCount, writeAt, writeCount, data);
  }

  /** FC17 on two apps that split the same contents, for any counts and any payload. */
  method SplitReadWrite(left: RegisterBank, right: RegisterBank, readAt: u16, readCount: u16, writeAt: u16,
                        writeCount: u16,
                        data: seq<bv8>) returns (l: Response, r: Response)
    requires left.Valid() && right.Valid() && Apart(left, right) && left.Cells() == right.Cells()
    modifies left`log, left.maps, right`log, right.maps
    ensures left.Valid() && right.Valid() && l == r && left.Cells() == right.Cells()
  {
    ghost var cells, w := left.Cells(), WordWindow(writeAt, Decoded(data, writeCount, 121));
    l := ReadWriteFree(left, readAt, readCount, writeAt, writeCount, data, w);
    ghost var after := left.Cells();
    assert right.Valid() && right.Cells() == cells;
    r := ReadWriteFree(right, readAt, readCount, writeAt, writeCount, data, w);
    assert left.Valid() && left.Cells() == after;
  }
}
