/** The flat-array device of the full server example: one array per data domain, no maps and no hooks. */
module FlatDevice {
  import opened Bits
  import opened AddressSpace

  /** An array of cells as a flat partial map. */
  ghost function CellsIn<V>(cells: array<V>): (m: map<int, V>)
    reads cells
    ensures forall a :: a in m <==> 0 <= a < cells.Length
  {
    map a | 0 <= a < cells.Length :: cells[a]
  }

  /** The answer of the device to a request for the addresses from `start` up to `end`. */
  function BoundsVerdict(end: int, n: nat): Result<()>
  {
    if end <= n then Ok(()) else Err(InvalidAddress)
  }

  class FlatApp {
    const coils: array<bool>
    const registers: array<bv16>

    constructor (coils: array<bool>, registers: array<bv16>)
      ensures this.coils == coils && this.registers == registers
    {
      this.coils, this.registers := coils, registers;
    }

    /** One byte of an FC01 response, packed from up to eight coils. */
    method CoilByte(start: nat, end: nat, at: nat) returns (byte: bv8)
      requires start <= end <= coils.Length && at < ByteCount(end - start)
      ensures byte == Pack(Read(CellsIn(coils), start, end))[at]
    {
      ghost var bits := Read(CellsIn(coils), start, end);
      byte := 0;
      for bit := 0 to 8
        invariant forall k :: 0 <= k < 8 ==> TestBit(byte, k) == (k < bit && 8 * at + k < |bits| && bits[8 * at + k])
      {
        var index := start + at * 8 + bit;
        assert index < end ==> coils[index] == bits[8 * at + bit];
        ghost var before := byte;
        if index < end && coils[index] {
          SetBit(byte, bit);
          byte := byte | Mask(bit);
        }
        forall k | 0 <= k < 8
          ensures TestBit(byte, k) == (k < bit + 1 && 8 * at + k < |bits| && bits[8 * at + k])
        {
          assert TestBit(before, k) == (k < bit && 8 * at + k < |bits| && bits[8 * at + k]);
        }
      }
      PackPacks(bits);
      SameBits(byte, Pack(bits)[at]);
    }

    /** The bytes of an FC01 response. */
    method FillCoils(start: nat, end: nat, out: array<bv8>, n: nat)
      requires start <= end <= coils.Length && n <= ByteCount(end - start) && n <= out.Length
      requires out as object != coils
      modifies out
      ensures forall k :: 0 <= k < n ==> out[k] == Pack(Read(CellsIn(coils), start, end))[k]
      ensures out[n..] == old(out[n..])
    {
      ghost var cells := CellsIn(coils);
      ghost var packed := Pack(Read(cells, start, end));
      for at := 0 to n
        invariant CellsIn(coils) == cells
        invariant forall k :: 0 <= k < at ==> out[k] == packed[k]
        invariant out[n..] == old(out[n..])
      {
        var byte := CoilByte(start, end, at);
        out[at] := byte;
      }
    }

    /** FC01: fills the response byte by byte, as far as it is long enough. */
    method ReadCoils(address: u16, quantity: u16, out: array<bv8>) returns (r: Result<nat>)
      requires out as object != coils
      modifies out
      ensures r == if address + quantity <= coils.Length then Ok(ByteCount(quantity) % 0x100) else Err(InvalidAddress)
      ensures r.Err? ==> out[..] == old(out[..])
      ensures r.Ok? ==>
                var n := Min(ByteCount(quantity), out.Length);
                && out[..n] == Pack(Read(CellsIn(coils), address, address + quantity))[..n]
                && out[n..] == old(out[n..])
    {
      var end := address + quantity;
      if end > coils.Length { return Err(InvalidAddress); }
      var n := Min(ByteCount(quantity), out.Length);
      FillCoils(address, end, out, n);
      return Ok(ByteCount(quantity) % 0x100);
    }

    /** FC05. */
    method WriteSingleCoil(address: u16, value: bool) returns (r: Result<()>)
      modifies coils
      ensures r == BoundsVerdict(address + 1, coils.Length)
      ensures CellsIn(coils) == Overlay(old(CellsIn(coils)), address, [value])
    {
      if address >= coils.Length { return Err(InvalidAddress); }
      coils[address] := value;
      return Ok(());
    }

    /** FC0F. A payload that is too short for a window within bounds would be indexed past its end. */
    method WriteMultipleCoils(start: u16, quantity: u16, values: seq<bv8>) returns (r: Result<()>)
      requires start + quantity <= coils.Length ==> quantity <= 8 * |values|
      modifies coils
      ensures r == BoundsVerdict(start + quantity, coils.Length)
      ensures r.Ok? ==> quantity <= 8 * |values|
      ensures CellsIn(coils) == if r.Ok? then Overlay(old(CellsIn(coils)), start, Unpack(values, 0, quantity))
                                else old(CellsIn(coils))
    {
      if start + quantity > coils.Length { return Err(InvalidAddress); }
      for at := 0 to quantity
        invariant forall a :: 0 <= a < coils.Length ==>
                                coils[a] == if start <= a < start + at then BitAt(values, a - start) else old(coils[a])
      {
        ShiftedBit(values[at / 8], at % 8);
        coils[start + at] := (values[at / 8] >> (at % 8)) & 1 != 0;
      }
      return Ok(());
    }

    /** Registers from `start` up to `end`, two bytes each. */
    method FillWords(start: nat, end: nat, out: array<bv8>)
      requires start <= end <= registers.Length && 2 * (end - start) <= out.Length
      modifies out
      ensures out[..2 * (end - start)] == BigEndian(Read(CellsIn(registers), start, end))
      ensures out[2 * (end - start)..] == old(out[2 * (end - start)..])
    {
      ghost var words := Read(CellsIn(registers), start, end);
      for i := 0 to end - start
        invariant forall k :: 0 <= k < 2 * i ==> out[k] == BigEndian(words)[k]
        invariant out[2 * (end - start)..] == old(out[2 * (end - start)..])
      {
        out[i * 2] := HighByte(registers[start + i]);
        out[i * 2 + 1] := LowByte(registers[start + i]);
      }
    }

    /** FC03. A response buffer that is too short for a window within bounds would be indexed past its end. */
    method ReadRegisters(address: u16, quantity: u16, out: array<bv8>) returns (r: Result<nat>)
      requires address + quantity <= registers.Length ==> 2 * quantity <= out.Length
      modifies out
      ensures r == if address + quantity <= registers.Length then Ok(2 * quantity % 0x100) else Err(InvalidAddress)
      ensures r.Err? ==> out[..] == old(out[..])
      ensures r.Ok? ==>
                && 2 * quantity <= out.Length
                && out[..2 * quantity] == BigEndian(Read(CellsIn(registers), address, address + quantity))
    {
      if address + quantity > registers.Length { return Err(InvalidAddress); }
      FillWords(address, address + quantity, out);
      return Ok(2 * quantity % 0x100);
    }

    /** FC06. */
    method WriteSingleRegister(address: u16, value: bv16) returns (r: Result<()>)
      modifies registers
      ensures r == BoundsVerdict(address + 1, registers.Length)
      ensures CellsIn(registers) == Overlay(old(CellsIn(registers)), address, [value])
    {
      if address >= registers.Length { return Err(InvalidAddress); }
      registers[address] := value;
      return Ok(());
    }

    /** FC10. */
    method WriteMultipleRegisters(start: u16, values: seq<bv16>) returns (r: Result<()>)
      modifies registers
      ensures r == BoundsVerdict(start + |values|, registers.Length)
      ensures CellsIn(registers) == if r.Ok? then Overlay(old(CellsIn(registers)), start, values) else old(CellsIn(registers))
    {
      if start + |values| > registers.Length { return Err(InvalidAddress); }
      forall i | 0 <= i < |values| { registers[start + i] := values[i]; }
      return Ok(());
    }

    /** FC16. */
    method MaskWrite(address: u16, andMask: bv16, orMask: bv16) returns (r: Result<()>)
      modifies registers
      ensures r == BoundsVerdict(address + 1, registers.Length)
      ensures CellsIn(registers) == if r.Ok? then
                                      Overlay(old(CellsIn(registers)), address,
                                              [Masked(old(CellsIn(registers))[address], andMask, orMask)])
                                    else old(CellsIn(registers))
    {
      if address >= registers.Length { return Err(InvalidAddress); }
      var current := registers[address];
      registers[address] := (current & andMask) | (orMask & !andMask);
      return Ok(());
    }

    /** FC17: writes first, then reads. If only the read fails, the write stays. */
    method ReadWrite(readAt: u16, quantity: u16, writeAt: u16, values: seq<bv16>, out: array<bv8>)
      returns (r: Result<nat>)
      requires writeAt + |values| <= registers.Length && readAt + quantity <= registers.Length ==> 2 * quantity <= out.Length
      requires out as object != registers
      modifies registers, out
      ensures var wrote := writeAt + |values| <= registers.Length;
              && CellsIn(registers) == (if wrote then Overlay(old(CellsIn(registers)), writeAt, values) else old(CellsIn(registers)))
              && r == (if wrote && readAt + quantity <= registers.Length then Ok(2 * quantity % 0x100) else Err(InvalidAddress))
      ensures r.Ok? ==>
                && 2 * quantity <= out.Length
                && out[..2 * quantity] == BigEndian(Read(CellsIn(registers), readAt, readAt + quantity))
    {
      var written := WriteMultipleRegisters(writeAt, values);
      if written.Err? { return Err(written.error); }
      r := ReadRegisters(readAt, quantity, out);
    }
  }
}
