/**
  The map structs that `CoilsModel`, `DiscreteInputsModel`, `HoldingRegistersModel` and
  `InputRegistersModel` derive.
 */
module Maps {
  import opened Bits
  import opened AddressSpace
  import opened WriteRoute

  /** One derived map: a cell per field, at addresses inside `ADDR_MIN..=ADDR_MAX`. */
  class AddressMap<V> {
    const range: Range
    const notified: set<int>
    var cells: map<int, V>

    constructor (range: Range, notified: set<int>, cells: map<int, V>)
      ensures this.range == range && this.notified == notified && this.cells == cells
    {
      this.range, this.notified, this.cells := range, notified, cells;
    }

    function Value(): Block<V>
      reads this
    {
      Block(range, cells)
    }

    ghost predicate Valid()
      reads this
    {
      Value().Valid()
    }

    method WriteSingle(address: u16, value: V) returns (r: Result<()>)
      requires Valid()
      modifies this
      ensures Valid()
      ensures r == if address in old(cells) then Ok(()) else Err(InvalidAddress)
      ensures cells == Overlay(old(cells), address, [value])
    {
      if address in cells {
        cells := cells[address := value];
        return Ok(());
      }
      return Err(InvalidAddress);
    }
  }

  /** When a map answers a read: in range, enough room, every address a field. The count is cast to a byte. */
  function EncodeVerdict(range: Range, keys: set<int>, at: u16, end: int, bytes: nat, room: nat,
                         none: MbusError): Result<nat>
    requires at <= end
  {
    if at == end then Err(none)
    else if at < range.lo || end > range.hi + 1 then Err(InvalidAddress)
    else if room < bytes then Err(BufferTooSmall)
    else if Reach(keys, at, end) < end then Err(InvalidAddress)
    else Ok(bytes % 0x100)
  }

  /** `encode` accepts a window exactly if it is not empty, inside the interval, mapped throughout, and has room. */
  lemma EncodeAccepts(range: Range, keys: set<int>, at: u16, end: int, bytes: nat, room: nat, none: MbusError)
    requires at <= end
    ensures EncodeVerdict(range, keys, at, end, bytes, room, none).Ok? <==>
            && at < end && range.lo <= at && end <= range.hi + 1 && bytes <= room
            && forall a :: at <= a < end ==> a in keys
    ensures EncodeVerdict(range, keys, at, end, bytes, room, none).Ok? ==>
              EncodeVerdict(range, keys, at, end, bytes, room, none) == Ok(bytes % 0x100)
  {
    ReachMapped(keys, at, end);
    if forall a :: at <= a < end ==> a in keys { ReachUnique(keys, at, end, end); }
  }

  lemma ReadMore<V>(m: map<int, V>, at: int, cur: int, next: int)
    requires at <= cur && next == cur + 1 && AllMapped(m, at, cur) && cur in m
    ensures AllMapped(m, at, next) && Read(m, at, next) == Read(m, at, cur) + [m[cur]]
  {
  }

  method ZeroFill(out: array<bv8>, base: nat, n: nat)
    requires base + n <= out.Length
    modifies out
    ensures out[..base] == old(out[..base]) && out[base + n..] == old(out[base + n..])
    ensures Holds(out[base..base + n], [])
  {
    for i := 0 to n
      invariant out[..base] == old(out[..base]) && out[base + n..] == old(out[base + n..])
      invariant forall j :: base <= j < base + i ==> out[j] == 0
    {
      out[base + i] := 0;
    }
    ZeroHolds(out[base..base + n]);
  }

  method ZeroPrefix(out: array<bv8>, n: nat)
    requires n <= out.Length
    modifies out
    ensures out[n..] == old(out[n..]) && Holds(out[..n], [])
  {
    ZeroFill(out, 0, n);
    assert out[0..0 + n] == out[..n];
  }

  /** The next bit of a buffer that was zeroed and is filled in order: `out[d / 8] |= 1 << (d % 8)`. */
  method PutBit(out: array<bv8>, base: nat, n: nat, ghost bits: seq<bool>, bit: bool, d: nat)
    requires base + n <= out.Length && |bits| == d < 8 * n
    requires Holds(out[base..base + n], bits)
    modifies out
    ensures out[..base] == old(out[..base]) && out[base + n..] == old(out[base + n..])
    ensures Holds(out[base..base + n], bits + [bit])
  {
    ghost var before := out[base..base + n];
    HoldsMore(before, bits, bit);
    if bit {
      out[base + d / 8] := out[base + d / 8] | Mask(d % 8);
      assert out[base..base + n] == before[d / 8 := before[d / 8] | Mask(d % 8)];
    }
  }

  /** `encode` of a coil or discrete-input map into the slice `out[base..room]`. */
  method EncodeBits(m: AddressMap<bool>, address: u16, quantity: u16, out: array<bv8>, base: nat, room: nat,
                    ghost end: int)
    returns (r: Result<nat>)
    requires m.Valid() && base <= room <= out.Length && end == address + quantity
    modifies out
    ensures r == EncodeVerdict(m.range, m.cells.Keys, address, end, ByteCount(quantity), room - base, InvalidQuantity)
    ensures r.Ok? ==>
              && AllMapped(m.cells, address, end) && base + ByteCount(quantity) <= room
              && out[base..base + ByteCount(quantity)] == Pack(Read(m.cells, address, end))
    ensures address !in m.cells ==>
              out[..] == old(out[..]) || (base + ByteCount(quantity) <= room && Holds(out[base..base + ByteCount(quantity)], []))
    ensures out[..base] == old(out[..base]) && out[room..] == old(out[room..])
  {
    if quantity == 0 { return Err(InvalidQuantity); }
    if address < m.range.lo || address + quantity > m.range.hi + 1 { return Err(InvalidAddress); }
    var bytes := ByteCount(quantity);
    if room - base < bytes { return Err(BufferTooSmall); }
    ZeroFill(out, base, bytes);
    SuffixSame(out[..], old(out[..]), base + bytes, room);
    var cur: int := address;
    for index := 0 to quantity
      invariant cur == address + index
      invariant out[..base] == old(out[..base]) && out[room..] == old(out[room..])
      invariant AllMapped(m.cells, address, cur)
      invariant Holds(out[base..base + bytes], Read(m.cells, address, cur))
    {
      if cur !in m.cells {
        ReachUnique(m.cells.Keys, address, end, cur);
        assert cur == address ==> Read(m.cells, address, cur) == [];
        return Err(InvalidAddress);
      }
      ghost var before := out[..];
      PutBit(out, base, bytes, Read(m.cells, address, cur), m.cells[cur], index);
      SuffixSame(out[..], before, base + bytes, room);
      ReadMore(m.cells, address, cur, cur + 1);
      cur := cur + 1;
    }
    ReachUnique(m.cells.Keys, address, end, end);
    PackUnique(out[base..base + bytes], Read(m.cells, address, end));
    return Ok(bytes % 0x100);
  }

  lemma BigEndianMore(words: seq<bv16>, word: bv16)
    ensures BigEndian(words + [word]) == BigEndian(words) + [HighByte(word), LowByte(word)]
  {
  }

  method PutWord(out: array<bv8>, base: nat, at: nat, ghost words: seq<bv16>, word: bv16)
    requires base <= at && at + 2 <= out.Length && at == base + 2 * |words|
    requires out[base..at] == BigEndian(words)
    modifies out
    ensures out[..base] == old(out[..base]) && out[at + 2..] == old(out[at + 2..])
    ensures out[base..at + 2] == BigEndian(words + [word])
  {
    ghost var before := out[base..at];
    out[at] := HighByte(word);
    out[at + 1] := LowByte(word);
    assert out[base..at + 2] == before + [HighByte(word), LowByte(word)];
    BigEndianMore(words, word);
  }

  /** `encode` of a holding- or input-register map into the slice `out[base..room]`. */
  method EncodeWords(m: AddressMap<bv16>, address: u16, quantity: u16, out: array<bv8>, base: nat, room: nat,
                     ghost end: int)
    returns (r: Result<nat>)
    requires m.Valid() && base <= room <= out.Length && end == address + quantity
    modifies out
    ensures r == EncodeVerdict(m.range, m.cells.Keys, address, end, 2 * quantity, room - base, InvalidAddress)
    ensures r.Ok? ==>
              && AllMapped(m.cells, address, end) && base + 2 * quantity <= room
              && out[base..base + 2 * quantity] == BigEndian(Read(m.cells, address, end))
    ensures address !in m.cells ==> out[..] == old(out[..])
    ensures out[..base] == old(out[..base]) && out[room..] == old(out[room..])
  {
    if quantity == 0 { return Err(InvalidAddress); }
    if address < m.range.lo || address + quantity > m.range.hi + 1 { return Err(InvalidAddress); }
    var bytes := quantity * 2;
    if room - base < bytes { return Err(BufferTooSmall); }
    var cur: int := address;
    var at := base;
    for i := 0 to quantity
      invariant cur == address + i && at == base + 2 * i
      invariant out[..base] == old(out[..base]) && out[room..] == old(out[room..])
      invariant AllMapped(m.cells, address, cur) && (cur == address ==> out[..] == old(out[..]))
      invariant out[base..at] == BigEndian(Read(m.cells, address, cur))
    {
      if cur !in m.cells {
        ReachUnique(m.cells.Keys, address, end, cur);
        return Err(InvalidAddress);
      }
      ghost var before := out[..];
      PutWord(out, base, at, Read(m.cells, address, cur), m.cells[cur]);
      SuffixSame(out[..], before, at + 2, room);
      ReadMore(m.cells, address, cur, cur + 1);
      cur, at := cur + 1, at + 2;
    }
    ReachUnique(m.cells.Keys, address, end, end);
    return Ok(bytes % 0x100);
  }

  /** One more cell of the window joins the ones stored before it. */
  lemma PutStep<V>(m: map<int, V>, w: Window<V>, at: int, cur: int, next: int, value: V, first: map<int, V>,
                   second: map<int, V>)
    requires w.Valid() && w.start <= at <= cur && next == cur + 1 <= w.limit
    requires first == Put(m, w, at, cur) && value == w.values[cur - w.start] && second == Overlay(first, cur, [value])
    ensures second == Put(m, w, at, next)
    ensures cur !in m ==> second == Put(m, w, at, cur)
  {
    OverlayJoin(m, at, Slice(w, at, cur), [value]);
    assert Slice(w, at, cur) + [value] == Slice(w, at, next);
  }

  /** The window's values are the bits its payload holds. */
  ghost predicate Carries(values: seq<bv8>, w: Window<bool>)
  {
    && w.Valid() && |w.values| == Min(w.end - w.start, 8 * |values|)
    && forall i :: 0 <= i < |w.values| ==> w.values[i] == BitAt(values, i)
  }

  /** A window of `n` coils with the bits a packed payload holds for it. */
  function BitWindow(values: seq<bv8>, start: u16, n: u16): (w: Window<bool>)
    ensures Carries(values, w) && w.start == start && w.end == start + n
  {
    var have := Min(n, 8 * |values|);
    Window(start, start + have, start + n, Unpack(values, 0, have))
  }

  /** A window of registers with one value each. */
  function WordWindow(start: u16, values: seq<bv16>): (w: Window<bv16>)
    ensures w.Valid() && w.start == start && w.limit == w.end == start + |values| && w.values == values
  {
    Window(start, start + |values|, start + |values|, values)
  }

  /** Whether a packed write gets past the checks that precede its loop. */
  predicate PackedInRange(range: Range, at: int, end: int)
  {
    at < end && range.lo <= at && end <= range.hi + 1
  }

  /** The answer of a map to a packed write that stored the window up to `next`. */
  function PackedVerdict(range: Range, at: int, end: int, limit: int, next: int): Result<()>
  {
    if at == end then Err(InvalidQuantity)
    else if !PackedInRange(range, at, end) then Err(InvalidAddress)
    else if next == end then Ok(())
    else if next == limit then Err(InvalidByteCount)
    else Err(InvalidAddress)
  }

  /** `write_many_from_packed`: stores bits up to the first hole or the end of the payload. */
  method WritePacked(m: AddressMap<bool>, address: u16, quantity: u16, values: seq<bv8>, offset: nat,
                     ghost w: Window<bool>, ghost end: int) returns (r: Result<()>, ghost next: int)
    requires m.Valid() && Carries(values, w) && end == address + quantity
    requires w.start <= address <= w.limit && offset == address - w.start && end <= w.end
    modifies m
    ensures m.Valid()
    ensures next == (if PackedInRange(m.range, address, end) then Reach(old(m.cells).Keys, address, Min(end, w.limit)) else address)
    ensures m.cells == Put(old(m.cells), w, address, next)
    ensures r == PackedVerdict(m.range, address, end, w.limit, next)
  {
    next := address;
    PutNothing(m.cells, w, address);
    if quantity == 0 { return Err(InvalidQuantity), next; }
    if address + (quantity - 1) > 0xFFFF { return Err(InvalidAddress), next; }
    if address < m.range.lo || address + (quantity - 1) > m.range.hi { return Err(InvalidAddress), next; }
    ghost var before := m.cells;
    var cur: int := address;
    for index := 0 to quantity
      invariant m.Valid() && cur == address + index <= w.limit
      invariant m.cells == Put(before, w, address, cur)
      invariant forall a :: address <= a < cur ==> a in before
    {
      next := cur;
      var bit := offset + index;
      if bit / 8 >= |values| {
        ReachUnique(before.Keys, address, Min(end, w.limit), cur);
        return Err(InvalidByteCount), next;
      }
      var value := values[bit / 8] & Mask(bit % 8) != 0;
      assert value == BitAt(values, bit) == w.values[cur - w.start];
      ghost var first := m.cells;
      var written := m.WriteSingle(cur, value);
      PutStep(before, w, address, cur, cur + 1, value, first, m.cells);
      if written.Err? {
        ReachUnique(before.Keys, address, Min(end, w.limit), cur);
        return written, next;
      }
      cur := cur + 1;
    }
    next := cur;
    ReachUnique(before.Keys, address, Min(end, w.limit), cur);
    return Ok(()), next;
  }

  /** `write_many`: stores values up to the first address that is no field. */
  method WriteWords(m: AddressMap<bv16>, address: u16, values: seq<bv16>, ghost w: Window<bv16>, ghost end: int)
    returns (r: Result<()>, ghost next: int)
    requires m.Valid() && w.Valid() && w.start <= address <= end <= w.limit
    requires |values| <= 0x1_0000 && values == Slice(w, address, end)
    modifies m
    ensures m.Valid()
    ensures next == Reach(old(m.cells).Keys, address, end)
    ensures m.cells == Put(old(m.cells), w, address, next)
    ensures r == if address == end then Err(InvalidQuantity) else if next == end then Ok(()) else Err(InvalidAddress)
  {
    next := address;
    PutNothing(m.cells, w, address);
    if values == [] { return Err(InvalidQuantity), next; }
    ghost var before := m.cells;
    var cur: int := address;
    for index := 0 to |values|
      invariant m.Valid() && cur == address + index
      invariant m.cells == Put(before, w, address, cur)
      invariant forall a :: address <= a < cur ==> a in before
    {
      next := cur;
      if cur > 0xFFFF {
        ReachUnique(before.Keys, address, end, cur);
        return Err(InvalidAddress), next;
      }
      ghost var first := m.cells;
      var written := m.WriteSingle(cur, values[index]);
      PutStep(before, w, address, cur, cur + 1, values[index], first, m.cells);
      if written.Err? {
        ReachUnique(before.Keys, address, end, cur);
        return written, next;
      }
      cur := cur + 1;
    }
    next := cur;
    ReachUnique(before.Keys, address, end, end);
    return Ok(()), next;
  }
}
