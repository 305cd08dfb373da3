/** The generated read handlers: FC01 and FC02 on bit domains, FC03 and FC04 on register domains. */
module ReadRouter {
  import opened Bits
  import opened AddressSpace
  import opened WriteRoute
  import opened Maps
  import opened Domain

  /** The answer to a read, seen from the flat view. The byte count is cast to a byte. */
  ghost function ReadVerdict<V>(cells: map<int, V>, at: int, end: int, bytes: nat, room: nat): Result<nat>
  {
    if at == end then Err(InvalidQuantity)
    else if room < bytes then Err(BufferTooSmall)
    else if AllMapped(cells, at, end) && end <= 0xFFFF then Ok(bytes % 0x100)
    else Err(InvalidAddress)
  }

  lemma ReadJoin<V>(m: map<int, V>, at: int, mid: int, end: int)
    requires at <= mid <= end && AllMapped(m, at, mid) && AllMapped(m, mid, end)
    ensures AllMapped(m, at, end) && Read(m, at, end) == Read(m, at, mid) + Read(m, mid, end)
  {
  }

  /** Why a map's `encode` fails on a segment inside its range: the flat window has an unmapped address. */
  lemma SegmentRead<V>(bank: Bank<V>, i: nat, at: int, end: int)
    requires bank.Valid() && i < |bank.maps| && Inside(bank.maps[i].range, at, end)
    ensures bank.maps[i].Valid()
    ensures Reach(bank.maps[i].cells.Keys, at, end) == end <==> AllMapped(bank.Cells(), at, end)
    ensures AllMapped(bank.Cells(), at, end) ==>
              AllMapped(bank.maps[i].cells, at, end) && Read(bank.maps[i].cells, at, end) == Read(bank.Cells(), at, end)
  {
    BankFacts(bank);
    ChainedFacts(bank.maps, bank.layout, |bank.maps|);
    FlatReach(Values(bank.maps), i, at, end);
    ReachMapped(bank.maps[i].cells.Keys, at, end);
    if AllMapped(bank.Cells(), at, end) {
      ReachUnique(bank.maps[i].cells.Keys, at, end, end);
    }
  }

  /** Merges the bits of an encoded segment into the response behind the bits that are already there. */
  method MergeBits(segment: array<bv8>, take: nat, out: array<bv8>, total: nat, offset: nat, ghost bits: seq<bool>,
                   ghost more: seq<bool>)
    requires segment != out && total <= out.Length && ByteCount(take) <= segment.Length
    requires |more| == take && Packs(segment[..ByteCount(take)], more)
    requires |bits| == offset && offset + take <= 8 * total && Holds(out[..total], bits)
    modifies out
    ensures Holds(out[..total], bits + more) && out[total..] == old(out[total..])
  {
    assert bits + more[..0] == bits;
    for index := 0 to take
      invariant Holds(out[..total], bits + more[..index]) && out[total..] == old(out[total..])
    {
      assert TestBit(segment[..ByteCount(take)][index / 8], index % 8) == more[8 * (index / 8) + index % 8];
      var bit := segment[index / 8] & Mask(index % 8) != 0;
      PutBit(out, 0, total, bits + more[..index], bit, offset + index);
      assert bits + more[..index] + [bit] == bits + more[..index + 1];
    }
    assert more[..take] == more;
  }

  /** How a read loop ends; `OutOfBounds` where it would index past a buffer. */
  datatype Ending = Finished | Failed(error: MbusError) | OutOfBounds

  /** How a read loop ends if it stays in its buffers. */
  ghost function InBounds<V>(cells: map<int, V>, at: int, end: int): Ending
  {
    if at == end || (AllMapped(cells, at, end) && end <= 0xFFFF) then Finished else Failed(InvalidAddress)
  }

  /**
    Map `i` has more bits of the window than the scratch buffer of a segment holds, and all
    addresses before them are mapped.
   */
  ghost predicate WideAt<V>(ranges: seq<Range>, cells: map<int, V>, at: int, end: int, i: nat)
    requires i < |ranges|
  {
    Width(ranges[i], at, end) > 8 * MAX_PDU_DATA_LEN && AllMapped(cells, at, FirstIn(ranges[i], at))
  }

  /** A bit read gets to a segment that is too long for its scratch buffer. */
  ghost predicate TooWide<V>(ranges: seq<Range>, cells: map<int, V>, at: int, end: int)
  {
    exists i :: 0 <= i < |ranges| && WideAt(ranges, cells, at, end, i)
  }

  /** Within the standard's limits no segment is too long. */
  lemma NarrowWindow<V>(ranges: seq<Range>, cells: map<int, V>, at: int, end: int)
    requires end - at <= 2016
    ensures !TooWide(ranges, cells, at, end)
  {
  }

  /** No map beyond the one that holds `at` is wide if the segment ends the read. */
  lemma EndsNarrow<V>(ranges: seq<Range>, cells: map<int, V>, at: int, end: int)
    requires Sorted(ranges) && Contains(ranges, cells.Keys) && at < end
    ensures !Covered(ranges, at) ==> !TooWide(ranges, cells, at, end)
    ensures Covered(ranges, at) && SegmentEnd(ranges, at, end) - at <= 8 * MAX_PDU_DATA_LEN &&
            (!AllMapped(cells, at, SegmentEnd(ranges, at, end)) || SegmentEnd(ranges, at, end) > 0xFFFF) ==>
              !TooWide(ranges, cells, at, end)
  {
    forall i | 0 <= i < |ranges| && WideAt(ranges, cells, at, end, i)
      ensures Covered(ranges, at)
      ensures SegmentEnd(ranges, at, end) - at > 8 * MAX_PDU_DATA_LEN ||
              (AllMapped(cells, at, SegmentEnd(ranges, at, end)) && SegmentEnd(ranges, at, end) <= 0xFFFF)
    {
      if ranges[i].lo <= at {
        PickUnique(ranges, at, i);
      } else {
        assert at in cells;
        assert Covered(ranges, at);
      }
    }
  }

  /** A segment that is served leaves the question to what follows it. */
  lemma WideBehind<V>(ranges: seq<Range>, cells: map<int, V>, at: int, next: int, end: int)
    requires Sorted(ranges) && at < end && Covered(ranges, at) && next == SegmentEnd(ranges, at, end)
    requires next - at <= 8 * MAX_PDU_DATA_LEN && AllMapped(cells, at, next)
    ensures TooWide(ranges, cells, at, end) <==> TooWide(ranges, cells, next, end)
  {
    var p := Pick(ranges, at);
    forall i | 0 <= i < |ranges|
      ensures WideAt(ranges, cells, at, end, i) <==> WideAt(ranges, cells, next, end, i)
    {
      if i > p { assert ranges[p].hi < ranges[i].lo; }
      if i < p { assert ranges[i].hi < ranges[p].lo; }
    }
  }

  /** One turn of the bit-read loop: the segment's bits join the response, or the read ends. */
  method BitTurn(bank: Bank<bool>, cursor: u16, remaining: u16, out: array<bv8>, total: nat, offset: nat,
                 ghost address: int, ghost cells: map<int, bool>, ghost end: int)
    returns (stop: Option<Ending>, take: u16, ghost next: int)
    requires bank.Valid() && cells == bank.Cells() && 0 < remaining && end == cursor + remaining
    requires address <= cursor && offset == cursor - address && total <= out.Length && end - address <= 8 * total
    requires AllMapped(cells, address, cursor) && Holds(out[..total], Read(cells, address, cursor))
    modifies out
    ensures out[total..] == old(out[total..])
    ensures stop.Some? ==>
              && !stop.value.Finished?
              && stop.value == if TooWide(bank.layout, cells, cursor, end) then OutOfBounds else InBounds(cells, cursor, end)
    ensures stop.None? ==> cursor < next == cursor + take <= end && next <= 0xFFFF
    ensures stop.None? ==> AllMapped(cells, address, next) && Holds(out[..total], Read(cells, address, next))
    ensures stop.None? ==> (TooWide(bank.layout, cells, cursor, end) <==> TooWide(bank.layout, cells, next, end))
  {
    next, take := cursor, 0;
    BankSorted(bank);
    EndsNarrow(bank.layout, cells, cursor, end);
    var i := bank.Find(cursor);
    if i == |bank.maps| {
      assert cursor !in cells by { assert !Covered(bank.layout, cursor); }
      return Some(Failed(InvalidAddress)), take, next;
    }
    take := Take(bank.maps[i].range, cursor, remaining);
    next := cursor + take;
    assert next == SegmentEnd(bank.layout, cursor, end);
    if ByteCount(take) > MAX_PDU_DATA_LEN {
      assert WideAt(bank.layout, cells, cursor, end, i);
      return Some(OutOfBounds), take, next;
    }
    var ok := BitSegment(bank, i, cursor, take, out, total, offset, address, cells, next);
    if !ok || cursor + take > 0xFFFF { return Some(Failed(InvalidAddress)), take, next; }
    WideBehind(bank.layout, cells, cursor, next, end);
    stop := None;
  }

  /** Encodes a segment inside map `i` into the scratch buffer and merges it into the response. */
  method BitSegment(bank: Bank<bool>, i: nat, cursor: u16, take: u16, out: array<bv8>, total: nat, offset: nat,
                    ghost address: int, ghost cells: map<int, bool>, ghost next: int) returns (ok: bool)
    requires bank.Valid() && cells == bank.Cells() && i < |bank.maps| && Inside(bank.maps[i].range, cursor, next)
    requires 0 < take && ByteCount(take) <= MAX_PDU_DATA_LEN && next == cursor + take
    requires address <= cursor && offset == cursor - address && total <= out.Length && next - address <= 8 * total
    requires AllMapped(cells, address, cursor) && Holds(out[..total], Read(cells, address, cursor))
    modifies out
    ensures out[total..] == old(out[total..])
    ensures ok <==> AllMapped(cells, cursor, next)
    ensures ok ==> AllMapped(cells, address, next) && Holds(out[..total], Read(cells, address, next))
  {
    SegmentRead(bank, i, cursor, next);
    var bytes := ByteCount(take);
    var segment := new bv8[MAX_PDU_DATA_LEN](_ => 0);
    var encoded := EncodeBits(bank.maps[i], cursor, take, segment, 0, bytes, next);
    if encoded.Err? || encoded.value != bytes { return false; }
    PackPacks(Read(cells, cursor, next));
    MergeBits(segment, take, out, total, offset, Read(cells, address, cursor), Read(cells, cursor, next));
    ReadJoin(cells, address, cursor, next);
    return true;
  }

  /** The bit-read loop, shared by the sync handlers and the async arms; `out` was zeroed before. */
  method BitLoop(bank: Bank<bool>, address: u16, quantity: u16, out: array<bv8>, total: nat, ghost end: int)
    returns (e: Ending)
    requires bank.Valid() && end == address + quantity
    requires total == ByteCount(quantity) <= out.Length && Holds(out[..total], [])
    modifies out
    ensures out[total..] == old(out[total..])
    ensures e == if TooWide(bank.layout, bank.Cells(), address, end) then OutOfBounds else InBounds(bank.Cells(), address, end)
    ensures e.Finished? ==> AllMapped(bank.Cells(), address, end) && out[..total] == Pack(Read(bank.Cells(), address, end))
  {
    ghost var cells := bank.Cells();
    var cursor: u16 := address;
    var remaining: u16 := quantity;
    var offset := 0;
    while remaining > 0
      invariant address <= cursor && end == cursor + remaining && offset == cursor - address
      invariant cursor < end || quantity == 0 || end <= 0xFFFF
      invariant AllMapped(cells, address, cursor)
      invariant TooWide(bank.layout, cells, cursor, end) <==> TooWide(bank.layout, cells, address, end)
      invariant Holds(out[..total], Read(cells, address, cursor)) && out[total..] == old(out[total..])
    {
      var stop, take, next := BitTurn(bank, cursor, remaining, out, total, offset, address, cells, end);
      if stop.Some? {
        MappedFrom(cells, address, cursor, end);
        return stop.value;
      }
      var advanced := cursor + take;
      assert advanced == next;
      cursor, remaining, offset := advanced, remaining - take, offset + take;
    }
    assert cursor == end;
    NarrowWindow(bank.layout, cells, cursor, end);
    PackUnique(out[..total], Read(cells, address, end));
    return Finished;
  }

  lemma MappedFrom<V>(cells: map<int, V>, at: int, mid: int, end: int)
    requires at <= mid < end && AllMapped(cells, at, mid)
    ensures InBounds(cells, mid, end) == InBounds(cells, at, end)
  {
  }

  /**
    FC01 `read_coils_request` and FC02 `read_discrete_inputs_request`; `None` where a segment
    leaves the scratch buffer.
   */
  method ReadBits(bank: Bank<bool>, address: u16, quantity: u16, out: array<bv8>) returns (r: Option<Result<nat>>)
    requires bank.Valid()
    modifies out
    ensures r == if ByteCount(quantity) <= out.Length && TooWide(bank.layout, bank.Cells(), address, address + quantity) then None
                 else Some(ReadVerdict(bank.Cells(), address, address + quantity, ByteCount(quantity), out.Length))
    ensures quantity == 0 ==> r == Some(Err(InvalidQuantity))
    ensures quantity != 0 && out.Length < ByteCount(quantity) ==> r == Some(Err(BufferTooSmall))
    ensures r.Some? && r.value.Ok? ==>
              && r.value.value == ByteCount(quantity) % 0x100
              && ByteCount(quantity) <= out.Length && AllMapped(bank.Cells(), address, address + quantity)
              && out[..ByteCount(quantity)] == Pack(Read(bank.Cells(), address, address + quantity))
              && out[ByteCount(quantity)..] == old(out[ByteCount(quantity)..])
  {
    ghost var end := address + quantity;
    if quantity == 0 {
      NarrowWindow(bank.layout, bank.Cells(), address, end);
      return Some(Err(InvalidQuantity));
    }
    var total := ByteCount(quantity);
    if out.Length < total { return Some(Err(BufferTooSmall)); }
    ZeroPrefix(out, total);
    var e := BitLoop(bank, address, quantity, out, total, end);
    if e.OutOfBounds? { return None; }
    if e.Failed? { return Some(Err(e.error)); }
    return Some(Ok(total % 0x100));
  }

  lemma BigEndianJoin(first: seq<bv16>, second: seq<bv16>)
    ensures BigEndian(first + second) == BigEndian(first) + BigEndian(second)
  {
  }

  /** Encodes a segment that lies inside map `i` behind the words that are already in the response. */
  method WordSegment(bank: Bank<bv16>, i: nat, cursor: u16, take: u16, out: array<bv8>, total: nat, offset: nat,
                     nextOffset: nat,
                     ghost address: int, ghost cells: map<int, bv16>, ghost next: int) returns (encoded: Result<nat>)
    requires bank.Valid() && cells == bank.Cells() && i < |bank.maps| && Inside(bank.maps[i].range, cursor, next)
    requires 0 < take && next == cursor + take && nextOffset == offset + 2 * take <= total <= out.Length
    requires address <= cursor && offset == 2 * (cursor - address)
    requires AllMapped(cells, address, cursor) && out[..offset] == BigEndian(Read(cells, address, cursor))
    modifies out
    ensures out[total..] == old(out[total..])
    ensures encoded.Err? ==> encoded.error == InvalidAddress && !AllMapped(cells, cursor, next)
    ensures encoded.Ok? ==> AllMapped(cells, address, next) && out[..nextOffset] == BigEndian(Read(cells, address, next))
  {
    SegmentRead(bank, i, cursor, next);
    ghost var before := out[..];
    encoded := EncodeWords(bank.maps[i], cursor, take, out, offset, nextOffset, next);
    SuffixSame(out[..], before, nextOffset, total);
    if encoded.Ok? {
      assert out[..nextOffset] == out[..offset] + out[offset..nextOffset];
      ReadJoin(cells, address, cursor, next);
      BigEndianJoin(Read(cells, address, cursor), Read(cells, cursor, next));
    }
  }

  /**
    A register read gets to the map that holds `edge`, the first register without room in the
    response: that address is inside a map, and all addresses before the map's part are mapped.
   */
  ghost predicate Overruns<V>(ranges: seq<Range>, cells: map<int, V>, at: int, end: int, edge: int)
  {
    edge < end && Covered(ranges, edge) && AllMapped(cells, at, FirstIn(ranges[Pick(ranges, edge)], at))
  }

  lemma EndsBefore<V>(ranges: seq<Range>, cells: map<int, V>, at: int, end: int, edge: int)
    requires Sorted(ranges) && Contains(ranges, cells.Keys) && at < end && at <= edge
    ensures !Covered(ranges, at) ==> !Overruns(ranges, cells, at, end, edge)
    ensures Covered(ranges, at) && SegmentEnd(ranges, at, end) <= edge &&
            (!AllMapped(cells, at, SegmentEnd(ranges, at, end)) || SegmentEnd(ranges, at, end) > 0xFFFF) ==>
              !Overruns(ranges, cells, at, end, edge)
    ensures Covered(ranges, at) && SegmentEnd(ranges, at, end) > edge ==> Overruns(ranges, cells, at, end, edge)
  {
    if Covered(ranges, at) && SegmentEnd(ranges, at, end) > edge { PickUnique(ranges, edge, Pick(ranges, at)); }
    if Overruns(ranges, cells, at, end, edge) {
      var q := Pick(ranges, edge);
      if ranges[q].lo <= at {
        PickUnique(ranges, at, q);
      } else {
        assert at in cells;
        assert Covered(ranges, at);
      }
    }
  }

  lemma OverrunBehind<V>(ranges: seq<Range>, cells: map<int, V>, at: int, next: int, end: int, edge: int)
    requires Sorted(ranges) && at < end && Covered(ranges, at) && next == SegmentEnd(ranges, at, end) <= edge
    requires AllMapped(cells, at, next)
    ensures Overruns(ranges, cells, at, end, edge) <==> Overruns(ranges, cells, next, end, edge)
  {
    var p, q := Pick(ranges, at), Pick(ranges, edge);
    if q < |ranges| && edge < end {
      if p < q { assert ranges[p].hi < ranges[q].lo; }
    }
  }

  /** One turn of the register-read loop. */
  method WordTurn(bank: Bank<bv16>, cursor: u16, remaining: u16, out: array<bv8>, room: nat, offset: nat,
                  ghost address: int, ghost cells: map<int, bv16>, ghost end: int, ghost edge: int)
    returns (stop: Option<Ending>, take: u16, nextOffset: nat, ghost next: int)
    requires bank.Valid() && cells == bank.Cells() && 0 < remaining && end == cursor + remaining
    requires address <= cursor <= edge && offset == 2 * (cursor - address) && edge == address + out.Length / 2
    requires room == Min(offset + 2 * remaining, out.Length)
    requires AllMapped(cells, address, cursor) && out[..offset] == BigEndian(Read(cells, address, cursor))
    modifies out
    ensures out[room..] == old(out[room..])
    ensures stop.Some? ==>
              && !stop.value.Finished?
              && stop.value == if Overruns(bank.layout, cells, cursor, end, edge) then OutOfBounds else InBounds(cells, cursor, end)
    ensures stop.None? ==>
              cursor < next == cursor + take <= end && next <= 0xFFFF && next <= edge && nextOffset == offset + 2 * take
    ensures stop.None? ==> AllMapped(cells, address, next) && out[..nextOffset] == BigEndian(Read(cells, address, next))
    ensures stop.None? ==> (Overruns(bank.layout, cells, cursor, end, edge) <==> Overruns(bank.layout, cells, next, end, edge))
  {
    next, take, nextOffset := cursor, 0, offset;
    BankSorted(bank);
    EndsBefore(bank.layout, cells, cursor, end, edge);
    var i := bank.Find(cursor);
    if i == |bank.maps| {
      assert cursor !in cells by { assert !Covered(bank.layout, cursor); }
      return Some(Failed(InvalidAddress)), take, nextOffset, next;
    }
    take := Take(bank.maps[i].range, cursor, remaining);
    next := cursor + take;
    assert next == SegmentEnd(bank.layout, cursor, end);
    nextOffset := offset + 2 * take;
    if nextOffset > out.Length { return Some(OutOfBounds), take, nextOffset, next; }
    var encoded := WordSegment(bank, i, cursor, take, out, room, offset, nextOffset, address, cells, next);
    if encoded.Err? { return Some(Failed(encoded.error)), take, nextOffset, next; }
    if cursor + take > 0xFFFF { return Some(Failed(InvalidAddress)), take, nextOffset, next; }
    OverrunBehind(bank.layout, cells, cursor, next, end, edge);
    stop := None;
  }

  /** The register-read loop, shared by the sync handlers and the async arms. */
  method WordLoop(bank: Bank<bv16>, address: u16, quantity: u16, out: array<bv8>, total: nat, ghost end: int,
                  ghost edge: int)
    returns (e: Ending)
    requires bank.Valid() && total == 2 * quantity && end == address + quantity && edge == address + out.Length / 2
    modifies out
    ensures total <= out.Length ==> out[total..] == old(out[total..])
    ensures e == if Overruns(bank.layout, bank.Cells(), address, end, edge) then OutOfBounds
                 else InBounds(bank.Cells(), address, end)
    ensures e.Finished? ==>
              && AllMapped(bank.Cells(), address, end) && total <= out.Length
              && out[..total] == BigEndian(Read(bank.Cells(), address, end))
  {
    ghost var cells := bank.Cells();
    ghost var room := Min(total, out.Length);
    var cursor: u16 := address;
    var remaining: u16 := quantity;
    var offset := 0;
    while remaining > 0
      invariant address <= cursor <= edge && end == cursor + remaining && offset == 2 * (cursor - address)
      invariant offset + 2 * remaining == total
      invariant cursor < end || quantity == 0 || end <= 0xFFFF
      invariant AllMapped(cells, address, cursor)
      invariant Overruns(bank.layout, cells, cursor, end, edge) <==> Overruns(bank.layout, cells, address, end, edge)
      invariant out[..offset] == BigEndian(Read(cells, address, cursor)) && out[room..] == old(out[room..])
    {
      var stop, take, nextOffset, next :=
        WordTurn(bank, cursor, remaining, out, Min(offset + 2 * remaining, out.Length), offset, address, cells, end, edge);
      if stop.Some? {
        MappedFrom(cells, address, cursor, end);
        return stop.value;
      }
      var advanced := cursor + take;
      assert advanced == next;
      cursor, remaining, offset := advanced, remaining - take, nextOffset;
    }
    assert cursor == end;
    return Finished;
  }

  /** FC03 `read_multiple_holding_registers_request` and FC04 `read_multiple_input_registers_request`. */
  method ReadWords(bank: Bank<bv16>, address: u16, quantity: u16, out: array<bv8>) returns (r: Result<nat>)
    requires bank.Valid()
    modifies out
    ensures r == ReadVerdict(bank.Cells(), address, address + quantity, 2 * quantity, out.Length)
    ensures quantity == 0 ==> r == Err(InvalidQuantity)
    ensures quantity != 0 && out.Length < 2 * quantity ==> r == Err(BufferTooSmall)
    ensures r.Ok? ==>
              && r.value == 2 * quantity % 0x100
              && 2 * quantity <= out.Length && AllMapped(bank.Cells(), address, address + quantity)
              && out[..2 * quantity] == BigEndian(Read(bank.Cells(), address, address + quantity))
              && out[2 * quantity..] == old(out[2 * quantity..])
  {
    if quantity == 0 { return Err(InvalidQuantity); }
    var total := quantity * 2;
    if out.Length < total { return Err(BufferTooSmall); }
    ghost var end := address + quantity;
    ghost var edge := address + out.Length / 2;
    var e := WordLoop(bank, address, quantity, out, total, end, edge);
    if e.Failed? { return Err(e.error); }
    return Ok(total % 0x100);
  }
}
