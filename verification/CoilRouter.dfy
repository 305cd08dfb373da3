/** The generated coil handlers: FC0F through the segmented route, with the batch hook's repacking. */
module CoilRouter {
  import opened Bits
  import opened AddressSpace
  import opened WriteRoute
  import opened HookTrace
  import opened FlatLaws
  import opened Maps
  import opened Domain

  type CoilBank = Bank<bool>

  lemma ShiftedMask(b: bv8, bit: bv8, k: nat)
    requires k < 8 && bit <= 1
    ensures b | (bit << k) == if bit == 1 then b | Mask(k) else b
  {
  }

  /** `buffer[d / 8] |= bit << (d % 8)` for a bit that was shifted down to 0 or 1. */
  method PutShifted(buffer: array<bv8>, ghost bits: seq<bool>, bit: bv8, d: nat)
    requires bit <= 1 && |bits| == d < 8 * buffer.Length && Holds(buffer[..], bits)
    modifies buffer
    ensures Holds(buffer[..], bits + [bit == 1])
  {
    ghost var before := buffer[..];
    HoldsMore(before, bits, bit == 1);
    ShiftedMask(before[d / 8], bit, d % 8);
    buffer[d / 8] := buffer[d / 8] | (bit << (d % 8));
    assert buffer[..] == before[d / 8 := if bit == 1 then before[d / 8] | Mask(d % 8) else before[d / 8]];
  }

  lemma HoldsPrefix(bytes: seq<bv8>, bits: seq<bool>, n: nat)
    requires Holds(bytes, bits) && n <= |bytes|
    ensures Holds(bytes[..n], bits)
  {
  }

  /** Re-packs `take` payload bits from `offset` on so that the hook sees them from bit 0, padded with zeros. */
  method Repack(values: seq<bv8>, offset: nat, take: nat) returns (packed: seq<bv8>)
    requires offset + take <= 8 * |values| && take <= 8 * MAX_PDU_DATA_LEN
    ensures packed == Pack(Unpack(values, offset, take))
  {
    var buffer := new bv8[MAX_PDU_DATA_LEN](_ => 0);
    ZeroHolds(buffer[..]);
    for i := 0 to take
      invariant Holds(buffer[..], Unpack(values, offset, i))
    {
      var source := offset + i;
      var bit := (values[source / 8] >> (source % 8)) & 1;
      ShiftedBit(values[source / 8], source % 8);
      assert BitAt(values, source) == (bit == 1);
      assert Unpack(values, offset, i + 1) == Unpack(values, offset, i) + [BitAt(values, source)];
      PutShifted(buffer, Unpack(values, offset, i), bit, i);
    }
    packed := buffer[..ByteCount(take)];
    HoldsPrefix(buffer[..], Unpack(values, offset, take), ByteCount(take));
    PackUnique(packed, Unpack(values, offset, take));
  }

  /**
    What a hook needs of a request: the payload holds the whole window, and the scratch buffer what
    each map has of it.
   */
  ghost predicate Sound(bank: CoilBank, start: int, end: int, values: seq<bv8>)
  {
    bank.batch.Some? ==>
      && end - start <= 8 * |values|
      && forall i :: 0 <= i < |bank.layout| ==> Width(bank.layout[i], start, end) <= 8 * MAX_PDU_DATA_LEN
  }

  lemma CarriedSlice(values: seq<bv8>, w: Window<bool>, at: int, end: int, offset: nat, n: nat)
    requires Carries(values, w) && w.start <= at <= end <= w.limit && offset == at - w.start && n == end - at
    ensures offset + n <= 8 * |values| && Unpack(values, offset, n) == Slice(w, at, end)
  {
  }

  /**
    Calls the batch hook, if there is one, with the repacked bits of a segment that is about to
    be stored. `Repack` fixes every byte of the slice, so a hook on the slice is a hook on its bits.
   */
  method AskHook(bank: CoilBank, cursor: u16, take: u16, values: seq<bv8>, offset: nat, ghost w: Window<bool>,
                 ghost end: int)
    returns (answer: Result<()>)
    requires Carries(values, w) && w.start <= cursor <= end <= w.limit && offset == cursor - w.start
    requires bank.batch.Some? ==> take == end - cursor <= 8 * MAX_PDU_DATA_LEN
    modifies bank`log
    ensures (bank.log, answer) == Ask(bank.batch, old(bank.log), cursor, end, Slice(w, cursor, end))
  {
    if bank.batch.None? { return Ok(()); }
    CarriedSlice(values, w, cursor, end, offset, take);
    UnpackPack(Slice(w, cursor, end));
    var packed := Repack(values, offset, take);
    var bits := Unpack(packed, 0, take);
    assert bits == Slice(w, cursor, end);
    answer := bank.batch.value(bank.log, cursor, bits);
    bank.log := Then(bank.log, Asked(cursor, cursor + take, bits));
  }

  /** Where a map stops storing a segment inside its interval, and what it reports, seen from the flat view. */
  lemma SegmentStop(bank: CoilBank, i: nat, at: int, end: int, limit: int)
    requires bank.Valid() && i < |bank.maps| && at < end && at <= limit && Inside(bank.maps[i].range, at, end)
    ensures bank.maps[i].Valid() && PackedInRange(bank.maps[i].range, at, end)
    ensures Reach(bank.maps[i].cells.Keys, at, Min(end, limit)) == Reach(bank.Cells().Keys, at, Min(end, limit))
  {
    BankFacts(bank);
    ChainedFacts(bank.maps, bank.layout, |bank.maps|);
    FlatReach(Values(bank.maps), i, at, Min(end, limit));
  }

  /** `write_many_from_packed` on map `i`, seen from the flat view. */
  method StoreInMap(bank: CoilBank, i: nat, cursor: u16, take: u16, values: seq<bv8>, offset: nat,
                    ghost w: Window<bool>, ghost end: int, ghost next: int) returns (r: Result<()>)
    requires bank.Valid() && i < |bank.maps| && Inside(bank.maps[i].range, cursor, end)
    requires Carries(values, w) && w.start <= cursor <= w.limit && end <= w.end
    requires cursor < end == cursor + take && offset == cursor - w.start
    requires next == Reach(bank.Cells().Keys, cursor, Min(end, w.limit))
    modifies bank.maps
    ensures bank.Valid()
    ensures bank.Cells() == Put(old(bank.Cells()), w, cursor, next)
    ensures r == if next == end then Ok(()) else if next == w.limit then Err(InvalidByteCount) else Err(InvalidAddress)
  {
    SegmentStop(bank, i, cursor, end, w.limit);
    BankFacts(bank);
    ghost var before := Values(bank.maps);
    ghost var stop;
    r, stop := WritePacked(bank.maps[i], cursor, take, values, offset, w, end);
    assert stop == next;
    StoredFlat(bank, i, before, cursor, next, Slice(w, cursor, next));
  }

  /** Stores the bits of a segment that lies inside map `i`. */
  method StoreBits(bank: CoilBank, i: nat, cursor: u16, take: u16, values: seq<bv8>, offset: nat,
                   ghost w: Window<bool>, ghost end: int)
    returns (r: Result<()>, ghost next: int)
    requires bank.Valid() && i < |bank.maps| && Inside(bank.maps[i].range, cursor, end)
    requires Carries(values, w) && w.start <= cursor <= w.limit && end <= w.end
    requires cursor < end == cursor + take && offset == cursor - w.start
    modifies bank`log, bank.maps
    ensures bank.Valid()
    ensures next == Reach(old(bank.Cells()).Keys, cursor, Min(end, w.limit))
    ensures bank.Cells() == Put(old(bank.Cells()), w, cursor, next)
    ensures bank.log == Then(old(bank.log), Stored(cursor, next, Slice(w, cursor, next)))
    ensures r == if next == end then Ok(()) else if next == w.limit then Err(InvalidByteCount) else Err(InvalidAddress)
  {
    next := Reach(bank.Cells().Keys, cursor, Min(end, w.limit));
    SegmentStop(bank, i, cursor, end, w.limit);
    var limit := cursor + Min(take, 8 * |values| - offset);
    assert limit == Min(end, w.limit);
    var stop := Reach(bank.maps[i].cells.Keys, cursor, limit);
    var bits := Unpack(values, offset, stop - cursor);
    CarriedSlice(values, w, cursor, next, offset, stop - cursor);
    r := StoreInMap(bank, i, cursor, take, values, offset, w, end, next);
    bank.log := Then(bank.log, Stored(cursor, stop, bits));
  }

  /** One turn of the FC0F loop. */
  method TakeTurn(bank: CoilBank, cursor: u16, remaining: u16, values: seq<bv8>, offset: nat, ghost w: Window<bool>,
                  ghost keys: set<int>)
    returns (stop: bool, r: Result<()>, take: nat, ghost next: int)
    requires bank.Valid() && keys == bank.Cells().Keys && Carries(values, w) && Sound(bank, w.start, w.end, values)
    requires w.start <= cursor <= w.limit && cursor < w.end == cursor + remaining && offset == cursor - w.start
    modifies bank`log, bank.maps
    ensures bank.Valid() && cursor <= next <= w.limit && (!stop ==> next == cursor + take)
    ensures bank.Cells() == Put(old(bank.Cells()), w, cursor, next)
    ensures Took(OneTurn(bank.layout, keys, bank.batch, w, old(bank.log), cursor), stop, r, bank.log, next)
  {
    PutNothing(bank.Cells(), w, cursor);
    next := cursor;
    var i := bank.Find(cursor);
    if i == |bank.maps| { return true, Err(InvalidAddress), 0, next; }
    take := Take(bank.maps[i].range, cursor, remaining);
    ghost var end := SegmentEnd(bank.layout, cursor, w.end);
    var answer := AskHook(bank, cursor, take, values, offset, w, Min(end, w.limit));
    if answer.Err? { return true, answer, take, next; }
    r, next := StoreBits(bank, i, cursor, take, values, offset, w, end);
    stop := r.Err?;
    if !stop && cursor + take > 0xFFFF { stop, r := true, Err(InvalidAddress); }
  }

  /** The FC0F loop. */
  method RunTurns(bank: CoilBank, values: seq<bv8>, w: Window<bool>) returns (r: Result<()>)
    requires bank.Valid() && Carries(values, w) && Sound(bank, w.start, w.end, values) && w.end - w.start < 0x1_0000
    modifies bank`log, bank.maps
    ensures bank.Valid()
    ensures var o := Serve(bank.layout, old(bank.Cells()).Keys, bank.batch, w, old(bank.log), w.start);
            && w.start <= o.reached <= w.limit
            && r == o.verdict && bank.log == o.log
            && bank.Cells() == Put(old(bank.Cells()), w, w.start, o.reached)
  {
    ghost var before, keys := bank.Cells(), bank.Cells().Keys;
    ghost var o := Serve(bank.layout, keys, bank.batch, w, bank.log, w.start);
    var cursor: u16 := w.start;
    var remaining: u16 := w.end - w.start;
    var offset := 0;
    PutNothing(before, w, w.start);
    while remaining > 0
      invariant bank.Valid() && w.start <= cursor <= w.limit && w.end == cursor + remaining
      invariant offset == cursor - w.start
      invariant bank.Cells() == Put(before, w, w.start, cursor)
      invariant o == Serve(bank.layout, keys, bank.batch, w, bank.log, cursor)
    {
      ghost var log, cells := bank.log, bank.Cells();
      var stop, answer, take, next := TakeTurn(bank, cursor, remaining, values, offset, w, keys);
      PutJoin(before, w, w.start, cursor, next, cells, bank.Cells());
      TurnTook(bank.layout, keys, bank.batch, w, log, cursor, stop, answer, bank.log, next);
      if stop { return answer; }
      var advanced := cursor + take;
      assert advanced == next;
      cursor, remaining, offset := advanced, remaining - take, offset + take;
    }
    return Ok(());
  }

  /** A payload that runs out inside a map, with all before it mapped: it is stored, and the byte count is at fault. */
  lemma ShortPayload(bank: CoilBank, w: Window<bool>)
    requires bank.Valid() && w.Valid() && bank.batch.None?
    requires w.limit < w.end && AllMapped(bank.Cells(), w.start, w.limit) && Covered(bank.layout, w.limit)
    ensures var o := Serve(bank.layout, bank.Cells().Keys, None, w, bank.log, w.start);
            o.reached == w.limit && o.verdict == Err(InvalidByteCount)
  {
    BankContains(bank);
    ServeFree(bank.layout, bank.Cells().Keys, w, bank.log);
    ReachUnique(bank.Cells().Keys, w.start, w.limit, w.limit);
  }

  /** FC0F: `write_multiple_coils_request`. */
  method WriteMultipleCoils(bank: CoilBank, start: u16, quantity: u16, values: seq<bv8>) returns (r: Result<()>)
    requires bank.Valid() && Sound(bank, start, start + quantity, values)
    modifies bank`log, bank.maps
    ensures bank.Valid()
    ensures quantity == 0 ==> r == Err(InvalidQuantity) && bank.log == old(bank.log) && bank.Cells() == old(bank.Cells())
    ensures quantity != 0 ==>
              var w := BitWindow(values, start, quantity);
              var o := Serve(bank.layout, old(bank.Cells()).Keys, bank.batch, w, old(bank.log), w.start);
              && w.start <= o.reached <= w.limit
              && r == o.verdict && bank.log == o.log
              && bank.Cells() == Put(old(bank.Cells()), w, w.start, o.reached)
              && Meant(bank.layout, old(bank.Cells()).Keys, w, o)
              && Observed(bank.layout, old(bank.Cells()).Keys, bank.batch, w, old(bank.log), o)
    ensures var w := BitWindow(values, start, quantity);
            bank.batch.None? && w.limit < w.end && AllMapped(old(bank.Cells()), start, w.limit) && Covered(bank.layout, w.limit) ==>
              r == Err(InvalidByteCount) && bank.Cells() == Put(old(bank.Cells()), w, start, w.limit)
  {
    if quantity == 0 { return Err(InvalidQuantity); }
    BankContains(bank);
    ghost var w := BitWindow(values, start, quantity);
    if bank.batch.None? && w.limit < w.end && AllMapped(bank.Cells(), start, w.limit) && Covered(bank.layout, w.limit) {
      ShortPayload(bank, w);
    }
    ServeMeaning(bank.layout, bank.Cells().Keys, bank.batch, BitWindow(values, start, quantity), bank.log, start);
    ServeObserved(bank.layout, bank.Cells().Keys, bank.batch, BitWindow(values, start, quantity), bank.log);
    r := RunTurns(bank, values, BitWindow(values, start, quantity));
  }
}
