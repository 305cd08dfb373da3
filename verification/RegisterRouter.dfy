/** The generated holding-register handlers: FC10 through the segmented route with its batch hook. */
module RegisterRouter {
  import opened AddressSpace
  import opened WriteRoute
  import opened HookTrace
  import opened Maps
  import opened Domain

  type RegisterBank = Bank<bv16>

  /** Stores a segment that lies inside map `i`. */
  method StoreWords(bank: RegisterBank, i: nat, cursor: u16, segment: seq<bv16>, ghost w: Window<bv16>, ghost end: int)
    returns (r: Result<()>, ghost next: int)
    requires bank.Valid() && i < |bank.maps| && Inside(bank.maps[i].range, cursor, end)
    requires w.Valid() && w.start <= cursor < end <= w.limit && segment == Slice(w, cursor, end)
    modifies bank`log, bank.maps
    ensures bank.Valid()
    ensures next == Reach(old(bank.Cells()).Keys, cursor, end)
    ensures bank.Cells() == Put(old(bank.Cells()), w, cursor, next)
    ensures bank.log == Then(old(bank.log), Stored(cursor, next, Slice(w, cursor, next)))
    ensures r == if next == end then Ok(()) else Err(InvalidAddress)
  {
    BankFacts(bank);
    ghost var before := Values(bank.maps);
    FlatReach(before, i, cursor, end);
    var limit := cursor + |segment|;
    assert limit == end;
    var stop := Reach(bank.maps[i].cells.Keys, cursor, limit);
    r, next := WriteWords(bank.maps[i], cursor, segment, w, end);
    bank.log := Then(bank.log, Stored(cursor, stop, segment[..stop - cursor]));
    assert segment[..stop - cursor] == Slice(w, cursor, next);
    StoredFlat(bank, i, before, cursor, next, Slice(w, cursor, next));
  }

  /** Calls the batch hook, if there is one, with a segment that is about to be stored. */
  method AskHook(bank: RegisterBank, cursor: u16, segment: seq<bv16>) returns (answer: Result<()>)
    modifies bank`log
    ensures (bank.log, answer) == Ask(bank.batch, old(bank.log), cursor, cursor + |segment|, segment)
  {
    if bank.batch.None? { return Ok(()); }
    answer := bank.batch.value(bank.log, cursor, segment);
    bank.log := Then(bank.log, Asked(cursor, cursor + |segment|, segment));
  }

  /** One turn of the FC10 loop. */
  method TakeTurn(bank: RegisterBank, cursor: u16, remaining: seq<bv16>, ghost w: Window<bv16>, ghost keys: set<int>)
    returns (stop: bool, r: Result<()>, take: nat, ghost next: int)
    requires bank.Valid() && keys == bank.Cells().Keys
    requires w.Valid() && w.limit == w.end && w.end - w.start < 0x1_0000
    requires w.start <= cursor < w.end && remaining == Slice(w, cursor, w.end)
    modifies bank`log, bank.maps
    ensures bank.Valid() && cursor <= next <= w.limit && (!stop ==> next == cursor + take)
    ensures bank.Cells() == Put(old(bank.Cells()), w, cursor, next)
    ensures Took(OneTurn(bank.layout, keys, bank.batch, w, old(bank.log), cursor), stop, r, bank.log, next)
  {
    PutNothing(bank.Cells(), w, cursor);
    next := cursor;
    var i := bank.Find(cursor);
    if i == |bank.maps| { return true, Err(InvalidAddress), 0, next; }
    take := Take(bank.maps[i].range, cursor, |remaining|);
    ghost var end := SegmentEnd(bank.layout, cursor, w.end);
    SliceCut(w, cursor, end, w.end, take);
    var answer := AskHook(bank, cursor, remaining[..take]);
    if answer.Err? { return true, answer, take, next; }
    r, next := StoreWords(bank, i, cursor, remaining[..take], w, end);
    stop := r.Err?;
    if !stop && cursor + take > 0xFFFF { stop, r := true, Err(InvalidAddress); }
  }

  /** The FC10 loop. */
  method RunTurns(bank: RegisterBank, w: Window<bv16>) returns (r: Result<()>)
    requires bank.Valid() && w.Valid() && w.limit == w.end && w.end - w.start < 0x1_0000
    modifies bank`log, bank.maps
    ensures bank.Valid()
    ensures var o := Serve(bank.layout, old(bank.Cells()).Keys, bank.batch, w, old(bank.log), w.start);
            && w.start <= o.reached <= w.limit
            && r == o.verdict && bank.log == o.log
            && bank.Cells() == Put(old(bank.Cells()), w, w.start, o.reached)
  {
    ghost var before, keys := bank.Cells(), bank.Cells().Keys;
    ghost var o := Serve(bank.layout, keys, bank.batch, w, bank.log, w.start);
    var cursor: u16 := w.start;
    var remaining := w.values;
    PutNothing(before, w, w.start);
    while remaining != []
      invariant bank.Valid() && w.start <= cursor <= w.end && remaining == Slice(w, cursor, w.end)
      invariant bank.Cells() == Put(before, w, w.start, cursor)
      invariant o == Serve(bank.layout, keys, bank.batch, w, bank.log, cursor)
      decreases |remaining|
    {
      ghost var log, cells := bank.log, bank.Cells();
      var stop, answer, take, next := TakeTurn(bank, cursor, remaining, w, keys);
      PutJoin(before, w, w.start, cursor, next, cells, bank.Cells());
      TurnTook(bank.layout, keys, bank.batch, w, log, cursor, stop, answer, bank.log, next);
      if stop { return answer; }
      SliceCut(w, cursor, next, w.end, take);
      var advanced := cursor + take;
      assert advanced == next;
      cursor, remaining := advanced, remaining[take..];
    }
    return Ok(());
  }

  /** FC10: `write_multiple_registers_request`. */
  method WriteMultipleRegisters(bank: RegisterBank, start: u16, values: seq<bv16>) returns (r: Result<()>)
    requires bank.Valid() && |values| < 0x1_0000
    modifies bank`log, bank.maps
    ensures bank.Valid()
    ensures values == [] ==> r == Err(InvalidQuantity) && bank.log == old(bank.log) && bank.Cells() == old(bank.Cells())
    ensures values != [] ==>
              var w := WordWindow(start, values);
              var o := Serve(bank.layout, old(bank.Cells()).Keys, bank.batch, w, old(bank.log), w.start);
              && w.start <= o.reached <= w.limit
              && r == o.verdict && bank.log == o.log
              && bank.Cells() == Put(old(bank.Cells()), w, w.start, o.reached)
              && Meant(bank.layout, old(bank.Cells()).Keys, w, o)
              && Observed(bank.layout, old(bank.Cells()).Keys, bank.batch, w, old(bank.log), o)
  {
    if values == [] { return Err(InvalidQuantity); }
    BankContains(bank);
    ServeMeaning(bank.layout, bank.Cells().Keys, bank.batch, WordWindow(start, values), bank.log, start);
    ServeObserved(bank.layout, bank.Cells().Keys, bank.batch, WordWindow(start, values), bank.log);
    r := RunTurns(bank, WordWindow(start, values));
  }
}
