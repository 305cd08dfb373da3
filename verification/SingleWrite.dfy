/** FC05 and FC06: single writes with their individual and batch-notify hooks, and FC16's read-modify-write. */
module SingleWrite {
  import opened Bits
  import opened AddressSpace
  import opened WriteRoute
  import opened Maps
  import opened Domain
  import opened CoilRouter
  import opened RegisterRouter

  /**
    The hook a single write consults: the individual one, else the batch hook if the address is
    notified, else none.
   */
  ghost function SingleAsk<V>(single: Option<SingleFn<V>>, notify: Option<BatchHook<V>>, log: History<V>, a: u16,
                              before: V, value: V)
    : (History<V>, Result<()>)
  {
    if single.Some? then (Then(log, AskedOne(a, before, value)), single.value(log, a, before, value))
    else Ask(notify, log, a, a + 1, [value])
  }

  /** A single write to an address inside some map; `mapped` says whether it is a field of that map. */
  ghost function ServeSingle<V>(mapped: bool, single: Option<SingleFn<V>>, notify: Option<BatchHook<V>>,
                                log: History<V>,
                                a: u16, before: V, value: V): (History<V>, Result<()>)
  {
    var (asked, answer) := SingleAsk(single, notify, log, a, before, value);
    if answer.Err? then (asked, answer)
    else if mapped then (Then(asked, Stored(a, a + 1, [value])), Ok(()))
    else (asked, Err(InvalidAddress))
  }

  /** The individual hook of an address, if one is configured. */
  ghost function SingleOf<V>(bank: Bank<V>, a: int): Option<SingleFn<V>>
  {
    if a in bank.single then Some(bank.single[a]) else None
  }

  /** The batch hook as a fallback for single writes: only for fields declared `notify_via_batch`. */
  ghost function NotifyOf<V>(bank: Bank<V>, i: nat, a: int): Option<BatchHook<V>>
    requires i < |bank.maps|
  {
    if a in bank.maps[i].notified then bank.batch else None
  }

  /** Consults the hook of a single write, if there is one. */
  method AskSingle<V>(bank: Bank<V>, i: nat, address: u16, before: V, value: V) returns (answer: Result<()>)
    requires i < |bank.maps|
    modifies bank`log
    ensures (bank.log, answer) ==
            SingleAsk(SingleOf(bank, address), NotifyOf(bank, i, address), old(bank.log), address, before, value)
  {
    answer := Ok(());
    if address in bank.single {
      answer := bank.single[address](bank.log, address, before, value);
      bank.log := Then(bank.log, AskedOne(address, before, value));
    } else if address in bank.maps[i].notified && bank.batch.Some? {
      answer := bank.batch.value(bank.log, address, [value]);
      bank.log := Then(bank.log, Asked(address, address + 1, [value]));
    }
  }

  /** `write_single` on the map that holds the address. */
  method StoreSingle<V>(bank: Bank<V>, i: nat, address: u16, value: V) returns (r: Result<()>)
    requires bank.Valid() && i < |bank.maps| && bank.maps[i].range.Has(address)
    modifies bank.maps
    ensures bank.Valid()
    ensures r == if address in old(bank.Cells()) then Ok(()) else Err(InvalidAddress)
    ensures bank.Cells() == if r.Ok? then Overlay(old(bank.Cells()), address, [value]) else old(bank.Cells())
  {
    BankFacts(bank);
    ChainedFacts(bank.maps, bank.layout, |bank.maps|);
    ghost var blocks := Values(bank.maps);
    FlatInside(blocks, i, address);
    r := bank.maps[i].WriteSingle(address, value);
    StoredFlat(bank, i, blocks, address, address + 1, [value]);
    if r.Err? { OverlayUnmapped(Flat(blocks), address, value); }
  }

  /** The part of the route inside the map that holds the address. */
  method Dispatch<V>(bank: Bank<V>, i: nat, address: u16, before: V, value: V) returns (r: Result<()>)
    requires bank.Valid() && i < |bank.maps| && bank.maps[i].range.Has(address)
    modifies bank`log, bank.maps
    ensures bank.Valid()
    ensures (bank.log, r) == ServeSingle(address in old(bank.Cells()), SingleOf(bank, address), NotifyOf(bank, i, address),
                                         old(bank.log), address, before, value)
    ensures bank.Cells() == if r.Ok? then Overlay(old(bank.Cells()), address, [value]) else old(bank.Cells())
  {
    var answer := AskSingle(bank, i, address, before, value);
    if answer.Err? { return answer; }
    r := StoreSingle(bank, i, address, value);
    if r.Ok? { bank.log := Then(bank.log, Stored(address, address + 1, [value])); }
  }

  lemma OverlayUnmapped<V>(m: map<int, V>, a: int, value: V)
    requires a !in m
    ensures Overlay(m, a, [value]) == m
  {
  }

  /** The value of one cell, with the type's zero for a hole: the error of `encode` is discarded. */
  ghost function ValueOr<V>(cells: map<int, V>, a: int, zero: V): V
  {
    if a in cells then cells[a] else zero
  }

  lemma CellValue<V>(bank: Bank<V>, i: nat, a: int, end: int)
    requires bank.Valid() && i < |bank.maps| && bank.maps[i].range.Has(a) && end == a + 1
    ensures bank.maps[i].Valid()
    ensures a in bank.maps[i].cells <==> a in bank.Cells()
    ensures a in bank.Cells() ==> bank.maps[i].cells[a] == bank.Cells()[a]
    ensures Reach(bank.maps[i].cells.Keys, a, end) == if a in bank.Cells() then end else a
  {
    BankFacts(bank);
    ChainedFacts(bank.maps, bank.layout, |bank.maps|);
    FlatInside(Values(bank.maps), i, a);
  }

  lemma ZeroBits(bytes: seq<bv8>)
    requires Holds(bytes, [])
    ensures forall j :: 0 <= j < |bytes| ==> bytes[j] & 1 == 0
  {
    MaskValues();
    forall j | 0 <= j < |bytes|
      ensures bytes[j] & 1 == 0
    {
      assert !TestBit(bytes[j], 0);
    }
  }

  method OldCoil(bank: CoilBank, i: nat, address: u16) returns (before: bool)
    requires bank.Valid() && i < |bank.maps| && bank.maps[i].range.Has(address)
    ensures before == ValueOr(bank.Cells(), address, false)
  {
    var buffer := new bv8[1](_ => 0);
    ghost var end := address + 1;
    CellValue(bank, i, address, end);
    var ignored := EncodeBits(bank.maps[i], address, 1, buffer, 0, 1, end);
    before := buffer[0] & 1 != 0;
    if address in bank.Cells() {
      var bits := Read(bank.maps[i].cells, address, end);
      PackPacks(bits);
      MaskValues();
      assert buffer[..1][0] == Pack(bits)[0] && TestBit(Pack(bits)[0], 0) == bits[0];
    } else {
      MaskValues();
      ZeroBits(buffer[..1]);
      assert buffer[..][0] == buffer[..1][0];
    }
  }

  method OldRegister(bank: RegisterBank, i: nat, address: u16) returns (r: Result<nat>, before: bv16)
    requires bank.Valid() && i < |bank.maps| && bank.maps[i].range.Has(address)
    ensures r == if address in bank.Cells() then Ok(2) else Err(InvalidAddress)
    ensures before == ValueOr(bank.Cells(), address, 0)
  {
    var buffer := new bv8[2](_ => 0);
    ghost var end := address + 1;
    CellValue(bank, i, address, end);
    r := EncodeWords(bank.maps[i], address, 1, buffer, 0, 2, end);
    before := Word(buffer[0], buffer[1]);
    if address in bank.Cells() {
      var words := Read(bank.maps[i].cells, address, end);
      assert buffer[..2] == BigEndian(words);
      assert buffer[0] == BigEndian(words)[0] && buffer[1] == BigEndian(words)[1];
      WordOfBytes(words[0]);
    } else {
      assert buffer[..][0] == 0 && buffer[..][1] == 0;
    }
  }

  /**
    What a hook's answer to `call` leads to: a refusal is passed on as it is, with nothing behind
    the call; an accepted write succeeds, and is stored right behind the call, exactly if the
    address is mapped.
   */
  ghost predicate Obeys<V>(answer: Result<()>, call: Event<V>, stored: Event<V>, mapped: bool, log: History<V>,
                           told: History<V>, verdict: Result<()>)
  {
    if answer.Err? then verdict == answer && told == Then(log, call)
    else if mapped then verdict == Ok(()) && told == Then(Then(log, call), stored)
    else verdict == Err(InvalidAddress) && told == Then(log, call)
  }

  /**
    The policy of the handlers, in terms of the app's own configuration: an individual hook of the
    address goes first; without one the batch hook is asked if the map declares the field
    `notify_via_batch`; otherwise nobody is.
   */
  ghost predicate FollowsPolicy<V>(bank: Bank<V>, i: nat, mapped: bool, a: u16, before: V, value: V,
                                   log: History<V>, told: History<V>, verdict: Result<()>)
    requires i < |bank.maps|
  {
    var stored := Stored(a, a + 1, [value]);
    if a in bank.single then
      Obeys(bank.single[a](log, a, before, value), AskedOne(a, before, value), stored, mapped, log, told, verdict)
    else if a in bank.maps[i].notified && bank.batch.Some? then
      Obeys(bank.batch.value(log, a, [value]), Asked(a, a + 1, [value]), stored, mapped, log, told, verdict)
    else if mapped then
      verdict == Ok(()) && told == Then(log, stored)
    else
      verdict == Err(InvalidAddress) && told == log
  }

  /** FC05: `write_single_coil_request`. An individual hook receives the true old value, or false for a hole. */
  method WriteSingleCoil(bank: CoilBank, address: u16, value: bool) returns (r: Result<()>)
    requires bank.Valid()
    modifies bank`log, bank.maps
    ensures bank.Valid()
    ensures !Covered(bank.layout, address) ==>
              r == Err(InvalidAddress) && bank.log == old(bank.log) && bank.Cells() == old(bank.Cells())
    ensures Covered(bank.layout, address) ==>
              && Pick(bank.layout, address) < |bank.maps|
              && (bank.log, r) == ServeSingle(address in old(bank.Cells()), SingleOf(bank, address),
                                              NotifyOf(bank, Pick(bank.layout, address), address), old(bank.log),
                                              address, ValueOr(old(bank.Cells()), address, false), value)
              && bank.Cells() == if r.Ok? then Overlay(old(bank.Cells()), address, [value]) else old(bank.Cells())
    ensures Covered(bank.layout, address) ==>
              && Pick(bank.layout, address) < |bank.maps|
              && FollowsPolicy(bank, Pick(bank.layout, address), address in old(bank.Cells()), address,
                               if address in old(bank.Cells()) then old(bank.Cells())[address] else false, value,
                               old(bank.log), bank.log, r)
  {
    var i := bank.Find(address);
    if i == |bank.maps| { return Err(InvalidAddress); }
    var before := value;
    if address in bank.single { before := OldCoil(bank, i, address); }
    r := Dispatch(bank, i, address, before, value);
  }

  /** FC06: `write_single_register_request`. */
  method WriteSingleRegister(bank: RegisterBank, address: u16, value: bv16) returns (r: Result<()>)
    requires bank.Valid()
    modifies bank`log, bank.maps
    ensures bank.Valid()
    ensures !Covered(bank.layout, address) ==>
              r == Err(InvalidAddress) && bank.log == old(bank.log) && bank.Cells() == old(bank.Cells())
    ensures Covered(bank.layout, address) ==>
              && Pick(bank.layout, address) < |bank.maps|
              && (bank.log, r) == ServeSingle(address in old(bank.Cells()), SingleOf(bank, address),
                                              NotifyOf(bank, Pick(bank.layout, address), address), old(bank.log),
                                              address, ValueOr(old(bank.Cells()), address, 0), value)
              && bank.Cells() == if r.Ok? then Overlay(old(bank.Cells()), address, [value]) else old(bank.Cells())
    ensures Covered(bank.layout, address) ==>
              && Pick(bank.layout, address) < |bank.maps|
              && FollowsPolicy(bank, Pick(bank.layout, address), address in old(bank.Cells()), address,
                               if address in old(bank.Cells()) then old(bank.Cells())[address] else 0, value,
                               old(bank.log), bank.log, r)
  {
    var i := bank.Find(address);
    if i == |bank.maps| { return Err(InvalidAddress); }
    var before := value;
    if address in bank.single {
      var ignored;
      ignored, before := OldRegister(bank, i, address);
    }
    r := Dispatch(bank, i, address, before, value);
  }

  /**
    A hook on a hole: between the registers 0 and 2 it is asked about the old value 0, accepts, and
    the write fails.
   */
  method WriteHole(bank: RegisterBank, value: bv16) returns (r: Result<()>)
    requires bank.Valid() && bank.layout == [Range(0, 2)] && bank.Cells().Keys == {0, 2}
    requires 1 in bank.single && bank.single[1](bank.log, 1, 0, value).Ok?
    modifies bank`log, bank.maps
    ensures bank.Valid() && r == Err(InvalidAddress) && bank.Cells() == old(bank.Cells())
    ensures bank.log == Then(old(bank.log), AskedOne(1, 0, value))
  {
    PickFirst(bank.layout, 1, 0, 0);
    r := WriteSingleRegister(bank, 1, value);
  }

  /** The calls of hooks since `base`. */
  ghost function AskCount<V>(log: History<V>, base: History<V>): nat
  {
    if log == base || log.Start? then 0
    else AskCount(log.earlier, base) + if log.event.Stored? then 0 else 1
  }

  lemma {:induction false} NotItself<V>(log: History<V>, event: Event<V>)
    ensures Then(log, event) != log
  {
    if log.Then? { NotItself(log.earlier, log.event); }
  }

  lemma {:induction false} NotTwice<V>(log: History<V>, event: Event<V>, last: Event<V>)
    ensures Then(Then(log, event), last) != log
  {
    if log.Then? && log.earlier.Then? { NotTwice(log.earlier, log.event, event); }
  }

  lemma CountOne<V>(log: History<V>, event: Event<V>)
    ensures Then(log, event) != log
    ensures AskCount(Then(log, event), log) == if event.Stored? then 0 else 1
  {
    NotItself(log, event);
    assert AskCount(log, log) == 0;
  }

  lemma CountTwo<V>(log: History<V>, event: Event<V>, last: Event<V>)
    ensures Then(Then(log, event), last) != log
    ensures AskCount(Then(Then(log, event), last), log) == AskCount(Then(log, event), log) + if last.Stored? then 0 else 1
    ensures AskCount(Then(log, event), log) == if event.Stored? then 0 else 1
  {
    NotTwice(log, event, last);
    CountOne(log, event);
  }

  /** `told` extends `log` by the call, and by nothing else but a store behind it. */
  ghost predicate FollowsCall<V>(told: History<V>, log: History<V>, call: Event<V>)
  {
    || told == Then(log, call)
    || (told.Then? && told.event.Stored? && told.earlier == Then(log, call))
  }

  /**
    The hook policy: at most one hook is consulted, the individual one with the old and the new
    value if there is one; a refused write is not stored, and an accepted one is stored exactly
    if the address is mapped. The same holds where there is no hook to ask.
   */
  lemma SinglePolicy<V>(mapped: bool, single: Option<SingleFn<V>>, notify: Option<BatchHook<V>>, log: History<V>,
                        a: u16, before: V, value: V)
    ensures var (told, verdict) := ServeSingle(mapped, single, notify, log, a, before, value);
            && AskCount(told, log) == (if single.Some? || notify.Some? then 1 else 0)
            && (single.Some? ==> FollowsCall(told, log, AskedOne(a, before, value)))
            && (single.None? && notify.Some? ==> FollowsCall(told, log, Asked(a, a + 1, [value])))
            && (verdict.Ok? <==> told.Then? && told != log && told.event == Stored(a, a + 1, [value]))
            && (single.Some? ==>
                  Obeys(single.value(log, a, before, value), AskedOne(a, before, value), Stored(a, a + 1, [value]),
                        mapped, log, told, verdict))
            && (single.None? && notify.Some? ==>
                  Obeys(notify.value(log, a, [value]), Asked(a, a + 1, [value]), Stored(a, a + 1, [value]),
                        mapped, log, told, verdict))
            && (single.None? && notify.None? ==>
                if mapped then verdict == Ok(()) && told == Then(log, Stored(a, a + 1, [value]))
                else verdict == Err(InvalidAddress) && told == log)
  {
    var (told, verdict) := ServeSingle(mapped, single, notify, log, a, before, value);
    var (asked, answer) := SingleAsk(single, notify, log, a, before, value);
    var stored := Stored(a, a + 1, [value]);
    if single.Some? || notify.Some? {
      var event := if single.Some? then AskedOne(a, before, value) else Asked(a, a + 1, [value]);
      assert asked == Then(log, event);
      CountTwo(log, event, stored);
    } else {
      assert asked == log && AskCount(log, log) == 0;
      CountOne(log, stored);
    }
  }

  /**
    A single write that falls back to the batch hook behaves like a bulk write of one cell: same
    calls, same store, same verdict. The exception is address 65535, which the bulk route stores
    and then reports as an address error.
   */
  lemma NotifiedIsBulkOfOne<V>(ranges: seq<Range>, keys: set<int>, hook: BatchHook<V>, log: History<V>, a: u16,
                               before: V, value: V)
    requires Covered(ranges, a) && a in keys
    ensures var (told, verdict) := ServeSingle(true, None, Some(hook), log, a, before, value);
            var o := Serve(ranges, keys, Some(hook), Window(a, a + 1, a + 1, [value]), log, a);
            && o.log == told
            && (o.reached == a + 1 <==> verdict.Ok?)
            && (o.verdict == verdict <==> !(a == 0xFFFF && verdict.Ok?))
  {
    var w := Window(a, a + 1, a + 1, [value]);
    assert SegmentEnd(ranges, a, w.end) == w.end;
    assert Slice(w, a, w.end) == [value];
    assert Reach(keys, a, w.end) == w.end;
  }

  /** FC16: the async route's mask write, which consults no hook. */
  method MaskWriteRegister(bank: RegisterBank, address: u16, andMask: bv16, orMask: bv16) returns (r: Result<()>)
    requires bank.Valid()
    modifies bank.maps
    ensures bank.Valid()
    ensures r == if address in old(bank.Cells()) then Ok(()) else Err(InvalidAddress)
    ensures bank.Cells() == if r.Ok? then Overlay(old(bank.Cells()), address, [Masked(old(bank.Cells())[address], andMask, orMask)])
                            else old(bank.Cells())
  {
    BankContains(bank);
    var i := bank.Find(address);
    if i == |bank.maps| {
      assert !Covered(bank.layout, address);
      return Err(InvalidAddress);
    }
    var encoded, before := OldRegister(bank, i, address);
    if encoded.Err? { return Err(encoded.error); }
    var value := (before & andMask) | (orMask & !andMask);
    r := StoreSingle(bank, i, address, value);
  }
}
