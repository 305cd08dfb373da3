/** Multi-cell writes against the single-write handlers called cell by cell, on apps without hooks. */
module BulkAndSingle {
  import opened AddressSpace
  import opened WriteRoute
  import opened FlatLaws
  import opened Maps
  import opened Domain
  import opened CoilRouter
  import opened RegisterRouter
  import opened SingleWrite

  ghost predicate HookFree<V>(bank: Bank<V>)
  {
    bank.batch.None? && bank.single == map[]
  }

  /** Two apps without hooks, with separate maps that may split their cells differently. */
  ghost predicate Apart<V>(left: Bank<V>, right: Bank<V>)
  {
    && HookFree(left) && HookFree(right) && left != right
    && forall i, j :: 0 <= i < |left.maps| && 0 <= j < |right.maps| ==> left.maps[i] != right.maps[j]
  }

  ghost function SingleVerdict(keys: set<int>, a: int): Result<()>
  {
    if a in keys then Ok(()) else Err(InvalidAddress)
  }

  /** FC06 without hooks depends on the flat view alone. */
  method SetRegister(bank: RegisterBank, address: u16, value: bv16) returns (r: Result<()>)
    requires bank.Valid() && HookFree(bank)
    modifies bank`log, bank.maps
    ensures bank.Valid() && r == SingleVerdict(old(bank.Cells()).Keys, address)
    ensures bank.Cells() == Overlay(old(bank.Cells()), address, [value])
  {
    ghost var cells := bank.Cells();
    BankContains(bank);
    assert address in cells ==> Covered(bank.layout, address);
    if address !in cells { OverlayUnmapped(cells, address, value); }
    r := WriteSingleRegister(bank, address, value);
  }

  /** FC05 without hooks. */
  method SetCoil(bank: CoilBank, address: u16, value: bool) returns (r: Result<()>)
    requires bank.Valid() && HookFree(bank)
    modifies bank`log, bank.maps
    ensures bank.Valid() && r == SingleVerdict(old(bank.Cells()).Keys, address)
    ensures bank.Cells() == Overlay(old(bank.Cells()), address, [value])
  {
    ghost var cells := bank.Cells();
    BankContains(bank);
    assert address in cells ==> Covered(bank.layout, address);
    if address !in cells { OverlayUnmapped(cells, address, value); }
    r := WriteSingleCoil(bank, address, value);
  }

  /** One more single write of a window that is written cell by cell. */
  lemma SinglesNext<V>(cells: map<int, V>, w: Window<V>, at: int, next: int, value: V)
    requires w.Valid() && w.limit == w.end && w.start <= at < w.end && next == at + 1 && value == w.values[at - w.start]
    ensures at in cells ==>
              && Singles(cells, w, at) == Singles(Overlay(cells, at, [value]), w, next)
              && SinglesVerdict(cells.Keys, at, w.end) == SinglesVerdict(cells.Keys, next, w.end)
    ensures at !in cells ==> Singles(cells, w, at) == cells && SinglesVerdict(cells.Keys, at, w.end) == Err(InvalidAddress)
  {
    assert Slice(w, at, next) == [value];
  }

  lemma BeyondIsUnmapped<V>(bank: Bank<V>, a: int)
    requires bank.Valid() && a > 0xFFFF
    ensures a !in bank.Cells()
  {
    BankContains(bank);
    assert !Covered(bank.layout, a);
  }

  /** FC06 for every register of a window, given up at the first failure. */
  method RepeatRegisters(bank: RegisterBank, w: Window<bv16>) returns (r: Result<()>)
    requires bank.Valid() && HookFree(bank) && w.Valid() && w.limit == w.end
    modifies bank`log, bank.maps
    ensures bank.Valid()
    ensures bank.Cells() == Singles(old(bank.Cells()), w, w.start)
    ensures r == SinglesVerdict(old(bank.Cells()).Keys, w.start, w.end)
  {
    ghost var keys := bank.Cells().Keys;
    ghost var goal, verdict := Singles(bank.Cells(), w, w.start), SinglesVerdict(keys, w.start, w.end);
    var cur: int := w.start;
    while cur < w.end
      invariant bank.Valid() && w.start <= cur <= w.end && bank.Cells().Keys == keys
      invariant Singles(bank.Cells(), w, cur) == goal && SinglesVerdict(keys, cur, w.end) == verdict
    {
      var value, next := w.values[cur - w.start], cur + 1;
      ghost var cells := bank.Cells();
      SinglesNext(cells, w, cur, next, value);
      if cur > 0xFFFF {
        BeyondIsUnmapped(bank, cur);
        return Err(InvalidAddress);
      }
      if cur !in cells { OverlayUnmapped(cells, cur, value); }
      r := SetRegister(bank, cur, value);
      if r.Err? { return; }
      cur := next;
    }
    return Ok(());
  }

  /** FC05 for every coil of a window, given up at the first failure. */
  method RepeatCoils(bank: CoilBank, w: Window<bool>) returns (r: Result<()>)
    requires bank.Valid() && HookFree(bank) && w.Valid() && w.limit == w.end
    modifies bank`log, bank.maps
    ensures bank.Valid()
    ensures bank.Cells() == Singles(old(bank.Cells()), w, w.start)
    ensures r == SinglesVerdict(old(bank.Cells()).Keys, w.start, w.end)
  {
    ghost var keys := bank.Cells().Keys;
    ghost var goal, verdict := Singles(bank.Cells(), w, w.start), SinglesVerdict(keys, w.start, w.end);
    var cur: int := w.start;
    while cur < w.end
      invariant bank.Valid() && w.start <= cur <= w.end && bank.Cells().Keys == keys
      invariant Singles(bank.Cells(), w, cur) == goal && SinglesVerdict(keys, cur, w.end) == verdict
    {
      var value, next := w.values[cur - w.start], cur + 1;
      ghost var cells := bank.Cells();
      SinglesNext(cells, w, cur, next, value);
      if cur > 0xFFFF {
        BeyondIsUnmapped(bank, cur);
        return Err(InvalidAddress);
      }
      if cur !in cells { OverlayUnmapped(cells, cur, value); }
      r := SetCoil(bank, cur, value);
      if r.Err? { return; }
      cur := next;
    }
    return Ok(());
  }

  /**
    When FC10 or FC0F for a whole window answers as the repeated single writes do: it is neither
    empty nor ends, mapped, at 65535.
   */
  ghost predicate SameAnswer<V>(cells: map<int, V>, w: Window<V>)
  {
    w.start < w.end && !(AllMapped(cells, w.start, w.end) && w.end == 0x1_0000)
  }

  /** FC10 without hooks stores what single writes store; the answers differ in exactly two cases. */
  method BulkRegisters(bank: RegisterBank, start: u16, values: seq<bv16>, ghost w: Window<bv16>) returns (r: Result<()>)
    requires bank.Valid() && HookFree(bank) && |values| < 0x1_0000 && w == WordWindow(start, values)
    modifies bank`log, bank.maps
    ensures bank.Valid() && bank.Cells() == Singles(old(bank.Cells()), w, w.start)
    ensures r == SinglesVerdict(old(bank.Cells()).Keys, w.start, w.end) <==> SameAnswer(old(bank.Cells()), w)
  {
    ghost var cells := bank.Cells();
    ghost var o := Serve(bank.layout, cells.Keys, bank.batch, w, bank.log, w.start);
    BankContains(bank);
    BulkIsRepeatedSingle(bank.layout, cells, w, bank.log, o);
    r := WriteMultipleRegisters(bank, start, values);
  }

  /** FC0F likewise, with a payload for the whole window. */
  method BulkCoils(bank: CoilBank, start: u16, quantity: u16, values: seq<bv8>, ghost w: Window<bool>)
    returns (r: Result<()>)
    requires bank.Valid() && HookFree(bank) && quantity <= 8 * |values| && w == BitWindow(values, start, quantity)
    modifies bank`log, bank.maps
    ensures bank.Valid() && w.limit == w.end && bank.Cells() == Singles(old(bank.Cells()), w, w.start)
    ensures r == SinglesVerdict(old(bank.Cells()).Keys, w.start, w.end) <==> SameAnswer(old(bank.Cells()), w)
  {
    ghost var cells := bank.Cells();
    ghost var o := Serve(bank.layout, cells.Keys, bank.batch, w, bank.log, w.start);
    BankContains(bank);
    BulkIsRepeatedSingle(bank.layout, cells, w, bank.log, o);
    r := WriteMultipleCoils(bank, start, quantity, values);
  }

  /** FC10 on one app and FC06 cell by cell on another with the same contents, however each splits them. */
  method BulkAgainstSingleRegisters(left: RegisterBank, right: RegisterBank, start: u16, values: seq<bv16>)
    returns (l: Result<()>, r: Result<()>)
    requires left.Valid() && right.Valid() && Apart(left, right) && left.Cells() == right.Cells() && |values| < 0x1_0000
    modifies left`log, left.maps, right`log, right.maps
    ensures left.Valid() && right.Valid() && left.Cells() == right.Cells()
    ensures l == r <==> SameAnswer(old(left.Cells()), WordWindow(start, values))
  {
    ghost var cells, w := left.Cells(), WordWindow(start, values);
    l := BulkRegisters(left, start, values, w);
    assert right.Valid() && right.Cells() == cells;
    ghost var after := left.Cells();
    r := RepeatRegisters(right, WordWindow(start, values));
    assert left.Valid() && left.Cells() == after;
  }

  /** FC0F on one app and FC05 cell by cell on another. */
  method BulkAgainstSingleCoils(left: CoilBank, right: CoilBank, start: u16, quantity: u16, values: seq<bv8>)
    returns (l: Result<()>, r: Result<()>)
    requires left.Valid() && right.Valid() && Apart(left, right) && left.Cells() == right.Cells()
    requires quantity <= 8 * |values|
    modifies left`log, left.maps, right`log, right.maps
    ensures left.Valid() && right.Valid() && left.Cells() == right.Cells()
    ensures l == r <==> SameAnswer(old(left.Cells()), BitWindow(values, start, quantity))
  {
    ghost var cells, w := left.Cells(), BitWindow(values, start, quantity);
    l := BulkCoils(left, start, quantity, values, w);
    assert right.Valid() && right.Cells() == cells;
    ghost var after := left.Cells();
    r := RepeatCoils(right, BitWindow(values, start, quantity));
    assert left.Valid() && left.Cells() == after;
  }
}
