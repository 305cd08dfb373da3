/**
  The generated C entry points as programs: the hooks to pass before the lock is taken, and the
  single cells touched, in order, while it is held. Both depend only on the config and the
  request, since fields are never added or removed.
 */
module CodegenProgram {
  import opened AddressSpace
  import opened WriteRoute
  import opened Maps
  import opened CodegenConfig

  /** One access to a cell under the lock. `Elsewhere` is an access to another data domain. */
  datatype Op<V> = Store(address: int, value: V) | Load(address: int) | Elsewhere

  datatype Program<V> = Program(calls: seq<Call>, ops: seq<Op<V>>)

  /** The entry points that touch a data domain with values of type `V`; `raw` is a value as a hook sees it. */
  datatype Request<V> =
    | WriteOne(address: u16, raw: bv16, value: V)
    | WritePacked(window: Window<V>, raws: seq<bv16>)
    | WriteList(window: Window<V>, raws: seq<bv16>)
    | SetAt(address: u16, raw: bv16, value: V)
    | SetNamed(index: nat, value: V)
    | ReadMany(address: u16, end: int, bytes: nat, room: nat, none: MbusError)
    | GetAt(address: u16)
    | GetNamed(index: nat)
  {
    /**
      Requests as the C API can pass them: named accessors exist for entries only, and a hook sees
      one value per address.
     */
    ghost predicate Fits(s: Section)
    {
      match this
      case WritePacked(w, raws) => w.Valid() && |raws| == w.end - w.start
      case WriteList(w, raws) => w.Valid() && w.limit == w.end && |raws| == w.end - w.start
      case SetNamed(index, _) => index < |s.entries|
      case GetNamed(index) => index < |s.entries|
      case ReadMany(address, end, _, _, _) => address <= end
      case _ => true
    }
  }

  /** The hooks of a multi-cell write: one per address, walking on from 65535 to 0 as `wrapping_add` does. */
  function CallsFor(s: Section, start: u16, raws: seq<bv16>): (calls: seq<Call>)
    ensures |calls| == |raws|
    ensures forall i :: 0 <= i < |calls| && calls[i].Invoke? ==>
              calls[i].raw == raws[i] && calls[i].address == (start + i) % 0x1_0000
  {
    seq(|raws|, i requires 0 <= i < |raws| => Dispatch(s, (start + i) % 0x1_0000, raws[i]))
  }

  /** Stores of the window's values at the addresses from `at` up to `end`. */
  function Stores<V>(w: Window<V>, at: int, end: int): (ops: seq<Op<V>>)
    requires w.Valid() && w.start <= at <= end <= w.limit
    ensures |ops| == end - at
  {
    seq(end - at, i requires 0 <= i < end - at => Store(at + i, w.values[at + i - w.start]))
  }

  function Loads<V>(at: int, end: int): (ops: seq<Op<V>>)
    requires at <= end
    ensures |ops| == end - at
  {
    seq(end - at, i requires 0 <= i < end - at => Load(at + i))
  }

  /** The addresses that an address-based get may read. */
  ghost predicate MayRead(s: Section, a: int)
  {
    exists i :: 0 <= i < |s.entries| && s.entries[i].address == a && s.entries[i].access.Readable()
  }

  ghost function OpsFor<V>(s: Section, range: Range, request: Request<V>): seq<Op<V>>
    requires request.Fits(s)
  {
    match request
    case WriteOne(address, _, value) => if address in Keys(s) then [Store(address, value)] else []
    case WritePacked(w, _) =>
      if PackedInRange(range, w.start, w.end) then Stores(w, w.start, Reach(Keys(s), w.start, w.limit)) else []
    case WriteList(w, _) => Stores(w, w.start, Reach(Keys(s), w.start, w.limit))
    case SetAt(address, _, value) => if MayWrite(s, address) then [Store(address, value)] else []
    case SetNamed(index, value) => [Store(s.entries[index].address, value)]
    case ReadMany(address, end, bytes, room, none) =>
      if PackedInRange(range, address, end) && bytes <= room then Loads(address, Reach(Keys(s), address, end)) else []
    case GetAt(address) => if MayRead(s, address) then [Load(address)] else []
    case GetNamed(index) => [Load(s.entries[index].address)]
  }

  function CallsOf<V>(s: Section, request: Request<V>): seq<Call>
  {
    match request
    case WriteOne(address, raw, _) => [Dispatch(s, address, raw)]
    case WritePacked(w, raws) => CallsFor(s, w.start, raws)
    case WriteList(w, raws) => CallsFor(s, w.start, raws)
    case SetAt(address, raw, _) => [Dispatch(s, address, raw)]
    case _ => []
  }

  ghost function ProgramOf<V>(s: Section, range: Range, request: Request<V>): Program<V>
    requires request.Fits(s)
  {
    Program(CallsOf(s, request), OpsFor(s, range, request))
  }

  function Apply<V>(op: Op<V>, cells: map<int, V>): (r: map<int, V>)
    ensures r.Keys == cells.Keys
  {
    if op.Store? then Overlay(cells, op.address, [op.value]) else cells
  }

  /** The cells after the first `n` operations. */
  function RunOps<V>(ops: seq<Op<V>>, n: nat, cells: map<int, V>): (r: map<int, V>)
    requires n <= |ops|
    ensures r.Keys == cells.Keys
  {
    if n == 0 then cells else Apply(ops[n - 1], RunOps(ops, n - 1, cells))
  }

  /** What the first `n` operations read, in order. */
  function Seen<V>(ops: seq<Op<V>>, n: nat, cells: map<int, V>): seq<V>
    requires n <= |ops|
  {
    if n == 0 then []
    else
      var before := Seen(ops, n - 1, cells);
      var op := ops[n - 1];
      if op.Load? && op.address in cells then before + [RunOps(ops, n - 1, cells)[op.address]] else before
  }

  /** No address of the write lacks a writable entry, so only hooks can still refuse it. */
  ghost predicate Servable(calls: seq<Call>)
  {
    forall i :: 0 <= i < |calls| ==> !calls[i].Missing?
  }

  lemma {:induction false} StoresPut<V>(w: Window<V>, at: int, end: int, n: nat, next: int, cells: map<int, V>)
    requires w.Valid() && w.start <= at <= end <= w.limit && next == at + n <= end
    ensures RunOps(Stores(w, at, end), n, cells) == Put(cells, w, at, next)
  {
    if n == 0 {
      PutNothing(cells, w, at);
    } else {
      var last := next - 1;
      StoresPut(w, at, end, n - 1, last, cells);
      var first := RunOps(Stores(w, at, end), n - 1, cells);
      var value := w.values[last - w.start];
      assert Stores(w, at, end)[n - 1] == Store(last, value);
      PutStep(cells, w, at, last, next, value, first, Overlay(first, last, [value]));
    }
  }

  lemma OneStore<V>(cells: map<int, V>, a: int, value: V)
    requires a in cells
    ensures RunOps([Store(a, value)], 1, cells) == cells[a := value]
  {
    assert RunOps([Store(a, value)], 0, cells) == cells;
    assert Overlay(cells, a, [value]) == cells[a := value];
  }

  lemma {:induction false} LoadsRead<V>(at: int, end: int, n: nat, next: int, cells: map<int, V>)
    requires next == at + n <= end && AllMapped(cells, at, next)
    ensures RunOps(Loads(at, end), n, cells) == cells
    ensures Seen(Loads(at, end), n, cells) == Read(cells, at, next)
  {
    if n > 0 {
      var last := next - 1;
      LoadsRead(at, end, n - 1, last, cells);
      ReadMore(cells, at, last, next);
    }
  }

  /** An address of a servable window is writable if it lies before the wrap. */
  lemma ServableAddress(s: Section, start: u16, raws: seq<bv16>, a: u16)
    requires Servable(CallsFor(s, start, raws)) && start <= a < start + |raws|
    ensures MayWrite(s, a)
  {
    var i := a - start;
    assert !CallsFor(s, start, raws)[i].Missing?;
    assert (start + i) % 0x1_0000 == a;
  }

  lemma MayWriteIsKey(s: Section, a: int)
    requires MayWrite(s, a)
    ensures a in Keys(s)
  {
    var i :| 0 <= i < |s.entries| && s.entries[i].address == a && s.entries[i].access.Writable();
    assert s.entries[i] in s.entries;
  }

  /** A servable window is mapped up to where it ends or wraps. */
  lemma ServableReach(s: Section, start: u16, raws: seq<bv16>, mid: int)
    requires Servable(CallsFor(s, start, raws)) && start <= mid <= start + |raws|
    ensures Reach(Keys(s), start, mid) == Min(mid, 0x1_0000)
  {
    var last := Min(mid, 0x1_0000);
    forall a | start <= a < last
      ensures a in Keys(s)
    {
      ServableAddress(s, start, raws, a);
      MayWriteIsKey(s, a);
    }
    ReachUnique(Keys(s), start, mid, last);
  }

  /** Every store a servable program makes goes to a writable entry; named setters are the exception. */
  lemma OnlyWritable<V>(s: Section, range: Range, request: Request<V>, k: nat)
    requires request.Fits(s) && !request.SetNamed?
    requires Servable(CallsOf(s, request)) && k < |OpsFor(s, range, request)| && OpsFor(s, range, request)[k].Store?
    ensures MayWrite(s, OpsFor(s, range, request)[k].address)
  {
    match request
    case WriteOne(address, raw, value) =>
      assert !CallsOf(s, request)[0].Missing?;
    case WritePacked(w, raws) =>
      ServableReach(s, w.start, raws, w.limit);
      ServableAddress(s, w.start, raws, w.start + k);
    case WriteList(w, raws) =>
      ServableReach(s, w.start, raws, w.limit);
      ServableAddress(s, w.start, raws, w.start + k);
    case _ =>
  }

  /** FC05, FC06 and the address-based setters, once the address is writable: that one cell gets the value. */
  lemma SingleStored<V>(s: Section, range: Range, request: Request<V>, cells: map<int, V>)
    requires (request.WriteOne? || request.SetAt?) && Servable(CallsOf(s, request)) && cells.Keys == Keys(s)
    ensures var ops := OpsFor(s, range, request);
            request.address in cells && RunOps(ops, |ops|, cells) == cells[request.address := request.value]
  {
    assert !CallsOf(s, request)[0].Missing?;
    MayWriteIsKey(s, request.address);
    OneStore(cells, request.address, request.value);
  }

  /** A named setter stores its own entry's cell, whatever that entry's access. */
  lemma NamedStored<V>(s: Section, range: Range, index: nat, value: V, cells: map<int, V>)
    requires index < |s.entries| && cells.Keys == Keys(s)
    ensures var ops := OpsFor(s, range, SetNamed(index, value));
            var a := s.entries[index].address;
            && CallsOf(s, SetNamed(index, value)) == []
            && a in cells && RunOps(ops, |ops|, cells) == cells[a := value]
  {
    assert s.entries[index] in s.entries;
    OneStore(cells, s.entries[index].address, value);
  }

  lemma OneLoad<V>(a: int, cells: map<int, V>)
    requires a in cells
    ensures Seen([Load(a)], 1, cells) == [cells[a]] && RunOps([Load(a)], 1, cells) == cells
  {
    assert RunOps([Load(a)], 0, cells) == cells;
    assert Seen([Load(a)], 0, cells) == [];
  }

  /**
    A named getter reads its entry; an address-based one reads an entry declared `ro` or `rw`, and
    nothing at other addresses.
   */
  lemma GetSees<V>(s: Section, range: Range, i: nat, cells: map<int, V>)
    requires Distinct(s.entries) && i < |s.entries| && cells.Keys == Keys(s)
    ensures var a := s.entries[i].address;
            var named, gets := OpsFor<V>(s, range, GetNamed(i)), OpsFor<V>(s, range, GetAt(a));
            && a in cells && Seen(named, |named|, cells) == [cells[a]]
            && (s.entries[i].access == Wo ==> gets == [])
            && (s.entries[i].access != Wo ==> Seen(gets, |gets|, cells) == [cells[a]])
  {
    assert s.entries[i] in s.entries;
    OneLoad(s.entries[i].address, cells);
  }

  /** `ADDR_MIN..=ADDR_MAX` of the derived map: every entry lies in it, and both ends are entries. */
  ghost predicate Spans(range: Range, s: Section)
  {
    && (forall a :: a in Keys(s) ==> range.Has(a))
    && range.lo in Keys(s) && range.hi in Keys(s)
  }

  /**
    FC10, once every address is writable: the registers up to the wrap are stored. The response
    is always success, so it tells the truth exactly for windows that do not wrap.
   */
  lemma ListStored<V>(s: Section, range: Range, w: Window<V>, raws: seq<bv16>, cells: map<int, V>)
    requires WriteList(w, raws).Fits(s) && Servable(CallsFor(s, w.start, raws))
    ensures var ops := OpsFor(s, range, WriteList(w, raws));
            var end := Min(w.end, 0x1_0000);
            && RunOps(ops, |ops|, cells) == Put(cells, w, w.start, end)
            && (|ops| == |raws| <==> w.end <= 0x1_0000)
  {
    var end := Min(w.end, 0x1_0000);
    ServableReach(s, w.start, raws, w.limit);
    StoresPut(w, w.start, end, end - w.start, end, cells);
  }

  /**
    FC0F, once every address is writable: a window that wraps stores nothing, any other one is
    stored as far as the payload goes. The response is success all the same.
   */
  lemma PackedStored<V>(s: Section, range: Range, w: Window<V>, raws: seq<bv16>, cells: map<int, V>)
    requires WritePacked(w, raws).Fits(s) && Servable(CallsFor(s, w.start, raws)) && Spans(range, s) && w.start < w.end
    ensures var ops := OpsFor(s, range, WritePacked(w, raws));
            var end := if w.end <= 0x1_0000 then w.limit else w.start;
            && RunOps(ops, |ops|, cells) == Put(cells, w, w.start, end)
            && (|ops| == |raws| <==> w.end <= 0x1_0000 && w.limit == w.end)
  {
    ServableReach(s, w.start, raws, w.limit);
    assert w.start in Keys(s) by { ServableAddress(s, w.start, raws, w.start); MayWriteIsKey(s, w.start); }
    if w.end <= 0x1_0000 {
      var last := w.end - 1;
      ServableAddress(s, w.start, raws, last);
      MayWriteIsKey(s, last);
      StoresPut(w, w.start, w.limit, w.limit - w.start, w.limit, cells);
    } else {
      PutNothing(cells, w, w.start);
    }
  }

  /** Two coils at both ends of the address space: the write is answered with success, and no coil changes. */
  lemma WrappedWriteIsLost()
    ensures var s := Section([Entry(0xFFFF, Rw, None), Entry(0, Rw, None)], None);
            var request := WritePacked(Window(0xFFFF, 0x1_0001, 0x1_0001, [true, true]), [1, 1]);
            && Distinct(s.entries) && request.Fits(s) && Spans(Range(0, 0xFFFF), s)
            && CallsOf(s, request) == [Silent, Silent]
            && OpsFor(s, Range(0, 0xFFFF), request) == []
  {
    var s := Section([Entry(0xFFFF, Rw, None), Entry(0, Rw, None)], None);
    assert s.entries[0] in s.entries && s.entries[1] in s.entries;
    assert Dispatch(s, 0xFFFF, 1) == Silent;
    assert DispatchFrom(s, 0, 1, 1) == Silent;
  }

  /** Reads leave the cells alone and see them all, if they see the whole window. */
  lemma ReadSees<V>(s: Section, range: Range, request: Request<V>, cells: map<int, V>)
    requires request.ReadMany? && request.Fits(s) && cells.Keys == Keys(s)
    ensures var ops := OpsFor(s, range, request);
            && RunOps(ops, |ops|, cells) == cells
            && (EncodeVerdict(range, Keys(s), request.address, request.end, request.bytes, request.room, request.none).Ok? ==>
                && AllMapped(cells, request.address, request.end)
                && Seen(ops, |ops|, cells) == Read(cells, request.address, request.end))
  {
    var end := Reach(Keys(s), request.address, request.end);
    ReachMapped(Keys(s), request.address, request.end);
    LoadsRead(request.address, end, end - request.address, end, cells);
  }
}
