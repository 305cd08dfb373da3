/** The generated C server app: a static model of derived maps, changed between lock and unlock. */
module CodegenApp {
  import opened Bits
  import opened AddressSpace
  import opened WriteRoute
  import opened Maps
  import opened CodegenConfig
  import opened CodegenProgram
  import opened CodegenRuns

  datatype ExceptionCode = NoException | IllegalAddress | IllegalValue | ServerDeviceFailure

  /** `hook_to_exception`. */
  function HookToException(status: HookStatus): (code: ExceptionCode)
    ensures code.NoException? <==> status.HookOk?
    ensures code.IllegalAddress? <==> status.IllegalDataAddress?
    ensures code.IllegalValue? <==> status.IllegalDataValue?
  {
    match status
    case HookOk => NoException
    case IllegalDataAddress => IllegalAddress
    case IllegalDataValue => IllegalValue
    case DeviceFailure => ServerDeviceFailure
  }

  /** The map that is derived from the entries of a section. */
  ghost predicate Derived<V>(m: AddressMap<V>, s: Section)
    reads m
  {
    m.Valid() && m.cells.Keys == Keys(s) && Spans(m.range, s)
  }

  /** The bit of a payload as the hook of a coil sees it, zero behind the payload's end. */
  function RawBit(values: seq<bv8>, i: nat): bv16
  {
    if i < 8 * |values| && BitAt(values, i) then 1 else 0
  }

  function RawBits(values: seq<bv8>, n: nat): (r: seq<bv16>)
    ensures |r| == n
  {
    seq(n, i requires 0 <= i < n => RawBit(values, i))
  }

  /** Every hook of FC0F sees the bit that is to be stored in its coil, and 0 behind the payload's end. */
  lemma HookSeesPayload(values: seq<bv8>, start: u16, n: u16, i: nat)
    requires i < n
    ensures var w := BitWindow(values, start, n);
            RawBits(values, n)[i] == if i < |w.values| && w.values[i] then 1 else 0
  {
  }

  /**
    How a single write ends, in terms of the config: an address that no entry declares writable is
    an address error; otherwise the entry's own hook decides, else the section's, else nobody, and
    the cell is stored exactly if the write is accepted and the model is initialised.
   */
  ghost predicate SingleOutcome<V>(s: Section, i: nat, hook: CHook, was: Run, tid: nat, raw: bv16, value: V,
                                   ready: bool,
                                   status: HookStatus, before: map<int, V>, after: map<int, V>)
    requires i < |s.entries|
  {
    var e := s.entries[i];
    && (e.access == Ro ==> status == IllegalDataAddress && after == before)
    && (e.access != Ro && e.onWrite.Some? ==>
          && status == hook(was, tid, Invoke(e.onWrite.value, e.address, raw))
          && after == if ready && status == HookOk then before[e.address := value] else before)
    && (e.access != Ro && e.onWrite.None? && s.onWrite.Some? ==>
          && status == hook(was, tid, Invoke(s.onWrite.value, e.address, raw))
          && after == if ready && status == HookOk then before[e.address := value] else before)
    && (e.access != Ro && e.onWrite.None? && s.onWrite.None? ==>
          status == HookOk && after == if ready then before[e.address := value] else before)
  }

  /**
    A single write to any address of a config without duplicates ends that way; without an entry it
    is an address error.
   */
  ghost predicate EndsAs<V>(s: Section, address: u16, hook: CHook, was: Run, tid: nat, raw: bv16, value: V, ready: bool,
                            status: HookStatus, before: map<int, V>, after: map<int, V>)
  {
    && (address !in Keys(s) ==> status == IllegalDataAddress && after == before)
    && (Distinct(s.entries) ==>
          forall i :: 0 <= i < |s.entries| && s.entries[i].address == address ==>
                        SingleOutcome(s, i, hook, was, tid, raw, value, ready, status, before, after))
  }

  lemma EntryEnds<V>(s: Section, range: Range, i: nat, request: Request<V>, hook: CHook, was: Run, tid: nat,
                     ready: bool,
                     before: map<int, V>, after: map<int, V>, status: HookStatus)
    requires Distinct(s.entries) && i < |s.entries| && before.Keys == Keys(s)
    requires (request.WriteOne? || request.SetAt?) && request.address == s.entries[i].address
    requires status == Answer(hook, was, tid, Dispatch(s, request.address, request.raw))
    requires var ops := OpsFor(s, range, request);
             after == if ready && status == HookOk then RunOps(ops, |ops|, before) else before
    ensures SingleOutcome(s, i, hook, was, tid, request.raw, request.value, ready, status, before, after)
  {
    var e := s.entries[i];
    if e.access == Ro {
      ReadOnlyIsNotWritable(s, e.address);
    } else {
      DispatchCalls(s, i, request.raw, if e.onWrite.Some? then e.onWrite else s.onWrite);
      SingleStored(s, range, request, before);
    }
  }

  /** The programs of single writes end as the config says. */
  lemma SingleEnds<V>(s: Section, range: Range, request: Request<V>, hook: CHook, was: Run, tid: nat, ready: bool,
                      before: map<int, V>, after: map<int, V>, status: HookStatus)
    requires before.Keys == Keys(s) && (request.WriteOne? || request.SetAt?)
    requires status == Answer(hook, was, tid, Dispatch(s, request.address, request.raw))
    requires var ops := OpsFor(s, range, request);
             after == if ready && status == HookOk then RunOps(ops, |ops|, before) else before
    ensures EndsAs(s, request.address, hook, was, tid, request.raw, request.value, ready, status, before, after)
  {
    if MayWrite(s, request.address) { MayWriteIsKey(s, request.address); }
    if Distinct(s.entries) {
      forall i | 0 <= i < |s.entries| && s.entries[i].address == request.address
        ensures SingleOutcome(s, i, hook, was, tid, request.raw, request.value, ready, status, before, after)
      {
        EntryEnds(s, range, i, request, hook, was, tid, ready, before, after, status);
      }
    }
  }

  lemma GateOne(hook: CHook, run: Run, tid: nat, call: Call)
    ensures Gate(hook, run, tid, [call], 0).1 == Answer(hook, run, tid, call)
  {
    var told := Step(run, tid, Action.Asked(call, Answer(hook, run, tid, call)));
    assert Gate(hook, told, tid, [call], 1) == (told, HookOk);
  }

  /** The bit that FC0F hands to the hook of coil `i`. */
  method PayloadBit(values: seq<bv8>, i: nat) returns (raw: bv16)
    ensures raw == RawBit(values, i)
  {
    var bit: bv8 := if i / 8 < |values| then (values[i / 8] >> (i % 8)) & 1 else 0;
    if i / 8 < |values| { ShiftedBit(values[i / 8], i % 8); }
    raw := bit as bv16;
  }

  lemma {:induction false} HeldThroughWork(run: Run, tid: nat, n: nat)
    ensures Holder(Work(run, tid, n)) == Holder(run)
  {
    if n > 0 { HeldThroughWork(run, tid, n - 1); }
  }

  /** `ready` says that `mbus_server_model_init` was called; `log` records what this and other threads did. */
  class App {
    const config: Config
    const coils: AddressMap<bool>
    const holding: AddressMap<bv16>
    const hook: CHook
    var ready: bool
    var log: Run

    constructor (config: Config, coils: AddressMap<bool>, holding: AddressMap<bv16>, hook: CHook)
      requires Derived(coils, config.coils) && Derived(holding, config.holding) && (coils as object) != holding
      ensures Valid() && !ready && log == Idle
      ensures this.config == config && this.coils == coils && this.holding == holding && this.hook == hook
    {
      this.config, this.coils, this.holding, this.hook := config, coils, holding, hook;
      this.ready, this.log := false, Idle;
    }

    /** Both maps are derived from the config. */
    ghost predicate Intact()
      reads coils, holding
    {
      Derived(coils, config.coils) && Derived(holding, config.holding) && (coils as object) != holding
    }

    /** Between entry points nobody holds the lock. */
    ghost predicate Valid()
      reads this, coils, holding
    {
      Intact() && Holder(log).None?
    }

    /** `mbus_server_model_init`: every cell gets its default. */
    method ModelInit()
      requires Valid()
      modifies this`ready, coils, holding
      ensures Valid() && ready
      ensures coils.cells == map a | a in Keys(config.coils) :: false
      ensures holding.cells == map a | a in Keys(config.holding) :: 0
    {
      coils.cells := map a | a in coils.cells :: false;
      holding.cells := map a | a in holding.cells :: 0;
      ready := true;
    }

    /** `mbus_app_lock`: a mutex that is not reentrant, so the lock has to be free. */
    method Lock(tid: nat)
      requires Holder(log).None?
      modifies this`log
      ensures log == Step(old(log), tid, Acquired)
    {
      log := Step(log, tid, Acquired);
    }

    /** `mbus_app_unlock`: only the holder gives the lock back. */
    method Unlock(tid: nat)
      requires Holder(log) == Some(tid)
      modifies this`log
      ensures log == Step(old(log), tid, Released)
    {
      log := Step(log, tid, Released);
    }

    /** Records accesses to `n` cells of the model; they need the lock. */
    method Touch(tid: nat, n: nat)
      requires Holder(log) == Some(tid)
      modifies this`log
      ensures log == Work(old(log), tid, n) && Holder(log) == Some(tid)
    {
      HeldThroughWork(log, tid, n);
      log := Work(log, tid, n);
    }

    /** One call through the dispatcher. */
    method Ask(tid: nat, call: Call) returns (status: HookStatus)
      modifies this`log
      ensures status == Answer(hook, old(log), tid, call) && log == Step(old(log), tid, Action.Asked(call, status))
      ensures Holder(log) == Holder(old(log))
    {
      status := Answer(hook, log, tid, call);
      log := Step(log, tid, Action.Asked(call, status));
    }

    /** The single hook of FC05, FC06 and the address-based setters. */
    method AskOne(tid: nat, call: Call) returns (status: HookStatus)
      modifies this`log
      ensures (log, status) == Gate(hook, old(log), tid, [call], 0) && Holder(log) == Holder(old(log))
    {
      status := Ask(tid, call);
      assert status == HookOk ==> Gate(hook, log, tid, [call], 1) == (log, status);
    }

    /** The hook loop of FC10: one call per register, in order, given up at the first refusal. */
    method AskList(tid: nat, start: u16, values: seq<bv16>) returns (status: HookStatus)
      modifies this`log
      ensures (log, status) == Gate(hook, old(log), tid, CallsFor(config.holding, start, values), 0)
      ensures Holder(log) == Holder(old(log))
    {
      ghost var calls := CallsFor(config.holding, start, values);
      for i := 0 to |values|
        invariant Holder(log) == Holder(old(log))
        invariant Gate(hook, log, tid, calls, i) == Gate(hook, old(log), tid, calls, 0)
      {
        var address := (start + i) % 0x1_0000;
        status := Ask(tid, Dispatch(config.holding, address, values[i]));
        if status != HookOk { return; }
      }
      return HookOk;
    }

    /** The hook loop of FC0F: one call per coil; a bit behind the payload's end counts as 0. */
    method AskPacked(tid: nat, start: u16, quantity: u16, values: seq<bv8>) returns (status: HookStatus)
      modifies this`log
      ensures (log, status) == Gate(hook, old(log), tid, CallsFor(config.coils, start, RawBits(values, quantity)), 0)
      ensures Holder(log) == Holder(old(log))
    {
      ghost var calls := CallsFor(config.coils, start, RawBits(values, quantity));
      for i := 0 to quantity
        invariant Holder(log) == Holder(old(log))
        invariant Gate(hook, log, tid, calls, i) == Gate(hook, old(log), tid, calls, 0)
      {
        var bit := PayloadBit(values, i);
        assert RawBits(values, quantity)[i] == bit;
        var address := (start + i) % 0x1_0000;
        status := Ask(tid, Dispatch(config.coils, address, bit));
        if status != HookOk { return; }
      }
      return HookOk;
    }

    /** A store into one coil that exists, under the lock. */
    method PutCoil(tid: nat, address: u16, value: bool)
      requires Intact() && Holder(log) == Some(tid) && address in coils.cells
      modifies this`log, coils
      ensures Intact() && log == Work(old(log), tid, 1) && Holder(log) == Some(tid)
      ensures coils.cells == old(coils.cells)[address := value]
    {
      coils.cells := coils.cells[address := value];
      Touch(tid, 1);
    }

    /** A store into one register that exists, under the lock. */
    method PutRegister(tid: nat, address: u16, value: bv16)
      requires Intact() && Holder(log) == Some(tid) && address in holding.cells
      modifies this`log, holding
      ensures Intact() && log == Work(old(log), tid, 1) && Holder(log) == Some(tid)
      ensures holding.cells == old(holding.cells)[address := value]
    {
      holding.cells := holding.cells[address := value];
      Touch(tid, 1);
    }

    /** `write_many` on the holding registers, under the lock. */
    method PutList(tid: nat, start: u16, values: seq<bv16>)
      requires Intact() && Holder(log) == Some(tid) && |values| <= 0x1_0000
      modifies this`log, holding
      ensures Intact() && Holder(log) == Some(tid)
      ensures var ops := OpsFor(config.holding, holding.range, WriteList(WordWindow(start, values), values));
              log == Work(old(log), tid, |ops|) && holding.cells == RunOps(ops, |ops|, old(holding.cells))
    {
      ghost var w, before := WordWindow(start, values), holding.cells;
      var end := start + |values|;
      assert end == w.end;
      var reached := Reach(holding.cells.Keys, start, end);
      var ignored, next := WriteWords(holding, start, values, w, w.end);
      StoresPut(w, start, next, next - start, next, before);
      Touch(tid, reached - start);
    }

    /** `write_many_from_packed` on the coils, as the operations it performs. */
    method StorePacked(start: u16, quantity: u16, values: seq<bv8>, ghost w: Window<bool>) returns (work: nat)
      requires Intact() && w == BitWindow(values, start, quantity)
      modifies coils
      ensures Intact()
      ensures var ops := OpsFor(config.coils, coils.range, WritePacked(w, RawBits(values, quantity)));
              work == |ops| && coils.cells == RunOps(ops, work, old(coils.cells))
    {
      ghost var before := coils.cells;
      var limit := start + Min(quantity, 8 * |values|);
      assert limit == w.limit;
      var reached := if PackedInRange(coils.range, start, start + quantity) then Reach(coils.cells.Keys, start, limit) else start;
      var ignored, next := Maps.WritePacked(coils, start, quantity, values, 0, w, w.end);
      assert next == reached;
      StoresPut(w, start, next, next - start, next, before);
      return reached - start;
    }

    /** The same under the lock. */
    method PutPacked(tid: nat, start: u16, quantity: u16, values: seq<bv8>)
      requires Intact() && Holder(log) == Some(tid)
      modifies this`log, coils
      ensures Intact() && Holder(log) == Some(tid)
      ensures var ops := OpsFor(config.coils, coils.range,
                                WritePacked(BitWindow(values, start, quantity), RawBits(values, quantity)));
              log == Work(old(log), tid, |ops|) && coils.cells == RunOps(ops, |ops|, old(coils.cells))
    {
      var work := StorePacked(start, quantity, values, BitWindow(values, start, quantity));
      Touch(tid, work);
    }

    /** The critical section of FC10. */
    method CommitList(tid: nat, start: u16, values: seq<bv16>)
      requires Valid() && |values| <= 0x1_0000
      modifies this`log, holding
      ensures Valid()
      ensures var ops := OpsFor(config.holding, holding.range, WriteList(WordWindow(start, values), values));
              && log == Critical(old(log), tid, if ready then |ops| else 0)
              && holding.cells == if ready then RunOps(ops, |ops|, old(holding.cells)) else old(holding.cells)
    {
      Lock(tid);
      if ready { PutList(tid, start, values); }
      Unlock(tid);
    }

    /** The critical section of FC0F. */
    method CommitPacked(tid: nat, start: u16, quantity: u16, values: seq<bv8>)
      requires Valid()
      modifies this`log, coils
      ensures Valid()
      ensures var ops := OpsFor(config.coils, coils.range,
                                WritePacked(BitWindow(values, start, quantity), RawBits(values, quantity)));
              && log == Critical(old(log), tid, if ready then |ops| else 0)
              && coils.cells == if ready then RunOps(ops, |ops|, old(coils.cells)) else old(coils.cells)
    {
      Lock(tid);
      if ready { PutPacked(tid, start, quantity, values); }
      Unlock(tid);
    }

    /** FC05: `mbus_gen_on_write_single_coil`. */
    method WriteSingleCoil(tid: nat, address: u16, value: bool) returns (code: ExceptionCode)
      requires Valid()
      modifies this`log, coils
      ensures Valid()
      ensures code == HookToException(Status(tid, old(log), config.coils, WriteOne(address, if value then 1 else 0, value)))
      ensures Executed(tid, old(log), log, coils.range, config.coils, WriteOne(address, if value then 1 else 0, value),
                       old(coils.cells), coils.cells)
      ensures EndsAs(config.coils, address, hook, old(log), tid, if value then 1 else 0, value, ready,
                     Status(tid, old(log), config.coils, WriteOne(address, if value then 1 else 0, value)),
                     old(coils.cells), coils.cells)
    {
      ghost var was, before := log, coils.cells;
      ghost var request: Request<bool> := WriteOne(address, if value then 1 else 0, value);
      GateOne(hook, log, tid, Dispatch(config.coils, address, request.raw));
      var status := AskOne(tid, Dispatch(config.coils, address, if value then 1 else 0));
      if status != HookOk {
        SingleEnds(config.coils, coils.range, request, hook, was, tid, ready, before, coils.cells, status);
        return HookToException(status);
      }
      Lock(tid);
      if ready && address in coils.cells {
        OneStore(coils.cells, address, value);
        PutCoil(tid, address, value);
      }
      Unlock(tid);
      SingleEnds(config.coils, coils.range, request, hook, was, tid, ready, before, coils.cells, status);
      return NoException;
    }

    /** FC06: `mbus_gen_on_write_single_register`. */
    method WriteSingleRegister(tid: nat, address: u16, value: bv16) returns (code: ExceptionCode)
      requires Valid()
      modifies this`log, holding
      ensures Valid()
      ensures code == HookToException(Status(tid, old(log), config.holding, WriteOne(address, value, value)))
      ensures Executed(tid, old(log), log, holding.range, config.holding, WriteOne(address, value, value),
                       old(holding.cells), holding.cells)
      ensures EndsAs(config.holding, address, hook, old(log), tid, value, value, ready,
                     Status(tid, old(log), config.holding, WriteOne(address, value, value)), old(holding.cells), holding.cells)
    {
      ghost var was, before := log, holding.cells;
      ghost var request: Request<bv16> := WriteOne(address, value, value);
      GateOne(hook, log, tid, Dispatch(config.holding, address, request.raw));
      var status := AskOne(tid, Dispatch(config.holding, address, value));
      if status != HookOk {
        SingleEnds(config.holding, holding.range, request, hook, was, tid, ready, before, holding.cells, status);
        return HookToException(status);
      }
      Lock(tid);
      if ready && address in holding.cells {
        OneStore(holding.cells, address, value);
        PutRegister(tid, address, value);
      }
      Unlock(tid);
      SingleEnds(config.holding, holding.range, request, hook, was, tid, ready, before, holding.cells, status);
      return NoException;
    }

    /** FC10: `mbus_gen_on_write_multiple_registers`. All hooks first, one store at the end, whose result is ignored. */
    method WriteMultipleRegisters(tid: nat, start: u16, values: seq<bv16>) returns (code: ExceptionCode)
      requires Valid() && |values| <= 0x1_0000
      modifies this`log, holding
      ensures Valid()
      ensures code == HookToException(Status(tid, old(log), config.holding, WriteList(WordWindow(start, values), values)))
      ensures Executed(tid, old(log), log, holding.range, config.holding, WriteList(WordWindow(start, values), values),
                       old(holding.cells), holding.cells)
    {
      var status := AskList(tid, start, values);
      if status != HookOk { return HookToException(status); }
      CommitList(tid, start, values);
      return NoException;
    }

    /** FC0F: `mbus_gen_on_write_multiple_coils`. */
    method WriteMultipleCoils(tid: nat, start: u16, quantity: u16, values: seq<bv8>) returns (code: ExceptionCode)
      requires Valid()
      modifies this`log, coils
      ensures Valid()
      ensures code == HookToException(Status(tid, old(log), config.coils,
                                             WritePacked(BitWindow(values, start, quantity), RawBits(values, quantity))))
      ensures Executed(tid, old(log), log, coils.range, config.coils,
                       WritePacked(BitWindow(values, start, quantity), RawBits(values, quantity)), old(coils.cells), coils.cells)
    {
      var status := AskPacked(tid, start, quantity, values);
      if status != HookOk { return HookToException(status); }
      CommitPacked(tid, start, quantity, values);
      return NoException;
    }

    /** `mbus_server_set_coil`: any value but zero sets the coil. */
    method SetCoil(tid: nat, address: u16, raw: bv8) returns (status: HookStatus)
      requires Valid()
      modifies this`log, coils
      ensures Valid()
      ensures status == Status(tid, old(log), config.coils, SetAt(address, raw as bv16, raw != 0))
      ensures Executed(tid, old(log), log, coils.range, config.coils, SetAt(address, raw as bv16, raw != 0),
                       old(coils.cells), coils.cells)
      ensures EndsAs(config.coils, address, hook, old(log), tid, raw as bv16, raw != 0, ready,
                     Status(tid, old(log), config.coils, SetAt(address, raw as bv16, raw != 0)), old(coils.cells), coils.cells)
    {
      ghost var was, before := log, coils.cells;
      ghost var request: Request<bool> := SetAt(address, raw as bv16, raw != 0);
      GateOne(hook, log, tid, Dispatch(config.coils, address, request.raw));
      status := AskOne(tid, Dispatch(config.coils, address, raw as bv16));
      if status != HookOk {
        SingleEnds(config.coils, coils.range, request, hook, was, tid, ready, before, coils.cells, status);
        return;
      }
      assert MayWrite(config.coils, address);
      MayWriteIsKey(config.coils, address);
      OneStore(coils.cells, address, raw != 0);
      Lock(tid);
      if ready { PutCoil(tid, address, raw != 0); }
      Unlock(tid);
      SingleEnds(config.coils, coils.range, request, hook, was, tid, ready, before, coils.cells, status);
    }

    /** `mbus_server_set_holding_register`. */
    method SetHoldingRegister(tid: nat, address: u16, value: bv16) returns (status: HookStatus)
      requires Valid()
      modifies this`log, holding
      ensures Valid()
      ensures status == Status(tid, old(log), config.holding, SetAt(address, value, value))
      ensures Executed(tid, old(log), log, holding.range, config.holding, SetAt(address, value, value),
                       old(holding.cells), holding.cells)
      ensures EndsAs(config.holding, address, hook, old(log), tid, value, value, ready,
                     Status(tid, old(log), config.holding, SetAt(address, value, value)), old(holding.cells), holding.cells)
    {
      ghost var was, before := log, holding.cells;
      ghost var request: Request<bv16> := SetAt(address, value, value);
      GateOne(hook, log, tid, Dispatch(config.holding, address, request.raw));
      status := AskOne(tid, Dispatch(config.holding, address, value));
      if status != HookOk {
        SingleEnds(config.holding, holding.range, request, hook, was, tid, ready, before, holding.cells, status);
        return;
      }
      assert MayWrite(config.holding, address);
      MayWriteIsKey(config.holding, address);
      OneStore(holding.cells, address, value);
      Lock(tid);
      if ready { PutRegister(tid, address, value); }
      Unlock(tid);
      SingleEnds(config.holding, holding.range, request, hook, was, tid, ready, before, holding.cells, status);
    }

    /** `mbus_server_set_<name>` of a holding register: the application's own write, which asks no hook. */
    method SetNamedRegister(tid: nat, index: nat, value: bv16)
      requires Valid() && index < |config.holding.entries|
      modifies this`log, holding
      ensures Valid()
      ensures Executed(tid, old(log), log, holding.range, config.holding, SetNamed(index, value), old(holding.cells), holding.cells)
    {
      assert config.holding.entries[index] in config.holding.entries;
      OneStore(holding.cells, config.holding.entries[index].address, value);
      Lock(tid);
      if ready { PutRegister(tid, config.holding.entries[index].address, value); }
      Unlock(tid);
    }

    /** `encode` of the holding registers, under the lock. */
    method EncodeHolding(tid: nat, address: u16, quantity: u16, out: array<bv8>) returns (r: Result<nat>)
      requires Intact() && Holder(log) == Some(tid)
      modifies this`log, out
      ensures Intact() && Holder(log) == Some(tid)
      ensures var end := address + quantity;
              && r == EncodeVerdict(holding.range, Keys(config.holding), address, end, 2 * quantity, out.Length, InvalidAddress)
              && log == Work(old(log), tid, |OpsFor<bv16>(config.holding, holding.range,
                               ReadMany(address, end, 2 * quantity, out.Length, InvalidAddress))|)
              && (r.Ok? ==> && AllMapped(holding.cells, address, end) && 2 * quantity <= out.Length
                            && out[..2 * quantity] == BigEndian(Read(holding.cells, address, end)))
    {
      var end := address + quantity;
      r := EncodeWords(holding, address, quantity, out, 0, out.Length, end);
      var work := 0;
      if PackedInRange(holding.range, address, end) && 2 * quantity <= out.Length {
        work := Reach(holding.cells.Keys, address, end) - address;
      }
      Touch(tid, work);
    }

    /** FC03: `mbus_gen_on_read_holding_registers`. Every failure of `encode` becomes an address exception. */
    method ReadHoldingRegisters(tid: nat, address: u16, quantity: u16, out: array<bv8>)
      returns (code: ExceptionCode, count: nat)
      requires Valid()
      modifies this`log, out
      ensures Valid()
      ensures var end := address + quantity;
              var request := ReadMany(address, end, 2 * quantity, out.Length, InvalidAddress);
              var verdict := EncodeVerdict(holding.range, Keys(config.holding), address, end, 2 * quantity, out.Length,
                                           InvalidAddress);
              && Executed(tid, old(log), log, holding.range, config.holding, request, holding.cells, holding.cells)
              && code == (if ready && verdict.Ok? then NoException else IllegalAddress)
              && (code == NoException ==>
                  && count == verdict.value && AllMapped(holding.cells, address, end) && 2 * quantity <= out.Length
                  && out[..2 * quantity] == BigEndian(Read(holding.cells, address, end)))
    {
      ghost var end := address + quantity;
      ReadSees(config.holding, holding.range, ReadMany(address, end, 2 * quantity, out.Length, InvalidAddress), holding.cells);
      code, count := IllegalAddress, 0;
      Lock(tid);
      if ready {
        var r := EncodeHolding(tid, address, quantity, out);
        if r.Ok? { code, count := NoException, r.value; }
      }
      Unlock(tid);
    }

    /** `encode` of the coils, under the lock. */
    method EncodeCoils(tid: nat, address: u16, quantity: u16, out: array<bv8>) returns (r: Result<nat>)
      requires Intact() && Holder(log) == Some(tid)
      modifies this`log, out
      ensures Intact() && Holder(log) == Some(tid)
      ensures var end := address + quantity;
              && r == EncodeVerdict(coils.range, Keys(config.coils), address, end, ByteCount(quantity), out.Length, InvalidQuantity)
              && log == Work(old(log), tid, |OpsFor<bool>(config.coils, coils.range,
                               ReadMany(address, end, ByteCount(quantity), out.Length, InvalidQuantity))|)
              && (r.Ok? ==> && AllMapped(coils.cells, address, end) && ByteCount(quantity) <= out.Length
                            && out[..ByteCount(quantity)] == Pack(Read(coils.cells, address, end)))
    {
      var end := address + quantity;
      r := EncodeBits(coils, address, quantity, out, 0, out.Length, end);
      var work := 0;
      if PackedInRange(coils.range, address, end) && ByteCount(quantity) <= out.Length {
        work := Reach(coils.cells.Keys, address, end) - address;
      }
      Touch(tid, work);
    }

    /** FC01: `mbus_gen_on_read_coils`. */
    method ReadCoils(tid: nat, address: u16, quantity: u16, out: array<bv8>) returns (code: ExceptionCode, count: nat)
      requires Valid()
      modifies this`log, out
      ensures Valid()
      ensures var end := address + quantity;
              var request := ReadMany(address, end, ByteCount(quantity), out.Length, InvalidQuantity);
              var verdict := EncodeVerdict(coils.range, Keys(config.coils), address, end, ByteCount(quantity), out.Length,
                                           InvalidQuantity);
              && Executed(tid, old(log), log, coils.range, config.coils, request, coils.cells, coils.cells)
              && code == (if ready && verdict.Ok? then NoException else IllegalAddress)
              && (code == NoException ==>
                  && count == verdict.value && AllMapped(coils.cells, address, end) && ByteCount(quantity) <= out.Length
                  && out[..ByteCount(quantity)] == Pack(Read(coils.cells, address, end)))
    {
      ghost var end := address + quantity;
      ReadSees(config.coils, coils.range, ReadMany(address, end, ByteCount(quantity), out.Length, InvalidQuantity), coils.cells);
      code, count := IllegalAddress, 0;
      Lock(tid);
      if ready {
        var r := EncodeCoils(tid, address, quantity, out);
        if r.Ok? { code, count := NoException, r.value; }
      }
      Unlock(tid);
    }

    /** What the hooks of a request say, asked one after the other from `was` on. */
    ghost function Status<V>(tid: nat, was: Run, s: Section, request: Request<V>): HookStatus
      reads this
    {
      Gate(hook, was, tid, CallsOf(s, request), 0).1
    }

    /** How the single-threaded execution of a request relates to its program. */
    ghost predicate Executed<V>(tid: nat, was: Run, now: Run, range: Range, s: Section, request: Request<V>,
                                before: map<int, V>, after: map<int, V>)
      requires request.Fits(s)
      reads this
    {
      var p := ProgramOf(s, range, request);
      var (told, status) := Alone(hook, was, tid, Shape(p.calls, if ready then |p.ops| else 0));
      && now == told
      && after == if ready && status == HookOk then RunOps(p.ops, |p.ops|, before) else before
    }
  }
}
