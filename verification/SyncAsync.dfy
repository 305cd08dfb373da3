/**
  The sync handlers and the async arms agree: same cells, same hook calls, corresponding answers.
  An empty request is the exception: the sync handlers refuse it, the async arms answer it.
 */
module SyncAsync {
  import opened Bits
  import opened AddressSpace
  import opened WriteRoute
  import opened Maps
  import opened Domain
  import opened CoilRouter
  import opened RegisterRouter
  import opened ReadRouter
  import opened SingleWrite
  import opened AsyncRouter

  /** Two apps with separate maps but the same layout and hooks. */
  ghost predicate Paired<V>(left: Bank<V>, right: Bank<V>)
  {
    && left != right
    && (forall i, j :: 0 <= i < |left.maps| && 0 <= j < |right.maps| ==> left.maps[i] != right.maps[j])
    && left.layout == right.layout && left.batch == right.batch && left.single == right.single
    && (forall i :: 0 <= i < |left.maps| && i < |right.maps| ==> left.maps[i].notified == right.maps[i].notified)
  }

  /** Both are in the same state: same contents, same history. */
  ghost predicate Alike<V>(left: Bank<V>, right: Bank<V>)
    reads left, right, left.maps, right.maps
  {
    left.Valid() && right.Valid() && left.log == right.log && left.Cells() == right.Cells()
  }

  /** The bank shows the outcome of a write that started from `cells`. */
  ghost predicate Reached<V>(bank: Bank<V>, w: Window<V>, cells: map<int, V>, o: Outcome<V>)
    reads bank, bank.maps
  {
    w.Valid() && w.start <= o.reached <= w.limit && bank.log == o.log && bank.Cells() == Put(cells, w, w.start, o.reached)
  }

  /** FC10 on the first bank; the second is not touched. */
  method SyncRegisters(left: RegisterBank, right: RegisterBank, start: u16, values: seq<bv16>,
                       ghost cells: map<int, bv16>,
                       ghost w: Window<bv16>, ghost o: Outcome<bv16>) returns (r: Result<()>)
    requires Paired(left, right) && Alike(left, right) && |values| <= 125 && cells == left.Cells()
    requires w == WordWindow(start, values)
    requires o == Serve(left.layout, cells.Keys, left.batch, w, left.log, start)
    modifies left`log, left.maps
    ensures left.Valid() && Reached(left, w, cells, o)
    ensures r == if values == [] then Err(InvalidQuantity) else o.verdict
    ensures right.Valid() && right.Cells() == cells && right.log == old(left.log)
  {
    PutNothing(cells, w, start);
    r := WriteMultipleRegisters(left, start, values);
  }

  /** FC10: the sync handler against the async arm. */
  method RegistersAgree(left: RegisterBank, right: RegisterBank, start: u16, values: seq<bv16>)
    returns (r: Result<()>, response: Response)
    requires Paired(left, right) && Alike(left, right) && |values| <= 125
    modifies left`log, left.maps, right`log, right.maps
    ensures Alike(left, right)
    ensures response == Respond(FcWriteMultipleRegisters, r, EchoMultiWrite(FcWriteMultipleRegisters, start, |values|)) <==>
            values != []
  {
    ghost var cells, w := left.Cells(), WordWindow(start, values);
    ghost var o := Serve(left.layout, cells.Keys, left.batch, w, left.log, start);
    r := SyncRegisters(left, right, start, values, cells, w, o);
    DecodedWhole(values, |values|, 125);
    response := WriteMultipleRegistersArm(right, start, |values|, BigEndian(values));
    assert left.Valid() && Reached(left, w, cells, o);
  }

  /** FC0F on the first bank; the second is not touched. */
  method SyncCoils(left: CoilBank, right: CoilBank, start: u16, quantity: u16, values: seq<bv8>,
                   ghost cells: map<int, bool>,
                   ghost w: Window<bool>, ghost o: Outcome<bool>) returns (r: Result<()>)
    requires Paired(left, right) && Alike(left, right) && Sound(left, start, start + quantity, values)
    requires cells == left.Cells()
    requires w == BitWindow(values, start, quantity)
    requires o == Serve(left.layout, cells.Keys, left.batch, w, left.log, start)
    modifies left`log, left.maps
    ensures left.Valid() && Reached(left, w, cells, o)
    ensures r == if quantity == 0 then Err(InvalidQuantity) else o.verdict
    ensures right.Valid() && right.Cells() == cells && right.log == old(left.log)
  {
    PutNothing(cells, w, start);
    r := WriteMultipleCoils(left, start, quantity, values);
  }

  /** FC0F on the second bank, which has yet to see the request; the first is not touched. */
  method AsyncCoils(left: CoilBank, right: CoilBank, start: u16, quantity: u16, values: seq<bv8>,
                    ghost cells: map<int, bool>,
                    ghost w: Window<bool>, ghost o: Outcome<bool>) returns (response: Response)
    requires Paired(left, right) && left.Valid() && right.Valid() && Sound(right, start, start + quantity, values)
    requires w == BitWindow(values, start, quantity) && cells == right.Cells() && Reached(left, w, cells, o)
    requires o == Serve(right.layout, cells.Keys, right.batch, w, right.log, start)
    modifies right`log, right.maps
    ensures Alike(left, right)
    ensures response == Respond(FcWriteMultipleCoils, o.verdict, EchoMultiWrite(FcWriteMultipleCoils, start, quantity))
  {
    response := WriteMultipleCoilsArm(right, start, quantity, values);
    assert left.Valid() && Reached(left, w, cells, o);
  }

  /** FC0F: the sync handler against the async arm. */
  method CoilsAgree(left: CoilBank, right: CoilBank, start: u16, quantity: u16, values: seq<bv8>)
    returns (r: Result<()>, response: Response)
    requires Paired(left, right) && Alike(left, right) && Sound(left, start, start + quantity, values)
    modifies left`log, left.maps, right`log, right.maps
    ensures Alike(left, right)
    ensures response == Respond(FcWriteMultipleCoils, r, EchoMultiWrite(FcWriteMultipleCoils, start, quantity)) <==>
            quantity != 0
  {
    ghost var cells, w := left.Cells(), BitWindow(values, start, quantity);
    ghost var o := Serve(left.layout, cells.Keys, left.batch, w, left.log, start);
    r := SyncCoils(left, right, start, quantity, values, cells, w, o);
    response := AsyncCoils(left, right, start, quantity, values, cells, w, o);
  }

  /** FC06. */
  method SingleRegisterAgrees(left: RegisterBank, right: RegisterBank, address: u16, value: bv16)
    returns (r: Result<()>, response: Response)
    requires Paired(left, right) && Alike(left, right)
    modifies left`log, left.maps, right`log, right.maps
    ensures Alike(left, right)
    ensures response == Respond(FcWriteSingleRegister, r, EchoRegister(address, value))
  {
    r := WriteSingleRegister(left, address, value);
    response := WriteSingleRegisterArm(right, address, value);
  }

  /** FC05. */
  method SingleCoilAgrees(left: CoilBank, right: CoilBank, address: u16, value: bool)
    returns (r: Result<()>, response: Response)
    requires Paired(left, right) && Alike(left, right)
    modifies left`log, left.maps, right`log, right.maps
    ensures Alike(left, right)
    ensures response == Respond(FcWriteSingleCoil, r, EchoCoil(address, value))
  {
    r := WriteSingleCoil(left, address, value);
    response := WriteSingleCoilArm(right, address, value);
  }

  /** The response that corresponds to the result of a sync read whose bytes are in `out`. */
  function ReadAnswer(fc: FunctionCode, r: Result<nat>, bytes: seq<bv8>): Response
  {
    if r.Ok? then PackedBits(fc, bytes) else Exception(fc, ErrToException(r.error))
  }

  /** FC03 and FC04: each arm answers with its own function code, unless it leaves its response buffer. */
  method WordReadsAgree(left: RegisterBank, right: RegisterBank, address: u16, count: u16, out: array<bv8>)
    returns (r: Result<nat>, holding: Option<Response>, input: Option<Response>)
    requires Paired(left, right) && Alike(left, right) && 2 * count <= out.Length
    modifies out
    ensures var agree := count != 0 && !Overruns(left.layout, left.Cells(), address, address + count, WordEdge(address));
            && (holding == Some(ReadAnswer(FcReadHoldingRegisters, r, out[..2 * count])) <==> agree)
            && (input == Some(ReadAnswer(FcReadInputRegisters, r, out[..2 * count])) <==> agree)
    ensures r.Ok? ==> r.value == 2 * count % 0x100
  {
    holding := ReadHoldingRegistersArm(right, address, count);
    input := ReadInputRegistersArm(right, address, count);
    r := ReadWords(left, address, count, out);
  }

  /** The response that corresponds to the result of a sync bit read. */
  function BitAnswer(fc: FunctionCode, r: Option<Result<nat>>, bytes: seq<bv8>): Option<Response>
  {
    if r.None? then None else Some(ReadAnswer(fc, r.value, bytes))
  }

  /**
    FC01 and FC02. Past the standard's limits the async arms leave their buffer, the sync handlers
    only on a wide map.
   */
  method BitReadsAgree(left: CoilBank, right: CoilBank, address: u16, count: u16, out: array<bv8>)
    returns (r: Option<Result<nat>>, coils: Option<Response>, inputs: Option<Response>)
    requires Paired(left, right) && Alike(left, right) && ByteCount(count) <= out.Length
    modifies out
    ensures var agree := if count > 8 * MAX_PDU_DATA_LEN then TooWide(left.layout, left.Cells(), address, address + count)
                         else count != 0;
            && (coils == BitAnswer(FcReadCoils, r, out[..ByteCount(count)]) <==> agree)
            && (inputs == BitAnswer(FcReadDiscreteInputs, r, out[..ByteCount(count)]) <==> agree)
    ensures r.Some? && r.value.Ok? ==> r.value.value == ByteCount(count) % 0x100
  {
    ghost var end := address + count;
    if count <= 8 * MAX_PDU_DATA_LEN { NarrowWindow(left.layout, left.Cells(), address, end); }
    coils := ReadCoilsArm(right, address, count);
    inputs := ReadDiscreteInputsArm(right, address, count);
    r := ReadBits(left, address, count, out);
  }
}
