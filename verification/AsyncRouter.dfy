/**
  The match arms of `#[async_modbus_app]`: the same routes without `?`, which answer with a
  response instead of a `Result`, decode register payloads themselves, and add FC16 and FC17.
 */
module AsyncRouter {
  import opened Bits
  import opened AddressSpace
  import opened WriteRoute
  import opened HookTrace
  import opened FlatLaws
  import opened Maps
  import opened Domain
  import opened CoilRouter
  import opened RegisterRouter
  import opened ReadRouter
  import opened SingleWrite

  datatype FunctionCode =
    | FcReadCoils | FcReadDiscreteInputs | FcReadHoldingRegisters | FcReadInputRegisters
    | FcWriteSingleCoil | FcWriteSingleRegister | FcWriteMultipleCoils
    | FcWriteMultipleRegisters | FcMaskWriteRegister | FcReadWriteMultipleRegisters

  datatype ExceptionCode = IllegalDataAddress | IllegalDataValue | ServerDeviceFailure

  datatype Response =
    | PackedBits(fc: FunctionCode, data: seq<bv8>)
    | EchoCoil(address: u16, value: bool)
    | EchoRegister(address: u16, word: bv16)
    | EchoMultiWrite(fc: FunctionCode, address: u16, count: u16)
    | EchoMaskWrite(address: u16, andMask: bv16, orMask: bv16)
    | Exception(fc: FunctionCode, code: ExceptionCode)

  /** What each code tells the client of the error behind it. */
  ghost predicate Tells(e: MbusError, code: ExceptionCode)
  {
    && (code.IllegalDataAddress? <==> e in {InvalidAddress, InvalidSlaveAddress})
    && (code.IllegalDataValue? <==> e in {InvalidQuantity, InvalidByteCount, InvalidValue})
  }

  /** `mbus_err_to_exception`. */
  function ErrToException(e: MbusError): (code: ExceptionCode)
    ensures Tells(e, code)
  {
    match e
    case InvalidAddress => IllegalDataAddress
    case InvalidSlaveAddress => IllegalDataAddress
    case InvalidQuantity => IllegalDataValue
    case InvalidByteCount => IllegalDataValue
    case InvalidValue => IllegalDataValue
    case _ => ServerDeviceFailure
  }

  /** The response that corresponds to a result: `answer` on success, else the mapped exception. */
  function Respond(fc: FunctionCode, r: Result<()>, answer: Response): Response
  {
    if r.Ok? then answer else Exception(fc, ErrToException(r.error))
  }

  /** The exception with which a failed result ends an arm, if it failed. */
  function Failure(fc: FunctionCode, r: Result<()>): Option<Response>
  {
    if r.Ok? then None else Some(Exception(fc, ErrToException(r.error)))
  }

  /** A turn ended with `answer`, if any: it corresponds to the course `t` of a turn of the sync loop. */
  ghost predicate Answered<V>(fc: FunctionCode, t: Turn<V>, answer: Option<Response>, log: History<V>, next: int)
  {
    match t
    case Stop(o) => answer == Failure(fc, o.verdict) && o.verdict.Err? && log == o.log && next == o.reached
    case Go(told, cursor) => answer.None? && log == told && next == cursor
  }

  /**
    The part of a register-write turn on map `i`: ask, store, advance. `fc` is the function code
    that exceptions name.
   */
  method RegisterSegment(bank: RegisterBank, fc: FunctionCode, i: nat, cursor: u16, segment: seq<bv16>,
                         ghost w: Window<bv16>, ghost keys: set<int>, ghost end: int)
    returns (answer: Option<Response>, ghost next: int)
    requires bank.Valid() && keys == bank.Cells().Keys && i < |bank.maps| && Inside(bank.maps[i].range, cursor, end)
    requires w.Valid() && w.limit == w.end && w.start <= cursor < end <= w.end && segment == Slice(w, cursor, end)
    modifies bank`log, bank.maps
    ensures bank.Valid() && cursor <= next <= w.limit
    ensures bank.Cells() == Put(old(bank.Cells()), w, cursor, next)
    ensures Answered(fc, Segment(keys, bank.batch, w, old(bank.log), cursor, end), answer, bank.log, next)
  {
    PutNothing(bank.Cells(), w, cursor);
    next := cursor;
    var asked := RegisterRouter.AskHook(bank, cursor, segment);
    if asked.Err? { return Some(Exception(fc, ErrToException(asked.error))), next; }
    var stored;
    stored, next := StoreWords(bank, i, cursor, segment, w, end);
    if stored.Err? { return Some(Exception(fc, ErrToException(stored.error))), next; }
    if cursor + |segment| > 0xFFFF { return Some(Exception(fc, IllegalDataAddress)), next; }
    return None, next;
  }

  /** One turn of the register-write route. */
  method RegisterTurn(bank: RegisterBank, fc: FunctionCode, cursor: u16, remaining: seq<bv16>, ghost w: Window<bv16>,
                      ghost keys: set<int>)
    returns (answer: Option<Response>, take: nat, ghost next: int)
    requires bank.Valid() && keys == bank.Cells().Keys
    requires w.Valid() && w.limit == w.end && w.end - w.start < 0x1_0000
    requires w.start <= cursor < w.end && remaining == Slice(w, cursor, w.end)
    modifies bank`log, bank.maps
    ensures bank.Valid() && cursor <= next <= w.limit && (answer.None? ==> next == cursor + take)
    ensures bank.Cells() == Put(old(bank.Cells()), w, cursor, next)
    ensures Answered(fc, OneTurn(bank.layout, keys, bank.batch, w, old(bank.log), cursor), answer, bank.log, next)
  {
    PutNothing(bank.Cells(), w, cursor);
    next, take := cursor, 0;
    var i := bank.Find(cursor);
    if i == |bank.maps| { return Some(Exception(fc, IllegalDataAddress)), take, next; }
    take := Take(bank.maps[i].range, cursor, |remaining|);
    ghost var end := SegmentEnd(bank.layout, cursor, w.end);
    SliceCut(w, cursor, end, w.end, take);
    answer, next := RegisterSegment(bank, fc, i, cursor, remaining[..take], w, keys, end);
  }

  lemma TurnAnswered<V>(ranges: seq<Range>, keys: set<int>, hook: Option<BatchHook<V>>, w: Window<V>, log: History<V>,
                        at: u16,
                        fc: FunctionCode, answer: Option<Response>, told: History<V>, next: int)
    requires Fits(hook, w) && w.start <= at <= w.limit && at < w.end
    requires Answered(fc, OneTurn(ranges, keys, hook, w, log, at), answer, told, next)
    ensures var o := Serve(ranges, keys, hook, w, log, at);
            answer.Some? ==> o.reached == next && answer == Failure(fc, o.verdict) && o.log == told
    ensures answer.None? ==>
              && at < next <= w.limit && next <= 0xFFFF
              && Serve(ranges, keys, hook, w, log, at) == Serve(ranges, keys, hook, w, told, next)
  {
  }

  /** The register-write loop of FC10 and FC17; an empty list is served without a turn. */
  method RegisterLoop(bank: RegisterBank, fc: FunctionCode, w: Window<bv16>) returns (answer: Option<Response>)
    requires bank.Valid() && w.Valid() && w.limit == w.end && w.end - w.start < 0x1_0000
    modifies bank`log, bank.maps
    ensures bank.Valid()
    ensures var o := Serve(bank.layout, old(bank.Cells()).Keys, bank.batch, w, old(bank.log), w.start);
            && w.start <= o.reached <= w.limit
            && answer == Failure(fc, o.verdict) && bank.log == o.log
            && bank.Cells() == Put(old(bank.Cells()), w, w.start, o.reached)
  {
    ghost var before, keys := bank.Cells(), bank.Cells().Keys;
    ghost var o := Serve(bank.layout, keys, bank.batch, w, bank.log, w.start);
    var cursor: u16 := w.start;
    var remaining := w.values;
    PutNothing(before, w, w.start);
    while remaining != []
      invariant bank.Valid() && w.start <= cursor <= w.end && remaining == Slice(w, cursor, w.end)
      invariant bank.Cells() == Put(before, w, w.start, cursor)
      invariant o == Serve(bank.layout, keys, bank.batch, w, bank.log, cursor)
      decreases |remaining|
    {
      ghost var log, cells := bank.log, bank.Cells();
      var take;
      ghost var next;
      answer, take, next := RegisterTurn(bank, fc, cursor, remaining, w, keys);
      PutJoin(before, w, w.start, cursor, next, cells, bank.Cells());
      TurnAnswered(bank.layout, keys, bank.batch, w, log, cursor, fc, answer, bank.log, next);
      if answer.Some? { return; }
      SliceCut(w, cursor, next, w.end, take);
      var advanced := cursor + take;
      assert advanced == next;
      cursor, remaining := advanced, remaining[take..];
    }
    return None;
  }

  /** The values an arm decodes: whole pairs of bytes, at most `count` and at most what the fixed vector holds. */
  function Decoded(data: seq<bv8>, count: u16, capacity: nat): (words: seq<bv16>)
    ensures |words| == Min(Min(count, |data| / 2), capacity)
  {
    var words := FromBigEndian(data[..Min(2 * count, |data|)]);
    words[..Min(|words|, capacity)]
  }

  /** The decoding loop: `chunks_exact(2)`, with a push that fails silently when the vector is full. */
  method Decode(data: seq<bv8>, count: u16, capacity: nat) returns (words: seq<bv16>)
    ensures words == Decoded(data, count, capacity)
  {
    var raw := data[..Min(2 * count, |data|)];
    words := [];
    for i := 0 to |raw| / 2
      invariant words == FromBigEndian(raw)[..Min(i, capacity)]
    {
      if |words| < capacity { words := words + [Word(raw[2 * i], raw[2 * i + 1])]; }
    }
  }

  /** Word `i` of any payload comes from the bytes `2 * i` and `2 * i + 1`. */
  lemma DecodedWord(data: seq<bv8>, count: u16, capacity: nat, i: nat)
    requires i < |Decoded(data, count, capacity)|
    ensures 2 * i + 1 < |data| && Decoded(data, count, capacity)[i] == Word(data[2 * i], data[2 * i + 1])
  {
  }

  /** A complete payload decodes to the registers it encodes. */
  lemma DecodedWhole(values: seq<bv16>, count: u16, capacity: nat)
    requires |values| == count <= capacity
    ensures Decoded(BigEndian(values), count, capacity) == values
  {
    BigEndianRoundTrip(values);
    assert BigEndian(values)[..2 * count] == BigEndian(values);
  }

  /**
    What success says about the request: the window of `count` registers was stored whole if and
    only if the payload holds them all and the fixed vector does too.
   */
  lemma SuccessMeansStored(ranges: seq<Range>, keys: set<int>, hook: Option<BatchHook<bv16>>, log: History<bv16>,
                           address: u16, count: u16, data: seq<bv8>, capacity: nat)
    requires Contains(ranges, keys)
    ensures var w := WordWindow(address, Decoded(data, count, capacity));
            var o := Serve(ranges, keys, hook, w, log, w.start);
            o.verdict.Ok? ==> (o.reached == address + count <==> 2 * count <= |data| && count <= capacity)
  {
    ServeMeaning(ranges, keys, hook, WordWindow(address, Decoded(data, count, capacity)), log, address);
  }

  lemma ShortDecodes()
    ensures Decoded([0, 7], 10, 125) == [7]
  {
    assert Word(0, 7) == 7;
    assert FromBigEndian([0, 7]) == [7];
  }

  /** Ten registers asked for, two bytes sent: one register of ten mapped ones is stored, and the request succeeds. */
  lemma ShortPayloadSucceeds(ranges: seq<Range>, keys: set<int>, data: seq<bv8>, w: Window<bv16>, log: History<bv16>)
    requires ranges == [Range(0, 9)] && (forall a :: a in keys <==> 0 <= a < 10)
    requires data == [0, 7] && w == WordWindow(0, Decoded(data, 10, 125))
    ensures Contains(ranges, keys) && w.values == [7]
    ensures var o := Serve(ranges, keys, None, w, log, w.start);
            o.verdict == Ok(()) && o.reached == 1
  {
    ShortDecodes();
    forall a | a in keys
      ensures Covered(ranges, a)
    {
      PickFirst(ranges, a, 0, 0);
    }
    ReachUnique(keys, w.start, w.limit, w.limit);
    ServeFree(ranges, keys, w, log);
  }

  /** FC10 arm. It echoes the count even where the payload was too short to fill the window. */
  method WriteMultipleRegistersArm(bank: RegisterBank, address: u16, count: u16, data: seq<bv8>)
    returns (response: Response)
    requires bank.Valid()
    modifies bank`log, bank.maps
    ensures bank.Valid()
    ensures var w := WordWindow(address, Decoded(data, count, 125));
            var o := Serve(bank.layout, old(bank.Cells()).Keys, bank.batch, w, old(bank.log), w.start);
            && w.start <= o.reached <= w.limit
            && response == Respond(FcWriteMultipleRegisters, o.verdict, EchoMultiWrite(FcWriteMultipleRegisters, address, count))
            && bank.log == o.log && bank.Cells() == Put(old(bank.Cells()), w, w.start, o.reached)
            && Meant(bank.layout, old(bank.Cells()).Keys, w, o)
            && Observed(bank.layout, old(bank.Cells()).Keys, bank.batch, w, old(bank.log), o)
            && (response.EchoMultiWrite? ==> (o.reached == address + count <==> 2 * count <= |data| && count <= 125))
            && (o.verdict.Ok? ==> response == EchoMultiWrite(FcWriteMultipleRegisters, address, count))
            && (o.verdict.Err? ==>
                  response.Exception? && response.fc == FcWriteMultipleRegisters && Tells(o.verdict.error, response.code))
  {
    var decoded := Decode(data, count, 125);
    BankContains(bank);
    SuccessMeansStored(bank.layout, bank.Cells().Keys, bank.batch, bank.log, address, count, data, 125);
    ServeMeaning(bank.layout, bank.Cells().Keys, bank.batch, WordWindow(address, decoded), bank.log, address);
    ServeObserved(bank.layout, bank.Cells().Keys, bank.batch, WordWindow(address, decoded), bank.log);
    var failure := RegisterLoop(bank, FcWriteMultipleRegisters, WordWindow(address, decoded));
    if failure.Some? { return failure.value; }
    return EchoMultiWrite(FcWriteMultipleRegisters, address, count);
  }

  /** What the read phase answers, given the cells it reads. */
  ghost function WordResponse(fc: FunctionCode, cells: map<int, bv16>, at: int, end: int): Response
    requires at <= end
  {
    if AllMapped(cells, at, end) && (at == end || end <= 0xFFFF) then PackedBits(fc, BigEndian(Read(cells, at, end)))
    else Exception(fc, IllegalDataAddress)
  }

  ghost function BitResponse(fc: FunctionCode, cells: map<int, bool>, at: int, end: int): Response
    requires at <= end
  {
    if AllMapped(cells, at, end) && (at == end || end <= 0xFFFF) then PackedBits(fc, Pack(Read(cells, at, end)))
    else Exception(fc, IllegalDataAddress)
  }

  /** The address behind the last register that fits the response buffer. */
  function WordEdge(at: u16): int
  {
    at + MAX_PDU_DATA_LEN / 2
  }

  /**
    The register-read phase of an arm, in a fresh response buffer; `None` where it would index
    past that buffer, which happens exactly if the map that holds the first register without
    room is reached.
   */
  method ReadWordsFor(bank: RegisterBank, fc: FunctionCode, address: u16, count: u16)
    returns (response: Option<Response>)
    requires bank.Valid()
    ensures response == if Overruns(bank.layout, bank.Cells(), address, address + count, WordEdge(address)) then None
                        else Some(WordResponse(fc, bank.Cells(), address, address + count))
  {
    var total := 2 * count;
    var out := new bv8[MAX_PDU_DATA_LEN](_ => 0);
    ghost var end := address + count;
    ghost var edge := WordEdge(address);
    var e := WordLoop(bank, address, count, out, total, end, edge);
    if e.OutOfBounds? { return None; }
    if e.Failed? { return Some(Exception(fc, ErrToException(e.error))); }
    return Some(PackedBits(fc, out[..total]));
  }

  /** The bit-read phase of an arm; `None` where clearing the response would leave the buffer. */
  method ReadBitsFor(bank: CoilBank, fc: FunctionCode, address: u16, count: u16) returns (response: Option<Response>)
    requires bank.Valid()
    ensures response == if count > 8 * MAX_PDU_DATA_LEN then None
                        else Some(BitResponse(fc, bank.Cells(), address, address + count))
  {
    var total := ByteCount(count);
    var out := new bv8[MAX_PDU_DATA_LEN](_ => 0);
    if total > out.Length { return None; }
    ghost var end := address + count;
    ZeroPrefix(out, total);
    NarrowWindow(bank.layout, bank.Cells(), address, end);
    var e := BitLoop(bank, address, count, out, total, end);
    if e.Failed? { return Some(Exception(fc, ErrToException(e.error))); }
    return Some(PackedBits(fc, out[..total]));
  }

  /** FC01 arm. */
  method ReadCoilsArm(bank: CoilBank, address: u16, count: u16) returns (response: Option<Response>)
    requires bank.Valid()
    ensures response == if count > 8 * MAX_PDU_DATA_LEN then None
                        else Some(BitResponse(FcReadCoils, bank.Cells(), address, address + count))
  {
    response := ReadBitsFor(bank, FcReadCoils, address, count);
  }

  /** FC02 arm. */
  method ReadDiscreteInputsArm(bank: CoilBank, address: u16, count: u16) returns (response: Option<Response>)
    requires bank.Valid()
    ensures response == if count > 8 * MAX_PDU_DATA_LEN then None
                        else Some(BitResponse(FcReadDiscreteInputs, bank.Cells(), address, address + count))
  {
    response := ReadBitsFor(bank, FcReadDiscreteInputs, address, count);
  }

  /** FC03 arm. */
  method ReadHoldingRegistersArm(bank: RegisterBank, address: u16, count: u16) returns (response: Option<Response>)
    requires bank.Valid()
    ensures response == if Overruns(bank.layout, bank.Cells(), address, address + count, WordEdge(address)) then None
                        else Some(WordResponse(FcReadHoldingRegisters, bank.Cells(), address, address + count))
  {
    response := ReadWordsFor(bank, FcReadHoldingRegisters, address, count);
  }

  /** FC04 arm. */
  method ReadInputRegistersArm(bank: RegisterBank, address: u16, count: u16) returns (response: Option<Response>)
    requires bank.Valid()
    ensures response == if Overruns(bank.layout, bank.Cells(), address, address + count, WordEdge(address)) then None
                        else Some(WordResponse(FcReadInputRegisters, bank.Cells(), address, address + count))
  {
    response := ReadWordsFor(bank, FcReadInputRegisters, address, count);
  }

  /**
    FC17 arm: the write phase runs first and may fail, in which case nothing is read; a
    successful response is the flat read of the state after the flat write, however the two
    windows overlap; if only the read fails, the write stays.
   */
  method ReadWriteArm(bank: RegisterBank, readAt: u16, readCount: u16, writeAt: u16, writeCount: u16, data: seq<bv8>)
    returns (response: Response)
    requires bank.Valid()
    modifies bank`log, bank.maps
    ensures bank.Valid()
    ensures !(1 <= writeCount <= 121 && 1 <= readCount <= 125) ==>
              && response == Exception(FcReadWriteMultipleRegisters, IllegalDataValue)
              && bank.log == old(bank.log) && bank.Cells() == old(bank.Cells())
    ensures 1 <= writeCount <= 121 && 1 <= readCount <= 125 ==>
              var w := WordWindow(writeAt, Decoded(data, writeCount, 121));
              var o := Serve(bank.layout, old(bank.Cells()).Keys, bank.batch, w, old(bank.log), w.start);
              && w.start <= o.reached <= w.limit && Meant(bank.layout, old(bank.Cells()).Keys, w, o)
              && bank.log == o.log && bank.Cells() == Put(old(bank.Cells()), w, w.start, o.reached)
              && response == if o.verdict.Err? then Exception(FcReadWriteMultipleRegisters, ErrToException(o.verdict.error))
                             else WordResponse(FcReadWriteMultipleRegisters, bank.Cells(), readAt, readAt + readCount)
    ensures 1 <= writeCount <= 121 && 1 <= readCount <= 125 ==>
              var w := WordWindow(writeAt, Decoded(data, writeCount, 121));
              var o := Serve(bank.layout, old(bank.Cells()).Keys, bank.batch, w, old(bank.log), w.start);
              && Observed(bank.layout, old(bank.Cells()).Keys, bank.batch, w, old(bank.log), o)
              && (o.verdict.Err? ==>
                    response.Exception? && response.fc == FcReadWriteMultipleRegisters && Tells(o.verdict.error, response.code))
    ensures response.PackedBits? ==>
              var w := WordWindow(writeAt, Decoded(data, writeCount, 121));
              var o := Serve(bank.layout, old(bank.Cells()).Keys, bank.batch, w, old(bank.log), w.start);
              o.reached == writeAt + writeCount <==> 2 * writeCount <= |data|
  {
    if !(1 <= writeCount <= 121) || !(1 <= readCount <= 125) {
      return Exception(FcReadWriteMultipleRegisters, IllegalDataValue);
    }
    var decoded := Decode(data, writeCount, 121);
    BankContains(bank);
    SuccessMeansStored(bank.layout, bank.Cells().Keys, bank.batch, bank.log, writeAt, writeCount, data, 121);
    ServeMeaning(bank.layout, bank.Cells().Keys, bank.batch, WordWindow(writeAt, decoded), bank.log, writeAt);
    ServeObserved(bank.layout, bank.Cells().Keys, bank.batch, WordWindow(writeAt, decoded), bank.log);
    var failure := RegisterLoop(bank, FcReadWriteMultipleRegisters, WordWindow(writeAt, decoded));
    if failure.Some? { return failure.value; }
    var read := ReadWordsFor(bank, FcReadWriteMultipleRegisters, readAt, readCount);
    response := read.value;
  }

  /** What FC17 reads, register by register: the new value inside the written window, the old one outside it. */
  lemma ReadsAfterWriting(cells: map<int, bv16>, w: Window<bv16>, at: int, end: int, k: nat)
    requires w.Valid() && w.limit == w.end && at <= end && AllMapped(cells, at, end) && k < end - at
    ensures AllMapped(Put(cells, w, w.start, w.end), at, end)
    ensures Read(Put(cells, w, w.start, w.end), at, end)[k] ==
            if w.start <= at + k < w.end then w.values[at + k - w.start] else cells[at + k]
  {
  }

  /** The part of a coil-write turn on map `i`. */
  method CoilSegment(bank: CoilBank, i: nat, cursor: u16, take: u16, values: seq<bv8>, offset: nat,
                     ghost w: Window<bool>, ghost keys: set<int>, ghost end: int)
    returns (answer: Option<Response>, ghost next: int)
    requires bank.Valid() && keys == bank.Cells().Keys && i < |bank.maps| && Inside(bank.maps[i].range, cursor, end)
    requires Carries(values, w) && Sound(bank, w.start, w.end, values)
    requires w.start <= cursor <= w.limit && cursor < end == cursor + take <= w.end && offset == cursor - w.start
    requires bank.batch.Some? ==> take <= 8 * MAX_PDU_DATA_LEN
    modifies bank`log, bank.maps
    ensures bank.Valid() && cursor <= next <= w.limit
    ensures bank.Cells() == Put(old(bank.Cells()), w, cursor, next)
    ensures Answered(FcWriteMultipleCoils, Segment(keys, bank.batch, w, old(bank.log), cursor, end), answer, bank.log, next)
  {
    PutNothing(bank.Cells(), w, cursor);
    next := cursor;
    var asked := CoilRouter.AskHook(bank, cursor, take, values, offset, w, Min(end, w.limit));
    if asked.Err? { return Some(Exception(FcWriteMultipleCoils, ErrToException(asked.error))), next; }
    var stored;
    stored, next := StoreBits(bank, i, cursor, take, values, offset, w, end);
    if stored.Err? { return Some(Exception(FcWriteMultipleCoils, ErrToException(stored.error))), next; }
    if cursor + take > 0xFFFF { return Some(Exception(FcWriteMultipleCoils, IllegalDataAddress)), next; }
    return None, next;
  }

  /** One turn of the coil-write route. */
  method CoilTurn(bank: CoilBank, cursor: u16, remaining: u16, values: seq<bv8>, offset: nat, ghost w: Window<bool>,
                  ghost keys: set<int>)
    returns (answer: Option<Response>, take: nat, ghost next: int)
    requires bank.Valid() && keys == bank.Cells().Keys && Carries(values, w) && Sound(bank, w.start, w.end, values)
    requires w.start <= cursor <= w.limit && cursor < w.end == cursor + remaining && offset == cursor - w.start
    modifies bank`log, bank.maps
    ensures bank.Valid() && cursor <= next <= w.limit && (answer.None? ==> next == cursor + take)
    ensures bank.Cells() == Put(old(bank.Cells()), w, cursor, next)
    ensures Answered(FcWriteMultipleCoils, OneTurn(bank.layout, keys, bank.batch, w, old(bank.log), cursor), answer, bank.log, next)
  {
    PutNothing(bank.Cells(), w, cursor);
    next, take := cursor, 0;
    var i := bank.Find(cursor);
    if i == |bank.maps| { return Some(Exception(FcWriteMultipleCoils, IllegalDataAddress)), take, next; }
    take := Take(bank.maps[i].range, cursor, remaining);
    ghost var end := SegmentEnd(bank.layout, cursor, w.end);
    answer, next := CoilSegment(bank, i, cursor, take, values, offset, w, keys, end);
  }

  /** The coil-write loop; a count of zero is served without a turn. */
  method CoilLoop(bank: CoilBank, values: seq<bv8>, w: Window<bool>) returns (answer: Option<Response>)
    requires bank.Valid() && Carries(values, w) && Sound(bank, w.start, w.end, values) && w.end - w.start < 0x1_0000
    modifies bank`log, bank.maps
    ensures bank.Valid()
    ensures var o := Serve(bank.layout, old(bank.Cells()).Keys, bank.batch, w, old(bank.log), w.start);
            && w.start <= o.reached <= w.limit
            && answer == Failure(FcWriteMultipleCoils, o.verdict) && bank.log == o.log
            && bank.Cells() == Put(old(bank.Cells()), w, w.start, o.reached)
  {
    ghost var before, keys := bank.Cells(), bank.Cells().Keys;
    ghost var o := Serve(bank.layout, keys, bank.batch, w, bank.log, w.start);
    var cursor: u16 := w.start;
    var remaining: u16 := w.end - w.start;
    var offset := 0;
    PutNothing(before, w, w.start);
    while remaining > 0
      invariant bank.Valid() && w.start <= cursor <= w.limit && w.end == cursor + remaining
      invariant offset == cursor - w.start
      invariant bank.Cells() == Put(before, w, w.start, cursor)
      invariant o == Serve(bank.layout, keys, bank.batch, w, bank.log, cursor)
    {
      ghost var log, cells := bank.log, bank.Cells();
      var take;
      ghost var next;
      answer, take, next := CoilTurn(bank, cursor, remaining, values, offset, w, keys);
      PutJoin(before, w, w.start, cursor, next, cells, bank.Cells());
      TurnAnswered(bank.layout, keys, bank.batch, w, log, cursor, FcWriteMultipleCoils, answer, bank.log, next);
      if answer.Some? { return; }
      var advanced := cursor + take;
      assert advanced == next;
      cursor, remaining, offset := advanced, remaining - take, offset + take;
    }
    return None;
  }

  /** FC0F arm. */
  method WriteMultipleCoilsArm(bank: CoilBank, address: u16, count: u16, data: seq<bv8>) returns (response: Response)
    requires bank.Valid() && Sound(bank, address, address + count, data)
    modifies bank`log, bank.maps
    ensures bank.Valid()
    ensures var w := BitWindow(data, address, count);
            var o := Serve(bank.layout, old(bank.Cells()).Keys, bank.batch, w, old(bank.log), w.start);
            && w.start <= o.reached <= w.limit
            && response == Respond(FcWriteMultipleCoils, o.verdict, EchoMultiWrite(FcWriteMultipleCoils, address, count))
            && bank.log == o.log && bank.Cells() == Put(old(bank.Cells()), w, w.start, o.reached)
            && Meant(bank.layout, old(bank.Cells()).Keys, w, o)
            && Observed(bank.layout, old(bank.Cells()).Keys, bank.batch, w, old(bank.log), o)
            && (o.verdict.Ok? ==> response == EchoMultiWrite(FcWriteMultipleCoils, address, count))
            && (o.verdict.Err? ==>
                  response.Exception? && response.fc == FcWriteMultipleCoils && Tells(o.verdict.error, response.code))
    ensures var w := BitWindow(data, address, count);
            bank.batch.None? && w.limit < w.end && AllMapped(old(bank.Cells()), address, w.limit) &&
            Covered(bank.layout, w.limit) ==>
              && response == Exception(FcWriteMultipleCoils, IllegalDataValue)
              && bank.Cells() == Put(old(bank.Cells()), w, address, w.limit)
  {
    BankContains(bank);
    ServeMeaning(bank.layout, bank.Cells().Keys, bank.batch, BitWindow(data, address, count), bank.log, address);
    ServeObserved(bank.layout, bank.Cells().Keys, bank.batch, BitWindow(data, address, count), bank.log);
    ghost var w := BitWindow(data, address, count);
    if bank.batch.None? && w.limit < w.end && AllMapped(bank.Cells(), address, w.limit) && Covered(bank.layout, w.limit) {
      ShortPayload(bank, w);
    }
    var failure := CoilLoop(bank, data, BitWindow(data, address, count));
    if failure.Some? { return failure.value; }
    return EchoMultiWrite(FcWriteMultipleCoils, address, count);
  }

  /** FC05 arm. */
  method WriteSingleCoilArm(bank: CoilBank, address: u16, value: bool) returns (response: Response)
    requires bank.Valid()
    modifies bank`log, bank.maps
    ensures bank.Valid()
    ensures !Covered(bank.layout, address) ==>
              && response == Exception(FcWriteSingleCoil, IllegalDataAddress)
              && bank.log == old(bank.log) && bank.Cells() == old(bank.Cells())
    ensures Covered(bank.layout, address) ==>
              && Pick(bank.layout, address) < |bank.maps|
              && var (told, r) := ServeSingle(address in old(bank.Cells()), SingleOf(bank, address),
                                              NotifyOf(bank, Pick(bank.layout, address), address), old(bank.log),
                                              address, ValueOr(old(bank.Cells()), address, false), value);
              && bank.log == told && response == Respond(FcWriteSingleCoil, r, EchoCoil(address, value))
              && FollowsPolicy(bank, Pick(bank.layout, address), address in old(bank.Cells()), address,
                               if address in old(bank.Cells()) then old(bank.Cells())[address] else false, value,
                               old(bank.log), told, r)
              && (r.Ok? ==> response == EchoCoil(address, value))
              && (r.Err? ==> response.Exception? && response.fc == FcWriteSingleCoil && Tells(r.error, response.code))
              && bank.Cells() == if r.Ok? then Overlay(old(bank.Cells()), address, [value]) else old(bank.Cells())
  {
    var wrote := false;
    var i := bank.Find(address);
    if i < |bank.maps| {
      var before := value;
      if address in bank.single { before := OldCoil(bank, i, address); }
      var r := Dispatch(bank, i, address, before, value);
      if r.Err? { return Exception(FcWriteSingleCoil, ErrToException(r.error)); }
      wrote := true;
    }
    response := if wrote then EchoCoil(address, value) else Exception(FcWriteSingleCoil, IllegalDataAddress);
  }

  /** FC06 arm. */
  method WriteSingleRegisterArm(bank: RegisterBank, address: u16, value: bv16) returns (response: Response)
    requires bank.Valid()
    modifies bank`log, bank.maps
    ensures bank.Valid()
    ensures !Covered(bank.layout, address) ==>
              && response == Exception(FcWriteSingleRegister, IllegalDataAddress)
              && bank.log == old(bank.log) && bank.Cells() == old(bank.Cells())
    ensures Covered(bank.layout, address) ==>
              && Pick(bank.layout, address) < |bank.maps|
              && var (told, r) := ServeSingle(address in old(bank.Cells()), SingleOf(bank, address),
                                              NotifyOf(bank, Pick(bank.layout, address), address), old(bank.log),
                                              address, ValueOr(old(bank.Cells()), address, 0), value);
              && bank.log == told && response == Respond(FcWriteSingleRegister, r, EchoRegister(address, value))
              && FollowsPolicy(bank, Pick(bank.layout, address), address in old(bank.Cells()), address,
                               if address in old(bank.Cells()) then old(bank.Cells())[address] else 0, value,
                               old(bank.log), told, r)
              && (r.Ok? ==> response == EchoRegister(address, value))
              && (r.Err? ==> response.Exception? && response.fc == FcWriteSingleRegister && Tells(r.error, response.code))
              && bank.Cells() == if r.Ok? then Overlay(old(bank.Cells()), address, [value]) else old(bank.Cells())
  {
    var wrote := false;
    var i := bank.Find(address);
    if i < |bank.maps| {
      var before := value;
      if address in bank.single {
        var ignored;
        ignored, before := OldRegister(bank, i, address);
      }
      var r := Dispatch(bank, i, address, before, value);
      if r.Err? { return Exception(FcWriteSingleRegister, ErrToException(r.error)); }
      wrote := true;
    }
    response := if wrote then EchoRegister(address, value) else Exception(FcWriteSingleRegister, IllegalDataAddress);
  }

  /** FC16 arm. */
  method MaskWriteArm(bank: RegisterBank, address: u16, andMask: bv16, orMask: bv16) returns (response: Response)
    requires bank.Valid()
    modifies bank.maps
    ensures bank.Valid()
    ensures address in old(bank.Cells()) ==>
              && response == EchoMaskWrite(address, andMask, orMask)
              && bank.Cells() == Overlay(old(bank.Cells()), address, [Masked(old(bank.Cells())[address], andMask, orMask)])
    ensures address !in old(bank.Cells()) ==>
              response == Exception(FcMaskWriteRegister, IllegalDataAddress) && bank.Cells() == old(bank.Cells())
  {
    var r := MaskWriteRegister(bank, address, andMask, orMask);
    response := Respond(FcMaskWriteRegister, r, EchoMaskWrite(address, andMask, orMask));
  }
}
