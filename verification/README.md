# Verified model of the modbus-rs server data path

This project models the code that the Modbus server macros and generators of this repository
produce, and proves what that code does to a device's data. `dafny verify dfyconfig.toml` checks
all of it. The standard behind the requests is the MODBUS Application Protocol Specification
V1.1b3 (sections 6.1 to 6.6, 6.11, 6.12, 6.16, 6.17 and 6.21).

An application owns several maps per data domain (coils, discrete inputs, holding and input
registers). Each map is an address interval `ADDR_MIN..=ADDR_MAX` that may have holes. A request
is served by a loop that picks the map under the cursor, serves as many cells as that map has,
possibly after asking a hook, and advances. The project proves that this segmented, in-place,
early-exiting code acts on one flat partial map from address to value, and what follows from it.

| file | content |
|---|---|
| `Bits.dfy` | packed bits, big-endian words, uniqueness of the packing |
| `AddressSpace.dfy` | intervals, the flat view of a list of maps, reads and overlays |
| `WriteRoute.dfy` | meaning of a multi-cell write: stored prefix, verdict, events |
| `HookTrace.dfy` | what a batch hook observes on every run |
| `FlatLaws.dfy` | independence of the split into maps, bulk against repeated single writes |
| `Maps.dfy` | the derived map structs: `encode`, `write_single`, `write_many`, `write_many_from_packed` |
| `Domain.dfy` | one data domain of an app as an object with maps, hooks and history |
| `RegisterRouter.dfy`, `CoilRouter.dfy`, `ReadRouter.dfy`, `SingleWrite.dfy` | the sync handlers of `#[modbus_app]` |
| `AsyncRouter.dfy`, `SyncAsync.dfy` | the arms of `#[async_modbus_app]` and their agreement with the sync handlers |
| `BulkAndSingle.dfy`, `RouterLaws.dfy` | laws that span handlers: bulk against single writes, the bit round trip, independence of the split into maps |
| `FlatDevice.dfy`, `FlatAgreement.dfy` | the flat-array device and its agreement with the router |
| `Layout.dfy` | compile-time checks on addresses and intervals |
| `CodegenConfig.dfy`, `CodegenProgram.dfy`, `CodegenRuns.dfy`, `CodegenLaws.dfy`, `CodegenApp.dfy` | the generated C server app: config, programs, interleavings, laws, the imperative handlers |
| `DeviceId.dfy` | Read Device Identification paging and its client |
| `MapCompiler.dfy` | validation and flattening of a server memory map |

Hooks are arbitrary oracles: functions of everything that happened before the call, their
arguments included, that accept or refuse and do not change cells themselves. Words are `bv16`,
bytes `bv8`; addresses are integers with the 16-bit range and every overflow check written out.

## Where the code differs from what one might expect

- The router advances its cursor with a checked addition after a segment is served. A window whose
  last address is 65535 is therefore read or stored and then answered with an address error. Single
  writes to 65535 succeed. `WriteRoute.ServeMeaning`, `FlatLaws.BulkIsRepeatedSingle` and
  `FlatAgreement.TilingWrite` state this as an exact exception.
- The router refuses an empty request; the flat-array device and the async arms answer it. The
  theorems that compare them name it as the other exact exception.
- Generated C handlers ask their hooks with wrapping addresses but store without wrapping, and ignore
  the result of the store. A wrapping FC0F is answered with success although nothing is stored
  (`CodegenProgram.WrappedWriteIsLost`). This concerns direct calls of the exported handlers: the
  server's own request path refuses empty, wrapping and short FC0F requests before it calls them
  (mbus-server/src/services/coils/mod.rs:286-312). `CodegenProgram.PackedStored` and `CodegenProgram.ListStored`
  give the exact condition under which success means that the window was stored.
- The C header says that hooks run without the lock. That holds for the lock of the hook's own thread
  (`CodegenLaws.HooksOutsideOwnLock`); another thread may hold it meanwhile, and
  `CodegenLaws.HooksOutsideEveryLock` says for exactly which invocations that cannot happen.
- The async FC10 and FC17 arms report success even where a short payload left part of the window
  unwritten (`AsyncRouter.ShortPayloadSucceeds`); `AsyncRouter.SuccessMeansStored` gives the exact
  condition under which success means that the whole window was stored.
- An individual hook may run for a hole inside a sparse map and then sees the old value 0
  (`SingleWrite.WriteHole`).
- Read loops index fixed buffers. Requests beyond the standard's limits can leave them, which stops
  the program; the models answer `None` there, and `ReadRouter.TooWide` and `ReadRouter.Overruns` say
  exactly when.

## Model

| member | source | states |
|---|---|---|
| `WriteRoute.ServeMeaning` | mbus-macros/src/lib.rs:1448-1554 | for every layout, window, payload and hook the stored cells are an exact prefix of the window: up to the refused segment, else up to the first unmapped address or the payload's end; the verdict is the one of the flat view, and success means the whole window is stored |
| `HookTrace.ServeTrace` | mbus-macros/src/lib.rs:1462-1501 | on every run the hook calls tile a prefix of the window in ascending order, each running to the end of its map or of the window, each accepted before its segment is stored whole; a refusal is the last event, and only a hole cuts the last store short |
| `HookTrace.CallsConcat` | mbus-macros/src/lib.rs:1524-1551 | the payloads of the calls concatenate to a prefix of the request payload, those of the stores to the stored prefix |
| `FlatLaws.PartitionIndependence` | mbus-macros/src/lib.rs:1448-1554 | hook-free apps that split the same cells differently store the same prefix, and answer alike if and only if a short payload does not end where just one of them has a map |
| `FlatLaws.LastAddressIsStoredAndRefused` | mbus-macros/src/lib.rs:1540-1546 | one cell at 65535: it is stored, and the request is answered with an address error |
| `FlatLaws.BulkIsRepeatedSingle` | mbus-macros/src/lib.rs:1268-1329 | the specified bulk route leaves what single writes given up at the first failure leave; the verdicts agree if and only if the window is not a fully mapped one ending at 65535 |
| `BulkAndSingle.RepeatRegisters` | mbus-macros/src/lib.rs:1382-1442 | FC06 itself, looped over a window on a hook-free app, computes exactly those repeated single writes |
| `BulkAndSingle.RepeatCoils` | mbus-macros/src/lib.rs:1268-1329 | FC05 looped likewise |
| `BulkAndSingle.BulkAgainstSingleRegisters` | mbus-macros/src/lib.rs:2268-2294 | FC10 on one app and FC06 register by register on another with the same contents, however split: same final cells; same answer if and only if the window is neither empty nor a fully mapped one ending at 65535 |
| `BulkAndSingle.BulkAgainstSingleCoils` | mbus-macros/src/lib.rs:2138-2165 | FC0F against FC05 coil by coil likewise |
| `AddressSpace.PickUnique` | mbus-macros/src/lib.rs:1481-1500 | in a strictly ascending layout the nested if-else picks the only map that holds the cursor |
| `AddressSpace.FlatUpdate` | mbus-macros/src/lib.rs:921-938 | writing part of one map is that same write on the flat view, and no cell of any other map changes |
| `Bits.PackUnique` | mbus-macros/src/lib.rs:352-363 | a packing with every bit in place and zero padding is the only one |
| `Bits.PackUnpackCleared` | mbus-macros/src/lib.rs:352-363 | packing the first n bits of a payload gives that payload cut to n bits with its padding cleared |
| `Bits.BigEndianValue` | mbus-macros/src/lib.rs:897-907 | register k stands at byte 2k, its first byte counting 256 times its second |
| `Maps.EncodeBits` | mbus-macros/src/lib.rs:325-364 | a coil map's `encode` fails exactly for zero quantity, a window outside the interval, a short buffer or a hole, in that order; otherwise it writes the packed cells and touches nothing outside its slice |
| `Maps.EncodeWords` | mbus-macros/src/lib.rs:866-908 | the same for register maps with big-endian words |
| `Maps.EncodeAccepts` | mbus-macros/src/lib.rs:866-908 | a map answers a read exactly if the window is not empty, inside its interval, mapped throughout, and has room |
| `Maps.WritePacked` | mbus-macros/src/lib.rs:377-407 | stores the payload's bits from `bit_offset` on up to the first hole or the payload's end, and reports which of the two it was |
| `Maps.WriteWords` | mbus-macros/src/lib.rs:921-938 | stores values up to the first address that is no field |
| `Maps.AddressMap.WriteSingle` | mbus-macros/src/lib.rs:910-919 | stores one cell if and only if it exists |
| `Domain.Bank.Find` | mbus-macros/src/lib.rs:1481-1500 | the map the nested if-else arrives at |
| `RegisterRouter.RunTurns` | mbus-macros/src/lib.rs:2268-2294 | the FC10 loop ends, and leaves the outcome, history and cells of the specified route |
| `RegisterRouter.WriteMultipleRegisters` | mbus-macros/src/lib.rs:2268-2294 | FC10: verdict, hook calls and final flat state for every layout and hook, with the flat meaning of the prefix and the observed course of the hook calls |
| `CoilRouter.Repack` | mbus-macros/src/lib.rs:1462-1478 | the slice a batch hook gets is the packing of exactly its segment's bits, whatever the bit offset |
| `CoilRouter.WriteMultipleCoils` | mbus-macros/src/lib.rs:2138-2165 | FC0F: bit i of the payload lands at start + i across any number of maps, with the same guarantees; a payload that runs out inside a map is stored and answered as a wrong byte count |
| `CoilRouter.ShortPayload` | mbus-macros/src/lib.rs:377-407 | without a hook, a payload that runs out inside a map with all before it mapped is stored whole and answered with InvalidByteCount |
| `ReadRouter.MergeBits` | mbus-macros/src/lib.rs:1230-1245 | an encoded segment joins the response at an unaligned bit offset without disturbing the bits before it |
| `ReadRouter.ReadBits` | mbus-macros/src/lib.rs:2080-2116 | FC01 and FC02 succeed exactly if every address is mapped and the exclusive end fits 16 bits; then the response is the packing of the flat cells, padded with zeros; the scratch buffer is left exactly if a map with more than 2016 bits of the window is reached |
| `ReadRouter.ReadWords` | mbus-macros/src/lib.rs:2209-2246 | FC03 and FC04 likewise with big-endian words |
| `ReadRouter.BitLoop` | mbus-macros/src/lib.rs:1208-1255 | the bit-read loop ends and gathers exactly the window's bits, fails exactly where the window is unmapped or ends past 65535, and leaves its scratch buffer exactly at a reachable segment of more than 2016 bits |
| `ReadRouter.NarrowWindow` | mbus-macros/src/lib.rs:1224-1230 | within 2016 bits no segment leaves the scratch buffer |
| `ReadRouter.WordLoop` | mbus-macros/src/lib.rs:1169-1206 | the register-read loop likewise, with the write offset and the remaining count in balance; it leaves the response buffer exactly if the map that holds the first register without room is reached |
| `SingleWrite.WriteSingleCoil` | mbus-macros/src/lib.rs:1268-1329 | FC05: an individual hook of the address is asked with the true old value; without one the batch hook is asked if and only if the map declares the field `notify_via_batch`; a refusal is passed on and changes no cell |
| `SingleWrite.WriteSingleRegister` | mbus-macros/src/lib.rs:1382-1442 | FC06: the same policy for registers |
| `SingleWrite.SinglePolicy` | mbus-macros/src/lib.rs:1261-1329 | exactly one hook is asked if one applies and none otherwise, the individual one first; a refusal is passed on and nothing is stored; an accepted or unasked write succeeds and is stored, right behind the call, if and only if the address is mapped |
| `SingleWrite.NotifiedIsBulkOfOne` | mbus-macros/src/lib.rs:1382-1442 | a notified single write makes the same call and store as a bulk write of one cell; the answers differ exactly at a stored 65535 |
| `SingleWrite.WriteHole` | mbus-macros/src/lib.rs:1398-1403 | between registers 0 and 2 the hook of address 1 is asked about the old value 0, accepts, and the write fails |
| `Bits.MaskedBits` | mbus-macros/src/lib.rs:2978-2979 | the bits under the AND mask survive, all others come from the OR mask |
| `SingleWrite.MaskWriteRegister` | mbus-macros/src/lib.rs:2958-2995 | FC16 replaces the register by its masked value if and only if it is mapped |
| `RouterLaws.BitRoundTrip` | mbus-macros/src/lib.rs:325-407 | packing what was stored from a payload gives back the payload with cleared padding |
| `RouterLaws.WriteThenRead` | mbus-macros/src/lib.rs:1208-1255 | after a successful FC0F, FC01 of the same window returns the payload with cleared padding, for every split and start, unless a segment is too long for the read's scratch buffer |
| `RouterLaws.SplitRegisters` | mbus-macros/src/lib.rs:1510-1554 | FC10 on two hook-free apps with the same flat contents: same answer, same flat state |
| `RouterLaws.SplitCoils` | mbus-macros/src/lib.rs:1448-1504 | FC0F with any payload: same flat state; same answer if and only if the payload does not run out, all before it stored, where just one app has a map |
| `RouterLaws.SplitSingleRegister` | mbus-macros/src/lib.rs:1382-1442 | FC06 on two such apps: same answer, same flat state |
| `RouterLaws.SplitSingleCoil` | mbus-macros/src/lib.rs:1268-1329 | FC05 likewise |
| `RouterLaws.SplitMask` | mbus-macros/src/lib.rs:2958-2995 | FC16 likewise |
| `RouterLaws.SplitBitReads` | mbus-macros/src/lib.rs:1208-1255 | FC01 and FC02: same bytes, and the same answer if and only if not just one app has a segment too long for the scratch buffer |
| `RouterLaws.SplitWordReads` | mbus-macros/src/lib.rs:1169-1206 | FC03 and FC04: same answer, same bytes |
| `RouterLaws.SplitReadWrite` | mbus-macros/src/lib.rs:3318-3382 | FC17 with any counts and any payload: same response, same flat state |
| `FlatAgreement.TilingWrite` | mbus-server/examples/full_server.rs:309-322 | on a router that maps 0 up to n a write is answered as by the flat device if and only if it is neither empty nor the last window of a full address space; both store the same wherever the device accepts |
| `FlatAgreement.TilingRead` | mbus-server/examples/full_server.rs:270-288 | reads are answered alike under the same condition |
| `FlatAgreement.WriteBothRegisters` | mbus-server/examples/full_server.rs:309-322 | FC10 on router and flat device with the same contents: same answer under exactly that condition, same contents wherever the device accepts; where it refuses, the router keeps exactly the part of the window below n |
| `FlatAgreement.WriteBothCoils` | mbus-server/examples/full_server.rs:214-232 | FC0F on both likewise |
| `FlatAgreement.ReadBothCoils` | mbus-server/examples/full_server.rs:167-193 | FC01 on both: same answer under exactly that condition unless a segment leaves the router's scratch buffer, and the bit-at-a-time and the byte-at-a-time packer give the same bytes |
| `FlatAgreement.ReadBothRegisters` | mbus-server/examples/full_server.rs:270-288 | FC03 on both likewise |
| `FlatAgreement.WriteBothSingle` | mbus-server/examples/full_server.rs:292-305 | FC06 on both, also for a full address space |
| `FlatAgreement.WriteBothSingleCoil` | mbus-server/examples/full_server.rs:197-210 | FC05 on both |
| `FlatAgreement.MaskBoth` | mbus-server/examples/full_server.rs:326-342 | FC16 on both |
| `FlatAgreement.ReadWriteBoth` | mbus-server/examples/full_server.rs:346-376 | FC17 on both: same bytes or an address error, if and only if not both windows lie in a full address space with one of them ending it; same contents wherever the device writes |
| `FlatDevice.FlatApp.CoilByte` | mbus-server/examples/full_server.rs:181-190 | the inner loop yields the byte the packing has at that place |
| `FlatDevice.FlatApp.ReadCoils` | mbus-server/examples/full_server.rs:167-193 | FC01 answers within bounds with the packed coils, as far as the buffer goes |
| `FlatDevice.FlatApp.WriteMultipleCoils` | mbus-server/examples/full_server.rs:214-232 | FC0F stores the whole window or nothing |
| `FlatDevice.FlatApp.WriteSingleCoil` | mbus-server/examples/full_server.rs:197-210 | FC05 sets the coil within bounds, else nothing changes |
| `FlatDevice.FlatApp.ReadRegisters` | mbus-server/examples/full_server.rs:270-288 | FC03 answers within bounds with the registers high byte first |
| `FlatDevice.FlatApp.WriteSingleRegister` | mbus-server/examples/full_server.rs:292-305 | FC06 sets the register within bounds, else nothing changes |
| `FlatDevice.FlatApp.WriteMultipleRegisters` | mbus-server/examples/full_server.rs:309-322 | FC10 stores the whole window or nothing |
| `FlatDevice.FlatApp.MaskWrite` | mbus-server/examples/full_server.rs:326-342 | FC16 replaces the register by its masked value within bounds |
| `FlatDevice.FlatApp.ReadWrite` | mbus-server/examples/full_server.rs:346-376 | FC17 writes first; a failed write changes nothing and reads nothing, a failed read leaves the write in place |
| `AsyncRouter.WriteMultipleRegistersArm` | mbus-macros/src/lib.rs:3265-3297 | the `?`-free FC10 arm stores and answers as the specified route does for the values it decodes; the code of a failure tells its kind; an echoed window was stored whole if and only if the payload and the fixed vector hold all its registers |
| `AsyncRouter.SuccessMeansStored` | mbus-macros/src/lib.rs:3270-3275 | for every layout, hook and payload: a successful FC10 or FC17 write stored `count` registers if and only if the payload holds them and `count` fits the vector |
| `AsyncRouter.ErrToException` | mbus-macros/src/lib.rs:3431-3446 | a client is told of an address exactly for the two address errors, of a value exactly for quantity, byte-count and value errors, and of a failure for every other one |
| `AsyncRouter.ShortPayloadSucceeds` | mbus-macros/src/lib.rs:3270-3275 | ten registers asked for, two bytes sent: one register is stored and the request succeeds |
| `AsyncRouter.WriteMultipleCoilsArm` | mbus-macros/src/lib.rs:3142-3169 | the FC0F arm likewise; a short payload on mapped coils is answered with IllegalDataValue |
| `AsyncRouter.RegisterLoop` | mbus-macros/src/lib.rs:2896-2952 | the register-write loop with early returns leaves the outcome, history and cells of the specified route, and names the given function code in exceptions |
| `AsyncRouter.CoilLoop` | mbus-macros/src/lib.rs:2744-2812 | the coil-write loop likewise |
| `AsyncRouter.WriteSingleCoilArm` | mbus-macros/src/lib.rs:2665-2741 | FC05 arm: hook policy, cells and answer of the specified single write |
| `AsyncRouter.WriteSingleRegisterArm` | mbus-macros/src/lib.rs:2815-2890 | FC06 arm: the same for registers |
| `AsyncRouter.ReadCoilsArm` | mbus-macros/src/lib.rs:3085-3121 | FC01 arm: packed cells under its own function code exactly if the window is mapped and ends within 16 bits; an empty window is read as no bytes; the response buffer is left exactly for more than 2016 bits |
| `AsyncRouter.ReadDiscreteInputsArm` | mbus-macros/src/lib.rs:3171-3207 | FC02 arm: the same under its function code |
| `AsyncRouter.ReadHoldingRegistersArm` | mbus-macros/src/lib.rs:3209-3241 | FC03 arm: the same with big-endian words; the response buffer is left exactly if the map that holds the 127th register is reached |
| `AsyncRouter.ReadInputRegistersArm` | mbus-macros/src/lib.rs:3387-3422 | FC04 arm: the same under its function code |
| `AsyncRouter.ReadWriteArm` | mbus-macros/src/lib.rs:3318-3382 | FC17: a bad count changes nothing; otherwise the write phase runs first, its failure prevents the read, and a successful response is the flat read of the state after the flat write; its write window was stored whole if and only if the payload holds it |
| `AsyncRouter.ReadsAfterWriting` | mbus-macros/src/lib.rs:3318-3382 | register by register: new values inside the written window, old ones outside, however the windows overlap |
| `AsyncRouter.Decode` | mbus-macros/src/lib.rs:3270-3275 | the decoding loop keeps whole words up to the count, the payload and the vector's capacity |
| `AsyncRouter.DecodedWord` | mbus-macros/src/lib.rs:3270-3275 | word i of any payload comes from its bytes 2i and 2i + 1 |
| `AsyncRouter.DecodedWhole` | mbus-macros/src/lib.rs:3270-3275 | a complete payload decodes to the registers it encodes |
| `AsyncRouter.MaskWriteArm` | mbus-macros/src/lib.rs:2958-2995 | FC16 arm: masked value and echo, or an address exception and no change |
| `SyncAsync.RegistersAgree` | mbus-macros/src/lib.rs:2896-2952 | FC10, sync against async, same hooks: same cells and hook calls always, answers related by the error mapping if and only if the request is not empty |
| `SyncAsync.CoilsAgree` | mbus-macros/src/lib.rs:2744-2812 | FC0F, sync against async, likewise |
| `SyncAsync.SingleRegisterAgrees` | mbus-macros/src/lib.rs:2815-2890 | FC06, sync against async |
| `SyncAsync.SingleCoilAgrees` | mbus-macros/src/lib.rs:2665-2741 | FC05, sync against async |
| `SyncAsync.WordReadsAgree` | mbus-macros/src/lib.rs:3209-3241 | FC03 and FC04, sync against async: same bytes under each arm's own function code or related errors, if and only if the request is not empty and stays in the async response buffer |
| `SyncAsync.BitReadsAgree` | mbus-macros/src/lib.rs:3085-3121 | FC01 and FC02, sync against async, likewise; beyond 2016 bits they agree exactly where both leave a buffer |
| `Layout.AddressesUnique` | mbus-macros/src/lib.rs:2485-2500 | accepts exactly field lists without a repeated address |
| `Layout.AddressesContiguous` | mbus-macros/src/lib.rs:2502-2533 | accepts exactly the lists that fill the interval between smallest and largest address |
| `Layout.GaplessIsFull` | mbus-macros/src/lib.rs:2502-2533 | a map derived from such a list has a field at every address of its interval |
| `Layout.ChecksSort` | mbus-macros/src/lib.rs:1579-1596 | pairwise disjoint intervals that are adjacent in order are strictly ascending |
| `Layout.FullMapServes` | mbus-macros/src/lib.rs:866-938 | in a map without gaps `encode` and stores fail for no reason but the window or the room |
| `Layout.LayoutAccepted` | mbus-macros/src/lib.rs:1556-1596 | overlap and order checks together accept exactly the strictly ascending, disjoint layouts |
| `CodegenConfig.ValidateConfig` | mbus-codegen/src/lib.rs:87-118 | accepts exactly schema version 1 with distinct addresses per section and no writable input |
| `CodegenConfig.EntriesUnique` | mbus-codegen/src/lib.rs:543-554 | accepts exactly sections without a repeated address |
| `CodegenConfig.ReadOnlyIsNotWritable` | mbus-codegen/src/lib.rs:146-151 | in such a section no `ro` address is writable |
| `CodegenConfig.DispatchCalls` | mbus-codegen/src/lib.rs:556-558 | a write to an entry declared `wo` or `rw` calls exactly its own hook, else the section's, else none, with that address and value |
| `CodegenConfig.DispatchRefuses` | mbus-codegen/src/lib.rs:652-704 | an address that no entry declares `wo` or `rw` is refused without a hook |
| `CodegenProgram.PackedStored` | mbus-codegen/src/lib.rs:1030-1061 | FC0F past its hooks: a wrapping window stores nothing, any other one is stored as far as the payload goes; the whole window if and only if it does not wrap and the payload suffices |
| `CodegenProgram.ListStored` | mbus-codegen/src/lib.rs:1155-1183 | FC10 past its hooks: everything up to the wrap is stored, the whole window if and only if it does not wrap |
| `CodegenProgram.SingleStored` | mbus-codegen/src/lib.rs:1005-1026 | an accepted single write sets exactly its cell |
| `CodegenProgram.NamedStored` | mbus-codegen/src/lib.rs:1421-1434 | a named setter asks no hook and sets exactly its own entry's cell |
| `CodegenProgram.GetSees` | mbus-codegen/src/lib.rs:706-737 | a named getter reads its entry; an address-based one reads entries that are not `wo`, and nothing else |
| `CodegenProgram.OnlyWritable` | mbus-codegen/src/lib.rs:652-704 | whatever passes the dispatcher stores to writable entries only, wrapping windows and short payloads included |
| `CodegenProgram.CallsFor` | mbus-codegen/src/lib.rs:1041-1050 | hook i of a multi-cell write sees value i, at the start address plus i with wrap-around |
| `CodegenProgram.ReadSees` | mbus-codegen/src/lib.rs:984-999 | a read that `encode` accepts sees the whole window and changes nothing |
| `CodegenProgram.WrappedWriteIsLost` | mbus-codegen/src/lib.rs:1041-1060 | a concrete wrapping FC0F that is accepted and stores nothing |
| `CodegenRuns.Exclusive` | mbus-codegen/src/lib.rs:231-240 | in every interleaving an invocation is inside its critical section exactly while it holds the lock |
| `CodegenRuns.Serializable` | mbus-codegen/src/lib.rs:1041-1060 | every interleaving ends in the state of running the critical sections whole, one after the other, in lock order |
| `CodegenRuns.ReadsSnapshot` | mbus-codegen/src/lib.rs:984-999 | what an invocation reads is what it would read from one state of that serial execution |
| `CodegenRuns.AloneIsRun` | mbus-codegen/src/lib.rs:1015-1026 | the sequential execution of an entry point is one of the interleavings and leaves the lock free |
| `CodegenLaws.AppSerializable` | mbus-codegen/src/lib.rs:1041-1060 | all four data domains of an app show the same serial execution in lock order |
| `CodegenLaws.NoDeadlock` | mbus-codegen/src/lib.rs:391-400 | while an invocation has not ended, it or the holder of the lock can take its next step |
| `CodegenLaws.HookProtocol` | mbus-codegen/src/lib.rs:1041-1050 | in every interleaving an invocation's hooks are called in order and once each up to the first refusal, after which it does nothing more |
| `CodegenLaws.HookDecides` | mbus-codegen/src/lib.rs:652-704 | in every interleaving a step that calls a hook has that hook's own answer, one without a hook succeeds, and one without a writable entry is an address error |
| `CodegenLaws.HooksOutsideOwnLock` | mbus-codegen/src/lib.rs:395-410 | no hook runs while its own thread holds the lock |
| `CodegenLaws.HooksOutsideEveryLock` | mbus-codegen/src/lib.rs:395-410 | no C hook ever runs while any thread holds the lock, over all hooks and interleavings, if and only if no invocation that can get to a hook (every call before it has an entry) meets a second one whose addresses can all be served |
| `CodegenLaws.SilentWritersDoNotCollide` | mbus-codegen/src/lib.rs:652-704 | two writers to entries without a hook keep that property; with a hook on one of them it fails |
| `CodegenLaws.EffectiveIffPassed` | mbus-codegen/src/lib.rs:1015-1026 | the invocations in the lock order are exactly those past their hooks |
| `CodegenLaws.AllOrNothing` | mbus-codegen/src/lib.rs:1030-1061 | over every interleaving a whole, non-wrapping FC0F or FC10 enters the serial order with its full window, or not at all after a refusal |
| `CodegenLaws.OnlyWritableChange` | mbus-codegen/src/lib.rs:854-889 | over every interleaving a cell without a writable entry keeps its value unless its own named setter runs |
| `CodegenLaws.ReadOnlyKept` | mbus-codegen/src/lib.rs:146-151 | hence a cell declared `ro` in a validated config keeps its value |
| `CodegenLaws.ReadReturnsSnapshot` | mbus-codegen/src/lib.rs:984-999 | a finished read handler returns its window as of one point of the serial order |
| `CodegenApp.HookToException` | mbus-codegen/src/lib.rs:928-940 | each hook status has its own exception, in both directions |
| `CodegenApp.HookSeesPayload` | mbus-codegen/src/lib.rs:1043-1047 | the hook of coil i sees the bit that is to be stored there, and 0 behind the payload's end |
| `CodegenApp.App.WriteSingleCoil` | mbus-codegen/src/lib.rs:1005-1026 | FC05 as executed: the program's steps; an address without a writable entry is an address error; else the entry's hook, or the section's, decides, and the cell is stored exactly if it accepts |
| `CodegenApp.App.WriteMultipleCoils` | mbus-codegen/src/lib.rs:1030-1061 | FC0F as executed, with the hook loop over wrapped addresses and missing payload bits as 0 |
| `CodegenApp.App.WriteSingleRegister` | mbus-codegen/src/lib.rs:1130-1151 | FC06 as executed, ending the same way |
| `CodegenApp.App.WriteMultipleRegisters` | mbus-codegen/src/lib.rs:1155-1183 | FC10 as executed |
| `CodegenApp.App.SetCoil` | mbus-codegen/src/lib.rs:743-778 | the address-based coil setter as executed, ending the same way; any value but zero sets the coil |
| `CodegenApp.App.SetHoldingRegister` | mbus-codegen/src/lib.rs:854-889 | the address-based register setter as executed, ending the same way |
| `CodegenApp.App.SetNamedRegister` | mbus-codegen/src/lib.rs:1421-1434 | the named setter asks no hook and sets its own register |
| `CodegenApp.App.ReadCoils` | mbus-codegen/src/lib.rs:974-1001 | FC01 as executed: the packed coils, or an address exception for every failure |
| `CodegenApp.App.ReadHoldingRegisters` | mbus-codegen/src/lib.rs:1099-1126 | FC03 as executed |
| `CodegenApp.App.ModelInit` | mbus-codegen/src/lib.rs:1247-1249 | every cell gets its default |
| `DeviceId.Stream` | mbus-server/examples/device_id.rs:92-111 | a page holds the objects from the start id on in order, names the first one it does not hold, and could not hold that one too |
| `DeviceId.PageIsFull` | mbus-server/examples/device_id.rs:95-103 | the objects of a page fit the buffer, and with one more they would not |
| `DeviceId.Individual` | mbus-server/examples/device_id.rs:75-90 | exactly the requested object, or the right error and an untouched buffer |
| `DeviceId.ReadDeviceIdentification` | mbus-server/examples/device_id.rs:67-113 | code 4 answers with one object, every other code with a page, each with its header fields |
| `DeviceId.Walk` | mbus-server/examples/device_id.rs:138-147 | the object-walking loop computes the decoding, and where it would leave the buffer |
| `DeviceId.DecodeEncoded` | mbus-server/examples/device_id.rs:138-147 | decoding a page of at most 255 bytes gives back its objects |
| `DeviceId.Progress` | mbus-server/examples/device_id.rs:95-103 | a page takes at least one object if and only if its first object fits an empty page |
| `DeviceId.FetchPage` | mbus-server/examples/device_id.rs:92-147 | one request and its decoding give exactly the objects of that page |
| `DeviceId.PagingEnds` | mbus-server/examples/device_id.rs:95-103 | re-requesting from the reported id comes to an end if and only if every object fits an empty page |
| `DeviceId.FetchAll` | mbus-server/examples/device_id.rs:92-147 | then the decoded pages concatenate to exactly the objects from the start id on, in order and once each |
| `MapCompiler.ValidateBlocks` | mbus-server/build.rs:106-164 | accepts exactly non-empty 16-bit blocks with known access that are pairwise disjoint as address sets |
| `MapCompiler.OverlapIsShared` | mbus-server/build.rs:100-104 | two non-empty spans overlap by the end-point test if and only if they share an address |
| `MapCompiler.ValidateOverrides` | mbus-server/build.rs:166-178 | accepts exactly overrides that lie in some block |
| `MapCompiler.ValidateUnits` | mbus-server/build.rs:180-241 | accepts exactly configs with ids 1 to 247, such blocks, and overrides inside them |
| `MapCompiler.Generate` | mbus-server/build.rs:243-345 | each unit's slices select exactly its own blocks and overrides in order, and the slices of all units tile the arrays |
| `MapCompiler.OneBlockPerAddress` | mbus-server/build.rs:243-345 | in the generated arrays no address of a unit is served by two blocks |

## Left out

- Parsing of attributes, YAML and TOML, token and text rendering, error messages: only the meaning of the produced code is modelled.
- Scaled `f32` accessors, FIFO and file-record routing, statistics: a conversion, a one-step dispatch and counters, which would add only easy members.
- Client, gateway, transports, framing and checksums, foreign-function pointers and null checks, language bindings.
- CoilRouter.WriteMultipleCoils: if a batch hook is configured, requires a payload for the whole window and no map with more than 2016 bits of it, since the source indexes payload and scratch buffer unchecked; without a hook every payload and width is covered.
- RegisterRouter.WriteMultipleRegisters: requires fewer than 65536 values, since the source casts the remaining length to 16 bits.
- ReadRouter.ReadBits: says nothing about the response buffer after an error.
- CoilRouter.AskHook: hands the hook the bits of its segment instead of the packed slice; `CoilRouter.Repack` shows that the slice is determined by them.
- AsyncRouter.WriteSingleCoilArm: covers `notify_via_batch` although the macro rejects that setting for async apps.
- CodegenApp.App.WriteMultipleRegisters: requires at most 65536 values, since the derived map's index is cast to 16 bits.
- CodegenApp.App: executes the coil and holding-register handlers; the discrete-input and input-register handlers and the getters have the same form and are covered at the level of programs and interleavings. Which handlers are left unregistered for empty sections is not modelled.
- CodegenRuns.Serializable: starts after model initialisation, which the source performs without the lock.
- FlatAgreement.ReadWriteBoth: compares requests with counts in range and a full payload, since the flat device does not check counts and takes decoded registers.
- SyncAsync.RegistersAgree: compares requests of at most 125 registers with a full payload; what the async arm does otherwise is in its own contract.
- DeviceId.FetchAll: the client loop that follows `next_id` is the protocol's use of the handler; the example itself asks once.
- MapCompiler.ValidateBlocks: an empty block at address 0 makes the source's 32-bit subtraction wrap or, with overflow checks, stop the build; the model wraps, and the block is refused either way.
- FlatDevice.FlatApp.WriteMultipleCoils: requires a payload for a window within bounds, which the source indexes unchecked.
