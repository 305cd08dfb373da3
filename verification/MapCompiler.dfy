/** The server's memory-map build step: validation of units and their flattening into shared arrays. */
module MapCompiler {
  import opened AddressSpace

  datatype AccessMode = ReadOnly | ReadWrite

  /** A block as configured, with its access mode still a string. */
  datatype RawBlock<V> = RawBlock(start: u16, quantity: u16, default: V, access: string)

  datatype Override<V> = Override(address: u16, value: V)

  datatype RawSection<V> = RawSection(blocks: seq<RawBlock<V>>, overrides: seq<Override<V>>)

  datatype Unit = Unit(id: nat, coils: RawSection<bool>, discreteInputs: RawSection<bool>,
                       holding: RawSection<bv16>, inputs: RawSection<bv16>)

  /** `parse_access_mode`. */
  function ParseAccess(access: string): Option<AccessMode>
  {
    if access == "r" then Some(ReadOnly) else if access == "rw" then Some(ReadWrite) else None
  }

  ghost predicate InSpan<V>(b: RawBlock<V>, a: int)
  {
    b.start <= a < b.start + b.quantity
  }

  /** The addresses a block claims. */
  ghost function Claims<V>(b: RawBlock<V>): iset<int>
  {
    iset a | InSpan(b, a)
  }

  /** A block that can be served: it has addresses, all of them 16 bits wide, and a known access mode. */
  ghost predicate BlockOk<V>(b: RawBlock<V>)
  {
    Claims(b) != iset{} && (forall a :: a in Claims(b) ==> 0 <= a <= 0xFFFF) && (b.access == "r" || b.access == "rw")
  }

  ghost predicate BlocksOk<V>(blocks: seq<RawBlock<V>>)
  {
    && (forall i :: 0 <= i < |blocks| ==> BlockOk(blocks[i]))
    && (forall i, j :: 0 <= i < j < |blocks| ==> Claims(blocks[i]) !! Claims(blocks[j]))
  }

  ghost predicate Claimed<V>(blocks: seq<RawBlock<V>>, a: int)
  {
    exists i :: 0 <= i < |blocks| && a in Claims(blocks[i])
  }

  ghost predicate OverridesOk<V>(s: RawSection<V>)
  {
    forall i :: 0 <= i < |s.overrides| ==> Claimed(s.blocks, s.overrides[i].address)
  }

  ghost predicate UnitOk(u: Unit)
  {
    && 1 <= u.id <= 247
    && BlocksOk(u.coils.blocks) && BlocksOk(u.discreteInputs.blocks)
    && BlocksOk(u.holding.blocks) && BlocksOk(u.inputs.blocks)
    && OverridesOk(u.coils) && OverridesOk(u.discreteInputs) && OverridesOk(u.holding) && OverridesOk(u.inputs)
  }

  /** `start as u32 + quantity as u32 - 1`, which wraps for an empty block at address 0. */
  function LastAddress(start: u16, quantity: u16): (r: int)
    ensures start + quantity > 0 ==> r == start + quantity - 1
  {
    (start + quantity - 1) % 0x1_0000_0000
  }

  /** `validate_span`. */
  function SpanFits(start: u16, quantity: u16): bool
  {
    quantity != 0 && LastAddress(start, quantity) <= 0xFFFF
  }

  lemma SpanFitsIsOk<V>(b: RawBlock<V>)
    ensures SpanFits(b.start, b.quantity) && ParseAccess(b.access).Some? <==> BlockOk(b)
  {
    if b.quantity != 0 {
      assert b.start in Claims(b);
      var last := b.start + b.quantity - 1;
      assert last in Claims(b);
    }
  }

  /** `spans_overlap`. */
  function SpansOverlap(start: u16, quantity: u16, otherStart: u16, otherQuantity: u16): bool
  {
    !(LastAddress(start, quantity) < otherStart || LastAddress(otherStart, otherQuantity) < start)
  }

  /** The test is right for blocks that have addresses; an empty block is refused on its own account. */
  lemma OverlapIsShared<V>(a: RawBlock<V>, b: RawBlock<V>)
    requires a.quantity != 0 && b.quantity != 0
    ensures SpansOverlap(a.start, a.quantity, b.start, b.quantity) <==> !(Claims(a) !! Claims(b))
  {
    if SpansOverlap(a.start, a.quantity, b.start, b.quantity) {
      var x := if a.start <= b.start then b.start else a.start;
      assert x in Claims(a) && x in Claims(b);
    }
  }

  /** `validate_non_overlapping_bit_blocks` and `validate_non_overlapping_reg_blocks`. */
  method ValidateBlocks<V>(blocks: seq<RawBlock<V>>) returns (ok: bool)
    ensures ok <==> BlocksOk(blocks)
  {
    for i := 0 to |blocks|
      invariant forall k :: 0 <= k < i ==> BlockOk(blocks[k])
      invariant forall k, l :: 0 <= k < i && k < l < |blocks| && blocks[l].quantity != 0 ==> Claims(blocks[k]) !! Claims(blocks[l])
    {
      var lhs := blocks[i];
      SpanFitsIsOk(lhs);
      if !SpanFits(lhs.start, lhs.quantity) { return false; }
      if ParseAccess(lhs.access).None? { return false; }
      for j := i + 1 to |blocks|
        invariant forall l :: i < l < j && blocks[l].quantity != 0 ==> Claims(lhs) !! Claims(blocks[l])
      {
        var rhs := blocks[j];
        if rhs.quantity != 0 { OverlapIsShared(lhs, rhs); } else { SpanFitsIsOk(rhs); }
        if SpansOverlap(lhs.start, lhs.quantity, rhs.start, rhs.quantity) { return false; }
      }
    }
    return true;
  }

  /** `bit_override_in_any_block` and `reg_override_in_any_block`. */
  predicate OverrideInAnyBlock<V>(address: u16, blocks: seq<RawBlock<V>>)
  {
    exists i :: 0 <= i < |blocks| && blocks[i].start <= address <= LastAddress(blocks[i].start, blocks[i].quantity)
  }

  method ValidateOverrides<V>(s: RawSection<V>) returns (ok: bool)
    requires BlocksOk(s.blocks)
    ensures ok <==> OverridesOk(s)
  {
    forall i | 0 <= i < |s.blocks|
      ensures s.blocks[i].quantity != 0
    {
      SpanFitsIsOk(s.blocks[i]);
    }
    for i := 0 to |s.overrides|
      invariant forall k :: 0 <= k < i ==> Claimed(s.blocks, s.overrides[k].address)
    {
      ClaimedIsInBlock(s.overrides[i].address, s.blocks);
      if !OverrideInAnyBlock(s.overrides[i].address, s.blocks) { return false; }
    }
    return true;
  }

  lemma ClaimedIsInBlock<V>(address: u16, blocks: seq<RawBlock<V>>)
    requires forall i :: 0 <= i < |blocks| ==> blocks[i].quantity != 0
    ensures OverrideInAnyBlock(address, blocks) <==> Claimed(blocks, address)
  {
    if OverrideInAnyBlock(address, blocks) {
      var i :| 0 <= i < |blocks| && blocks[i].start <= address <= LastAddress(blocks[i].start, blocks[i].quantity);
      assert address in Claims(blocks[i]);
    }
    if Claimed(blocks, address) {
      var i :| 0 <= i < |blocks| && address in Claims(blocks[i]);
      assert blocks[i].start <= address <= LastAddress(blocks[i].start, blocks[i].quantity);
    }
  }

  /** The checks of one unit, in order: id, the blocks of every section, then the overrides. */
  method ValidateUnit(u: Unit) returns (ok: bool)
    ensures ok <==> UnitOk(u)
  {
    if u.id == 0 || u.id > 247 { return false; }
    ok := ValidateBlocks(u.coils.blocks);
    if !ok { return; }
    ok := ValidateBlocks(u.discreteInputs.blocks);
    if !ok { return; }
    ok := ValidateBlocks(u.holding.blocks);
    if !ok { return; }
    ok := ValidateBlocks(u.inputs.blocks);
    if !ok { return; }
    ok := ValidateOverrides(u.coils);
    if !ok { return; }
    ok := ValidateOverrides(u.discreteInputs);
    if !ok { return; }
    ok := ValidateOverrides(u.holding);
    if !ok { return; }
    ok := ValidateOverrides(u.inputs);
  }

  /** `validate_config`. */
  method ValidateUnits(units: seq<Unit>) returns (ok: bool)
    ensures ok <==> forall i :: 0 <= i < |units| ==> UnitOk(units[i])
  {
    for i := 0 to |units|
      invariant forall k :: 0 <= k < i ==> UnitOk(units[k])
    {
      ok := ValidateUnit(units[i]);
      if !ok { return; }
    }
    return true;
  }

  /** A block in the generated arrays. */
  datatype MapBlock<V> = MapBlock(start: u16, quantity: u16, default: V, access: AccessMode)

  /** The generated arrays of one data domain, shared by all units. */
  datatype Arrays<V> = Arrays(blocks: seq<MapBlock<V>>, overrides: seq<Override<V>>)

  datatype SectionSlice = SectionSlice(blockStart: nat, blockCount: nat, overrideStart: nat, overrideCount: nat)

  datatype UnitDescriptor = UnitDescriptor(id: nat, coils: SectionSlice, discreteInputs: SectionSlice,
                                           holding: SectionSlice, inputs: SectionSlice)

  /** The generated block says what the configured one says. */
  ghost predicate Compiles<V>(raw: RawBlock<V>, b: MapBlock<V>)
  {
    && b.start == raw.start && b.quantity == raw.quantity && b.default == raw.default
    && (raw.access == "r" ==> b.access == ReadOnly)
    && (raw.access == "rw" ==> b.access == ReadWrite)
  }

  /** The slice lies in the arrays and selects exactly the section's blocks and overrides, in order. */
  ghost predicate Selects<V>(arrays: Arrays<V>, slice: SectionSlice, s: RawSection<V>)
  {
    && slice.blockStart + slice.blockCount <= |arrays.blocks| && slice.blockCount == |s.blocks|
    && (forall i :: 0 <= i < |s.blocks| ==> Compiles(s.blocks[i], arrays.blocks[slice.blockStart + i]))
    && slice.overrideStart + slice.overrideCount <= |arrays.overrides|
    && arrays.overrides[slice.overrideStart..slice.overrideStart + slice.overrideCount] == s.overrides
  }

  /** The slice starts where `before` ends, in both arrays. */
  ghost predicate Follows<V>(before: Arrays<V>, slice: SectionSlice, after: Arrays<V>)
  {
    && slice.blockStart == |before.blocks| && slice.overrideStart == |before.overrides|
    && |after.blocks| == slice.blockStart + slice.blockCount && |after.overrides| == slice.overrideStart + slice.overrideCount
    && before.blocks <= after.blocks && before.overrides <= after.overrides
  }

  lemma SelectsLonger<V>(arrays: Arrays<V>, slice: SectionSlice, s: RawSection<V>, longer: Arrays<V>)
    requires Selects(arrays, slice, s) && arrays.blocks <= longer.blocks && arrays.overrides <= longer.overrides
    ensures Selects(longer, slice, s)
  {
    forall i | 0 <= i < |s.blocks|
      ensures Compiles(s.blocks[i], longer.blocks[slice.blockStart + i])
    {
      assert Compiles(s.blocks[i], arrays.blocks[slice.blockStart + i]);
    }
  }

  /** Appends one unit's section to the arrays. */
  method AppendSection<V>(arrays: Arrays<V>, s: RawSection<V>) returns (grown: Arrays<V>, slice: SectionSlice)
    requires BlocksOk(s.blocks)
    ensures Follows(arrays, slice, grown) && Selects(grown, slice, s)
  {
    var blocks := arrays.blocks;
    var blockStart := |blocks|;
    for i := 0 to |s.blocks|
      invariant |blocks| == blockStart + i && arrays.blocks <= blocks
      invariant forall k :: 0 <= k < i ==> Compiles(s.blocks[k], blocks[blockStart + k])
    {
      var b := s.blocks[i];
      assert BlockOk(b);
      blocks := blocks + [MapBlock(b.start, b.quantity, b.default, ParseAccess(b.access).value)];
    }
    var overrides := arrays.overrides;
    var overrideStart := |overrides|;
    for i := 0 to |s.overrides|
      invariant overrides == arrays.overrides + s.overrides[..i]
    {
      overrides := overrides + [s.overrides[i]];
    }
    grown := Arrays(blocks, overrides);
    slice := SectionSlice(blockStart, |s.blocks|, overrideStart, |s.overrides|);
  }

  /** The slices of all units tile the arrays in unit order: each starts where the one before it ends. */
  ghost predicate Tiles(slices: seq<SectionSlice>, blocks: nat, overrides: nat)
  {
    if slices == [] then blocks == 0 && overrides == 0
    else
      var last := slices[|slices| - 1];
      && last.blockStart + last.blockCount == blocks && last.overrideStart + last.overrideCount == overrides
      && Tiles(slices[..|slices| - 1], last.blockStart, last.overrideStart)
  }

  lemma TilesMore<V>(slices: seq<SectionSlice>, before: Arrays<V>, slice: SectionSlice, after: Arrays<V>)
    requires Tiles(slices, |before.blocks|, |before.overrides|) && Follows(before, slice, after)
    ensures Tiles(slices + [slice], |after.blocks|, |after.overrides|)
  {
    assert (slices + [slice])[..|slices|] == slices;
  }

  /** One data domain of the first `n` units is in the arrays, slice by slice. */
  ghost predicate Holds<V>(arrays: Arrays<V>, slices: seq<SectionSlice>, sections: seq<RawSection<V>>)
  {
    && |slices| == |sections| && Tiles(slices, |arrays.blocks|, |arrays.overrides|)
    && forall k :: 0 <= k < |slices| ==> Selects(arrays, slices[k], sections[k])
  }

  lemma HoldsMore<V>(before: Arrays<V>, slices: seq<SectionSlice>, sections: seq<RawSection<V>>,
                     slice: SectionSlice, s: RawSection<V>, after: Arrays<V>)
    requires Holds(before, slices, sections) && Follows(before, slice, after) && Selects(after, slice, s)
    ensures Holds(after, slices + [slice], sections + [s])
  {
    TilesMore(slices, before, slice, after);
    forall k | 0 <= k < |slices|
      ensures Selects(after, slices[k], sections[k])
    {
      SelectsLonger(before, slices[k], sections[k], after);
    }
  }

  /** The generated map: four pairs of arrays and one descriptor per unit. */
  datatype Generated = Generated(coils: Arrays<bool>, discreteInputs: Arrays<bool>, holding: Arrays<bv16>, inputs: Arrays<bv16>,
                                 units: seq<UnitDescriptor>)

  datatype Domain = Coils | DiscreteInputs | HoldingRegisters | InputRegisters

  function SliceIn(d: UnitDescriptor, domain: Domain): SectionSlice
  {
    match domain
    case Coils => d.coils
    case DiscreteInputs => d.discreteInputs
    case HoldingRegisters => d.holding
    case InputRegisters => d.inputs
  }

  function Slices(units: seq<UnitDescriptor>, domain: Domain): seq<SectionSlice>
  {
    seq(|units|, k requires 0 <= k < |units| => SliceIn(units[k], domain))
  }

  function BitSections(units: seq<Unit>, domain: Domain): seq<RawSection<bool>>
  {
    seq(|units|, k requires 0 <= k < |units| => if domain.Coils? then units[k].coils else units[k].discreteInputs)
  }

  function WordSections(units: seq<Unit>, domain: Domain): seq<RawSection<bv16>>
  {
    seq(|units|, k requires 0 <= k < |units| => if domain.HoldingRegisters? then units[k].holding else units[k].inputs)
  }

  /**
    Every unit keeps its id and finds exactly its own blocks and overrides through its slices,
    which tile the arrays.
   */
  ghost predicate Faithful(units: seq<Unit>, g: Generated)
  {
    && |g.units| == |units| && (forall k :: 0 <= k < |units| ==> g.units[k].id == units[k].id)
    && Holds(g.coils, Slices(g.units, Coils), BitSections(units, Coils))
    && Holds(g.discreteInputs, Slices(g.units, DiscreteInputs), BitSections(units, DiscreteInputs))
    && Holds(g.holding, Slices(g.units, HoldingRegisters), WordSections(units, HoldingRegisters))
    && Holds(g.inputs, Slices(g.units, InputRegisters), WordSections(units, InputRegisters))
  }

  /** One more unit, given how each data domain grew. */
  lemma FaithfulMore(units: seq<Unit>, g: Generated, u: Unit, d: UnitDescriptor, after: Generated)
    requires Faithful(units, g) && d.id == u.id && after.units == g.units + [d]
    requires Follows(g.coils, d.coils, after.coils) && Selects(after.coils, d.coils, u.coils)
    requires Follows(g.discreteInputs, d.discreteInputs, after.discreteInputs)
    requires Selects(after.discreteInputs, d.discreteInputs, u.discreteInputs)
    requires Follows(g.holding, d.holding, after.holding) && Selects(after.holding, d.holding, u.holding)
    requires Follows(g.inputs, d.inputs, after.inputs) && Selects(after.inputs, d.inputs, u.inputs)
    ensures Faithful(units + [u], after)
  {
    HoldsMore(g.coils, Slices(g.units, Coils), BitSections(units, Coils), d.coils, u.coils, after.coils);
    HoldsMore(g.discreteInputs, Slices(g.units, DiscreteInputs), BitSections(units, DiscreteInputs),
              d.discreteInputs, u.discreteInputs, after.discreteInputs);
    HoldsMore(g.holding, Slices(g.units, HoldingRegisters), WordSections(units, HoldingRegisters),
              d.holding, u.holding, after.holding);
    HoldsMore(g.inputs, Slices(g.units, InputRegisters), WordSections(units, InputRegisters), d.inputs, u.inputs, after.inputs);
    SlicesMore(g.units, d);
    SectionsMore(units, u);
  }

  lemma SlicesMore(ds: seq<UnitDescriptor>, d: UnitDescriptor)
    ensures forall domain :: Slices(ds + [d], domain) == Slices(ds, domain) + [SliceIn(d, domain)]
  {
  }

  lemma SectionsMore(units: seq<Unit>, u: Unit)
    ensures BitSections(units + [u], Coils) == BitSections(units, Coils) + [u.coils]
    ensures BitSections(units + [u], DiscreteInputs) == BitSections(units, DiscreteInputs) + [u.discreteInputs]
    ensures WordSections(units + [u], HoldingRegisters) == WordSections(units, HoldingRegisters) + [u.holding]
    ensures WordSections(units + [u], InputRegisters) == WordSections(units, InputRegisters) + [u.inputs]
  {
  }

  /** The loop body of `write_generated`: one unit joins the arrays and gets its descriptor. */
  method AppendUnit(g: Generated, u: Unit, ghost units: seq<Unit>) returns (after: Generated)
    requires UnitOk(u) && Faithful(units, g)
    ensures Faithful(units + [u], after)
  {
    var coils, coilSlice := AppendSection(g.coils, u.coils);
    var discrete, discreteSlice := AppendSection(g.discreteInputs, u.discreteInputs);
    var holding, holdingSlice := AppendSection(g.holding, u.holding);
    var inputs, inputSlice := AppendSection(g.inputs, u.inputs);
    var d := UnitDescriptor(u.id, coilSlice, discreteSlice, holdingSlice, inputSlice);
    after := Generated(coils, discrete, holding, inputs, g.units + [d]);
    FaithfulMore(units, g, u, d, after);
  }

  /** `write_generated` for units that passed validation. */
  method Generate(units: seq<Unit>) returns (g: Generated)
    requires forall i :: 0 <= i < |units| ==> UnitOk(units[i])
    ensures Faithful(units, g)
  {
    g := Generated(Arrays([], []), Arrays([], []), Arrays([], []), Arrays([], []), []);
    for i := 0 to |units|
      invariant Faithful(units[..i], g)
    {
      g := AppendUnit(g, units[i], units[..i]);
      assert units[..i + 1] == units[..i] + [units[i]];
    }
    assert units[..|units|] == units;
  }

  /** In the arrays of a valid section every address is served by at most one block. */
  lemma OneBlockPerAddress<V>(arrays: Arrays<V>, slice: SectionSlice, s: RawSection<V>, i: nat, j: nat, a: int)
    requires BlocksOk(s.blocks) && Selects(arrays, slice, s)
    requires slice.blockStart <= i < slice.blockStart + slice.blockCount
    requires slice.blockStart <= j < slice.blockStart + slice.blockCount
    requires arrays.blocks[i].start <= a < arrays.blocks[i].start + arrays.blocks[i].quantity
    requires arrays.blocks[j].start <= a < arrays.blocks[j].start + arrays.blocks[j].quantity
    ensures i == j
  {
    var k, l := i - slice.blockStart, j - slice.blockStart;
    assert Compiles(s.blocks[k], arrays.blocks[slice.blockStart + k]);
    assert Compiles(s.blocks[l], arrays.blocks[slice.blockStart + l]);
    assert a in Claims(s.blocks[k]) && a in Claims(s.blocks[l]);
  }
}
