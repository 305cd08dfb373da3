/** Addresses, errors and the flat view of a data domain: one partial map from address to value. */
module AddressSpace {

  type u16 = x: int | 0 <= x < 0x1_0000

  datatype Option<+T> = None | Some(value: T)

  /** The errors the generated server code can produce; `Other` stands for the remaining ones a hook may return. */
  datatype MbusError =
    | InvalidAddress | InvalidSlaveAddress | InvalidQuantity | InvalidByteCount | InvalidValue
    | BufferTooSmall | Other(code: nat)

  datatype Result<+T> = Ok(value: T) | Err(error: MbusError)

  function Min(a: int, b: int): int
  {
    if a <= b then a else b
  }

  /** The address interval `ADDR_MIN..=ADDR_MAX` of one map. */
  datatype Range = Range(lo: u16, hi: u16)
  {
    predicate Has(a: int) { lo <= a <= hi }
  }

  /** The value of one map: its interval and its cells. Cells may leave holes in the interval. */
  datatype Block<V> = Block(range: Range, cells: map<int, V>)
  {
    ghost predicate Valid()
    {
      range.lo <= range.hi && forall a :: a in cells ==> range.Has(a)
    }
  }

  ghost predicate Sorted(ranges: seq<Range>)
  {
    && (forall i :: 0 <= i < |ranges| ==> ranges[i].lo <= ranges[i].hi)
    && (forall i, j :: 0 <= i < j < |ranges| ==> ranges[i].hi < ranges[j].lo)
  }

  /** The nested if-else of the generated routes from map `from` on: the first map whose interval holds `a`. */
  function PickFrom(ranges: seq<Range>, a: int, from: nat): (i: nat)
    requires from <= |ranges|
    ensures from <= i <= |ranges|
    ensures i < |ranges| ==> ranges[i].Has(a)
    decreases |ranges| - from
  {
    if from == |ranges| || ranges[from].Has(a) then from else PickFrom(ranges, a, from + 1)
  }

  function Pick(ranges: seq<Range>, a: int): (i: nat)
    ensures i <= |ranges|
    ensures i < |ranges| ==> ranges[i].Has(a)
  {
    PickFrom(ranges, a, 0)
  }

  lemma {:induction false} PickFirst(ranges: seq<Range>, a: int, from: nat, j: nat)
    requires from <= j < |ranges| && ranges[j].Has(a)
    ensures PickFrom(ranges, a, from) <= j
    decreases j - from
  {
    if from < j {
      PickFirst(ranges, a, from + 1, j);
    }
  }

  lemma PickUnique(ranges: seq<Range>, a: int, i: nat)
    requires Sorted(ranges) && i < |ranges| && ranges[i].Has(a)
    ensures Pick(ranges, a) == i
  {
    PickFirst(ranges, a, 0, i);
  }

  ghost predicate Covered(ranges: seq<Range>, a: int)
  {
    Pick(ranges, a) < |ranges|
  }

  /** The first address from `at` on that is not mapped, or `end` if all before it are. */
  function Reach(keys: set<int>, at: int, end: int): (r: int)
    requires at <= end
    ensures at <= r <= end
    decreases end - at
  {
    if at == end || at !in keys then at else Reach(keys, at + 1, end)
  }

  lemma {:induction false} ReachMapped(keys: set<int>, at: int, end: int)
    requires at <= end
    ensures var r := Reach(keys, at, end);
            && (forall a :: at <= a < r ==> a in keys)
            && (r < end ==> r !in keys)
    decreases end - at
  {
    if at < end && at in keys { ReachMapped(keys, at + 1, end); }
  }

  lemma ReachUnique(keys: set<int>, at: int, end: int, r: int)
    requires at <= r <= end && (r < end ==> r !in keys)
    requires forall a :: at <= a < r ==> a in keys
    ensures Reach(keys, at, end) == r
  {
    ReachMapped(keys, at, end);
    var g := Reach(keys, at, end);
    assert g < r ==> g in keys;
    assert r < g ==> r in keys;
  }

  lemma {:induction false} ReachOn(keys: set<int>, at: int, mid: int, end: int)
    requires at <= mid <= end && Reach(keys, at, mid) == mid
    ensures Reach(keys, at, end) == Reach(keys, mid, end)
    decreases mid - at
  {
    if at < mid { ReachOn(keys, at + 1, mid, end); }
  }

  lemma {:induction false} ReachStop(keys: set<int>, at: int, mid: int, end: int)
    requires at <= mid <= end && Reach(keys, at, mid) < mid
    ensures Reach(keys, at, end) == Reach(keys, at, mid)
    decreases mid - at
  {
    if at in keys { ReachStop(keys, at + 1, mid, end); }
  }

  lemma {:induction false} ReachFull(keys: set<int>, at: int, mid: int, end: int)
    requires at <= end && at <= mid <= Reach(keys, at, end)
    ensures Reach(keys, at, mid) == mid
    decreases mid - at
  {
    if at < mid { ReachFull(keys, at + 1, mid, end); }
  }

  ghost predicate AllMapped<V>(m: map<int, V>, at: int, end: int)
  {
    forall a :: at <= a < end ==> a in m
  }

  /** The values at the addresses from `at` up to `end`. */
  function Read<V>(m: map<int, V>, at: int, end: int): (r: seq<V>)
    requires at <= end && AllMapped(m, at, end)
    ensures |r| == end - at
  {
    seq(end - at, i requires 0 <= i < end - at => m[at + i])
  }

  /** `m` with `values` written from `at` on. Unmapped addresses stay unmapped, so the domain never changes. */
  function Overlay<V>(m: map<int, V>, at: int, values: seq<V>): (r: map<int, V>)
    ensures r.Keys == m.Keys
  {
    map a | a in m.Keys :: if at <= a < at + |values| then values[a - at] else m[a]
  }

  lemma OverlayJoin<V>(m: map<int, V>, at: int, first: seq<V>, second: seq<V>)
    ensures Overlay(Overlay(m, at, first), at + |first|, second) == Overlay(m, at, first + second)
  {
  }

  lemma ReadOverlay<V>(m: map<int, V>, at: int, end: int, values: seq<V>)
    requires end == at + |values| && AllMapped(m, at, end)
    ensures Read(Overlay(m, at, values), at, end) == values
  {
  }

  function Ranges<V>(blocks: seq<Block<V>>): (r: seq<Range>)
    ensures |r| == |blocks| && forall i :: 0 <= i < |blocks| ==> r[i] == blocks[i].range
  {
    seq(|blocks|, i requires 0 <= i < |blocks| => blocks[i].range)
  }

  ghost predicate ValidBlocks<V>(blocks: seq<Block<V>>)
  {
    Sorted(Ranges(blocks)) && forall i :: 0 <= i < |blocks| ==> blocks[i].Valid()
  }

  /** The flat contents of the first `n` maps. */
  function FlatOf<V>(blocks: seq<Block<V>>, n: nat): map<int, V>
    requires n <= |blocks|
  {
    if n == 0 then map[] else FlatOf(blocks, n - 1) + blocks[n - 1].cells
  }

  /** The flat contents of a list of maps. */
  function Flat<V>(blocks: seq<Block<V>>): map<int, V>
  {
    FlatOf(blocks, |blocks|)
  }

  lemma {:induction false} FlatOwner<V>(blocks: seq<Block<V>>, n: nat, a: int) returns (i: nat)
    requires n <= |blocks| && a in FlatOf(blocks, n)
    ensures i < n && a in blocks[i].cells && FlatOf(blocks, n)[a] == blocks[i].cells[a]
  {
    if a in blocks[n - 1].cells { i := n - 1; } else { i := FlatOwner(blocks, n - 1, a); }
  }

  lemma {:induction false} FlatHas<V>(blocks: seq<Block<V>>, n: nat, a: int, i: nat)
    requires i < n <= |blocks| && a in blocks[i].cells
    ensures a in FlatOf(blocks, n)
  {
    if i < n - 1 { FlatHas(blocks, n - 1, a, i); }
  }

  /** Every flat cell lies in the interval of one map. */
  lemma FlatCovered<V>(blocks: seq<Block<V>>, a: int)
    requires ValidBlocks(blocks) && a in Flat(blocks)
    ensures Covered(Ranges(blocks), a)
  {
    var i := FlatOwner(blocks, |blocks|, a);
    PickUnique(Ranges(blocks), a, i);
  }

  /** Inside the interval of map `i` the flat view is that map's own cells. */
  lemma FlatInside<V>(blocks: seq<Block<V>>, i: nat, a: int)
    requires ValidBlocks(blocks) && i < |blocks| && blocks[i].range.Has(a)
    ensures a in Flat(blocks) <==> a in blocks[i].cells
    ensures a in Flat(blocks) ==> Flat(blocks)[a] == blocks[i].cells[a]
  {
    PickUnique(Ranges(blocks), a, i);
    if a in Flat(blocks) {
      var j := FlatOwner(blocks, |blocks|, a);
      PickUnique(Ranges(blocks), a, j);
    }
    if a in blocks[i].cells {
      FlatHas(blocks, |blocks|, a, i);
    }
  }

  /** The addresses from `at` up to `end` all lie in the range. */
  ghost predicate Inside(range: Range, at: int, end: int)
  {
    range.lo <= at <= end <= range.hi + 1
  }

  /** Where the addresses from `at` on meet the range. */
  function FirstIn(range: Range, at: int): int
  {
    if at <= range.lo then range.lo else at
  }

  /** How many of the addresses from `at` up to `end` lie in the range, if any do. */
  function Width(range: Range, at: int, end: int): int
  {
    Min(end, range.hi + 1) - FirstIn(range, at)
  }

  lemma ReplaceCells<V>(blocks: seq<Block<V>>, i: nat, cells: map<int, V>)
    requires ValidBlocks(blocks) && i < |blocks| && cells.Keys == blocks[i].cells.Keys
    ensures ValidBlocks(blocks[i := blocks[i].(cells := cells)])
    ensures Ranges(blocks[i := blocks[i].(cells := cells)]) == Ranges(blocks)
  {
  }

  lemma FlatUpdateAt<V>(blocks: seq<Block<V>>, after: seq<Block<V>>, i: nat, at: int, end: int, values: seq<V>, a: int)
    requires ValidBlocks(blocks) && ValidBlocks(after) && Ranges(after) == Ranges(blocks)
    requires i < |blocks| && Inside(blocks[i].range, at, end) && |values| == end - at
    requires after == blocks[i := blocks[i].(cells := Overlay(blocks[i].cells, at, values))]
    ensures a in Flat(after) <==> a in Flat(blocks)
    ensures a in Flat(after) ==> Flat(after)[a] == Overlay(Flat(blocks), at, values)[a]
  {
    var p := Pick(Ranges(blocks), a);
    if p == |blocks| {
      if a in Flat(after) { FlatCovered(after, a); }
      if a in Flat(blocks) { FlatCovered(blocks, a); }
    } else {
      FlatInside(blocks, p, a);
      FlatInside(after, p, a);
      if at <= a < end {
        PickUnique(Ranges(blocks), a, i);
      }
    }
  }

  /** Writing part of one map's interval is the same write on the flat view. */
  lemma FlatUpdate<V>(blocks: seq<Block<V>>, i: nat, at: int, end: int, values: seq<V>)
    requires ValidBlocks(blocks) && i < |blocks| && Inside(blocks[i].range, at, end) && |values| == end - at
    ensures var after := blocks[i := blocks[i].(cells := Overlay(blocks[i].cells, at, values))];
            && ValidBlocks(after)
            && Ranges(after) == Ranges(blocks)
            && Flat(after) == Overlay(Flat(blocks), at, values)
  {
    var after := blocks[i := blocks[i].(cells := Overlay(blocks[i].cells, at, values))];
    ReplaceCells(blocks, i, Overlay(blocks[i].cells, at, values));
    forall a
      ensures a in Flat(after) <==> a in Flat(blocks)
      ensures a in Flat(after) ==> Flat(after)[a] == Overlay(Flat(blocks), at, values)[a]
    {
      FlatUpdateAt(blocks, after, i, at, end, values, a);
    }
  }

  /** A window inside one map looks the same from the map and from the flat view. */
  lemma FlatReach<V>(blocks: seq<Block<V>>, i: nat, at: int, end: int)
    requires ValidBlocks(blocks) && i < |blocks| && Inside(blocks[i].range, at, end)
    ensures Reach(blocks[i].cells.Keys, at, end) == Reach(Flat(blocks).Keys, at, end)
    ensures AllMapped(blocks[i].cells, at, end) <==> AllMapped(Flat(blocks), at, end)
    ensures AllMapped(Flat(blocks), at, end) ==> Read(blocks[i].cells, at, end) == Read(Flat(blocks), at, end)
  {
    forall a | at <= a < end
      ensures a in Flat(blocks) <==> a in blocks[i].cells
      ensures a in Flat(blocks) ==> Flat(blocks)[a] == blocks[i].cells[a]
    {
      FlatInside(blocks, i, a);
    }
    ReachMapped(blocks[i].cells.Keys, at, end);
    ReachUnique(Flat(blocks).Keys, at, end, Reach(blocks[i].cells.Keys, at, end));
  }
}
