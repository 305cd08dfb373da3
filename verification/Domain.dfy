/**
  One data domain of a `#[modbus_app]` struct: its maps in declaration order, its write hooks, and
  what happened so far.
 */
module Domain {
  import opened AddressSpace
  import opened WriteRoute
  import opened Maps

  /** `on_write_N`: address, old value, new value. */
  type SingleFn<!V> = (History<V>, u16, V, V) -> Result<()>

  ghost function Values<V>(maps: seq<AddressMap<V>>): (r: seq<Block<V>>)
    reads maps
    ensures |r| == |maps| && forall i :: 0 <= i < |maps| ==> r[i] == maps[i].Value()
  {
    seq(|maps|, i requires 0 <= i < |maps| reads maps => maps[i].Value())
  }

  /** The first `n` maps are well-formed, have the declared intervals, and ascend without overlap. */
  ghost predicate Chained<V>(maps: seq<AddressMap<V>>, layout: seq<Range>, n: nat)
    requires n <= |maps| == |layout|
    reads maps
  {
    n == 0 ||
    (&& Chained(maps, layout, n - 1)
     && maps[n - 1].Valid() && maps[n - 1].range == layout[n - 1]
     && (n >= 2 ==> layout[n - 2].hi < layout[n - 1].lo))
  }

  ghost function CellsOf<V>(maps: seq<AddressMap<V>>, n: nat): map<int, V>
    requires n <= |maps|
    reads maps
  {
    if n == 0 then map[] else CellsOf(maps, n - 1) + maps[n - 1].cells
  }

  class Bank<V> {
    const maps: seq<AddressMap<V>>
    const layout: seq<Range>
    const batch: Option<BatchHook<V>>
    const single: map<int, SingleFn<V>>
    var log: History<V>

    constructor (maps: seq<AddressMap<V>>, layout: seq<Range>, batch: Option<BatchHook<V>>, single: map<int, SingleFn<V>>)
      requires |maps| == |layout| && Chained(maps, layout, |maps|)
      ensures this.maps == maps && this.layout == layout && this.batch == batch && this.single == single
      ensures this.log == Start
      ensures Valid()
    {
      this.maps, this.layout, this.batch, this.single, this.log := maps, layout, batch, single, Start;
    }

    /**
      The maps are the ones the layout checks accept. Distinct intervals make them distinct
      objects, as in the owning struct.
     */
    ghost predicate Valid()
      reads this, maps
    {
      |maps| == |layout| && Chained(maps, layout, |maps|)
    }

    /** The domain as one partial map from address to value. */
    ghost function Cells(): map<int, V>
      reads maps
    {
      CellsOf(maps, |maps|)
    }

    /** The nested if-else over the maps' intervals. */
    method Find(a: u16) returns (i: nat)
      requires Valid()
      ensures i == Pick(layout, a) && |layout| == |maps|
      ensures i < |maps| ==> maps[i].range == layout[i]
    {
      ChainedFacts(maps, layout, |maps|);
      i := 0;
      while i < |maps|
        invariant 0 <= i <= |maps|
        invariant PickFrom(layout, a, i) == Pick(layout, a)
      {
        if maps[i].range.lo <= a <= maps[i].range.hi { return; }
        i := i + 1;
      }
    }
  }

  lemma {:induction false} ChainedFacts<V>(maps: seq<AddressMap<V>>, layout: seq<Range>, n: nat)
    requires n <= |maps| == |layout| && Chained(maps, layout, n)
    ensures forall i :: 0 <= i < n ==> maps[i].Valid() && maps[i].range == layout[i]
    ensures Sorted(layout[..n])
  {
    if n > 0 {
      ChainedFacts(maps, layout, n - 1);
      assert layout[..n - 1] == layout[..n][..n - 1];
      forall i | 0 <= i < n - 1
        ensures layout[i].hi < layout[n - 1].lo
      {
        assert layout[..n - 1][i].hi <= layout[..n - 1][n - 2].hi;
      }
    }
  }

  lemma {:induction false} CellsAreFlat<V>(maps: seq<AddressMap<V>>, n: nat)
    requires n <= |maps|
    ensures CellsOf(maps, n) == FlatOf(Values(maps), n)
  {
    if n > 0 { CellsAreFlat(maps, n - 1); }
  }

  /** A valid bank is a valid list of blocks, and `Cells` is its flat view. */
  lemma BankFacts<V>(bank: Bank<V>)
    requires bank.Valid()
    ensures ValidBlocks(Values(bank.maps)) && Ranges(Values(bank.maps)) == bank.layout
    ensures bank.Cells() == Flat(Values(bank.maps))
    ensures forall i, j :: 0 <= i < j < |bank.maps| ==> bank.maps[i] != bank.maps[j]
  {
    ChainedFacts(bank.maps, bank.layout, |bank.maps|);
    CellsAreFlat(bank.maps, |bank.maps|);
    assert bank.layout[..|bank.maps|] == bank.layout;
    assert Ranges(Values(bank.maps)) == bank.layout;
  }

  lemma BankContains<V>(bank: Bank<V>)
    requires bank.Valid()
    ensures Contains(bank.layout, bank.Cells().Keys)
  {
    BankFacts(bank);
    forall a | a in bank.Cells()
      ensures Covered(bank.layout, a)
    {
      FlatCovered(Values(bank.maps), a);
    }
  }

  /** What the layout checks give the routes: ascending maps that hold every cell. */
  lemma BankSorted<V>(bank: Bank<V>)
    requires bank.Valid()
    ensures Sorted(bank.layout) && Contains(bank.layout, bank.Cells().Keys)
  {
    BankFacts(bank);
    BankContains(bank);
  }

  lemma {:induction false} Rechained<V>(maps: seq<AddressMap<V>>, layout: seq<Range>, n: nat)
    requires n <= |maps| == |layout| && Sorted(layout)
    requires forall i :: 0 <= i < n ==> maps[i].Valid() && maps[i].range == layout[i]
    ensures Chained(maps, layout, n)
  {
    if n > 0 { Rechained(maps, layout, n - 1); }
  }

  /** After a store into map `i` alone, the flat view has the same store. */
  lemma StoredFlat<V>(bank: Bank<V>, i: nat, before: seq<Block<V>>, at: int, end: int, values: seq<V>)
    requires i < |bank.maps| == |bank.layout| && |values| == end - at
    requires |before| == |bank.maps| && ValidBlocks(before) && Ranges(before) == bank.layout
    requires Inside(before[i].range, at, end)
    requires forall j :: 0 <= j < |bank.maps| && j != i ==> bank.maps[j].Value() == before[j]
    requires bank.maps[i].Value() == before[i].(cells := Overlay(before[i].cells, at, values))
    ensures bank.Valid()
    ensures bank.Cells() == Overlay(Flat(before), at, values)
  {
    FlatUpdate(before, i, at, end, values);
    var after := before[i := before[i].(cells := Overlay(before[i].cells, at, values))];
    assert Values(bank.maps) == after;
    forall j | 0 <= j < |bank.maps|
      ensures bank.maps[j].Valid() && bank.maps[j].range == bank.layout[j]
    {
      assert after[j].Valid() && bank.maps[j].Value() == after[j];
    }
    Rechained(bank.maps, bank.layout, |bank.maps|);
    CellsAreFlat(bank.maps, |bank.maps|);
  }

  /** `map_max - cursor` with `saturating_add(1)`, then the smaller of that and what remains. */
  function Take(range: Range, cursor: u16, remaining: u16): (take: u16)
    requires range.Has(cursor)
    ensures cursor + take == Min(cursor + remaining, range.hi + 1)
  {
    var available := Min(range.hi - cursor + 1, 0xFFFF);
    if remaining < available then remaining else available
  }

  /**
    A turn of the loop took the course `t`: it ended or went on, told `log`, and left the window
    stored up to `next`.
   */
  ghost predicate Took<V>(t: Turn<V>, stop: bool, r: Result<()>, log: History<V>, next: int)
  {
    match t
    case Stop(o) => stop && r == o.verdict && log == o.log && next == o.reached
    case Go(told, cursor) => !stop && log == told && next == cursor
  }

  /** What a turn leaves to the loop: the outcome, or a run with the same outcome. */
  lemma TurnTook<V>(ranges: seq<Range>, keys: set<int>, hook: Option<BatchHook<V>>, w: Window<V>, log: History<V>,
                    at: u16,
                    stop: bool, r: Result<()>, told: History<V>, next: int)
    requires Fits(hook, w) && w.start <= at <= w.limit && at < w.end
    requires Took(OneTurn(ranges, keys, hook, w, log, at), stop, r, told, next)
    ensures var o := Serve(ranges, keys, hook, w, log, at);
            stop ==> o.reached == next && o.verdict == r && o.log == told
    ensures !stop ==>
              && at < next <= w.limit && next <= 0xFFFF
              && Serve(ranges, keys, hook, w, log, at) == Serve(ranges, keys, hook, w, told, next)
  {
  }
}
