/** The compile-time checks on field addresses and map intervals, and what the routes may rely on after them. */
module Layout {
  import opened AddressSpace
  import opened Maps

  ghost predicate Distinct(addrs: seq<u16>)
  {
    forall i, j :: 0 <= i < j < |addrs| ==> addrs[i] != addrs[j]
  }

  /** `validate_duplicate_reg_addresses`, and the same check for coils and discrete inputs. */
  method AddressesUnique(addrs: seq<u16>) returns (ok: bool)
    ensures ok <==> Distinct(addrs)
  {
    for i := 0 to |addrs|
      invariant forall k, l :: 0 <= k < i && k < l < |addrs| ==> addrs[k] != addrs[l]
    {
      for j := i + 1 to |addrs|
        invariant forall l :: i < l < j ==> addrs[i] != addrs[l]
      {
        if addrs[i] == addrs[j] { return false; }
      }
    }
    return true;
  }

  ghost predicate Ascending(s: seq<u16>)
  {
    forall i, j :: 0 <= i < j < |s| ==> s[i] <= s[j]
  }

  function Insert(x: u16, s: seq<u16>): (r: seq<u16>)
    ensures multiset(r) == multiset(s) + multiset{x}
  {
    if s == [] || x <= s[0] then [x] + s
    else
      assert s == [s[0]] + s[1..];
      [s[0]] + Insert(x, s[1..])
  }

  lemma {:induction false} InsertAscending(x: u16, s: seq<u16>)
    requires Ascending(s)
    ensures Ascending(Insert(x, s))
  {
    if !(s == [] || x <= s[0]) {
      InsertAscending(x, s[1..]);
      var r := Insert(x, s[1..]);
      forall j | 0 <= j < |r|
        ensures s[0] <= r[j]
      {
        assert r[j] in multiset(s[1..]) + multiset{x};
      }
    }
  }

  /** The addresses in ascending order. */
  method Sort(addrs: seq<u16>) returns (sorted: seq<u16>)
    ensures Ascending(sorted) && multiset(sorted) == multiset(addrs)
  {
    sorted := [];
    for i := 0 to |addrs|
      invariant Ascending(sorted) && multiset(sorted) == multiset(addrs[..i])
    {
      InsertAscending(addrs[i], sorted);
      sorted := Insert(addrs[i], sorted);
      assert addrs[..i + 1] == addrs[..i] + [addrs[i]];
    }
    assert addrs[..|addrs|] == addrs;
  }

  /** The addresses fill the interval between their smallest and their largest. */
  ghost predicate Gapless(addrs: seq<u16>)
  {
    forall a, b, c :: a in addrs && b in addrs && a <= c <= b ==> c in addrs
  }

  /** Sorting keeps what the contiguity check is about. */
  lemma SortedFacts(addrs: seq<u16>, sorted: seq<u16>)
    requires Distinct(addrs) && Ascending(sorted) && multiset(sorted) == multiset(addrs)
    ensures forall a :: a in sorted <==> a in addrs
    ensures forall i, j :: 0 <= i < j < |sorted| ==> sorted[i] < sorted[j]
  {
    forall a
      ensures a in sorted <==> a in addrs
    {
      assert a in multiset(sorted) <==> a in multiset(addrs);
    }
    forall i, j | 0 <= i < j < |sorted|
      ensures sorted[i] < sorted[j]
    {
      if sorted[i] == sorted[j] {
        TwiceCounted(sorted, i, j);
        OnceCounted(addrs, sorted[i]);
      }
    }
  }

  lemma {:induction false} OnceCounted(s: seq<u16>, x: u16)
    requires Distinct(s)
    ensures multiset(s)[x] <= 1
  {
    if s != [] {
      OnceCounted(s[1..], x);
      assert s == [s[0]] + s[1..];
      if s[0] == x { assert x !in s[1..]; }
    }
  }

  lemma TwiceCounted(s: seq<u16>, i: nat, j: nat)
    requires i < j < |s| && s[i] == s[j]
    ensures multiset(s)[s[i]] >= 2
  {
    assert s == s[..j] + [s[j]] + s[j + 1..];
    assert s[i] in s[..j];
  }

  lemma {:induction false} StepsAreConsecutive(s: seq<u16>, k: nat)
    requires k < |s| && forall i :: 0 <= i < |s| - 1 ==> s[i + 1] == s[i] as int + 1
    ensures s[k] == s[0] + k
  {
    if k > 0 {
      StepsAreConsecutive(s, k - 1);
      assert s[k - 1 + 1] == s[k - 1] as int + 1;
    }
  }

  lemma ConsecutiveIsGapless(s: seq<u16>)
    requires forall i :: 0 <= i < |s| - 1 ==> s[i + 1] == s[i] as int + 1
    ensures Gapless(s)
  {
    forall a, b, c | a in s && b in s && a <= c <= b
      ensures c in s
    {
      var i :| 0 <= i < |s| && s[i] == a;
      var j :| 0 <= j < |s| && s[j] == b;
      StepsAreConsecutive(s, i);
      StepsAreConsecutive(s, j);
      StepsAreConsecutive(s, c - s[0]);
    }
  }

  lemma GapFound(s: seq<u16>, i: nat)
    requires i < |s| - 1 && s[i + 1] != s[i] as int + 1
    requires forall k, l :: 0 <= k < l < |s| ==> s[k] < s[l]
    ensures !Gapless(s)
  {
    assert s[i] < s[i + 1];
    var c: u16 := s[i] + 1;
    forall k | 0 <= k < |s|
      ensures s[k] != c
    {
      if k <= i { assert s[k] <= s[i]; } else { assert s[i + 1] <= s[k]; }
    }
    assert s[i] in s && s[i + 1] in s && c !in s;
  }

  /** `validate_contiguous_reg_addresses`, on addresses that passed the check for duplicates. */
  method AddressesContiguous(addrs: seq<u16>) returns (ok: bool)
    requires Distinct(addrs)
    ensures ok <==> Gapless(addrs)
  {
    if |addrs| <= 1 { return true; }
    var sorted := Sort(addrs);
    SortedFacts(addrs, sorted);
    assert Gapless(sorted) <==> Gapless(addrs);
    for i := 0 to |sorted| - 1
      invariant forall k :: 0 <= k < i ==> sorted[k + 1] == sorted[k] as int + 1
    {
      var current, next := sorted[i], sorted[i + 1];
      assert current < next;
      if next != current + 1 {
        GapFound(sorted, i);
        return false;
      }
    }
    ConsecutiveIsGapless(sorted);
    return true;
  }

  /** A map derived from gapless addresses has a field at every address of its interval. */
  lemma GaplessIsFull<V>(addrs: seq<u16>, block: Block<V>, a: int)
    requires Gapless(addrs) && (forall x :: x in block.cells <==> x in addrs)
    requires block.range.lo in addrs && block.range.hi in addrs && block.range.Has(a)
    ensures a in block.cells
  {
  }

  /** So `encode` and the stores of such a map fail for no reason but the window or the room. */
  lemma FullMapServes<V>(block: Block<V>, at: u16, end: int, bytes: nat, room: nat, none: MbusError)
    requires (forall a :: block.range.Has(a) ==> a in block.cells) && at < end && Inside(block.range, at, end)
    ensures Reach(block.cells.Keys, at, end) == end
    ensures EncodeVerdict(block.range, block.cells.Keys, at, end, bytes, room, none) ==
            if room < bytes then Err(BufferTooSmall) else Ok(bytes % 0x100)
  {
    ReachUnique(block.cells.Keys, at, end, end);
  }

  ghost predicate Disjoint(a: Range, b: Range)
  {
    forall x :: !(a.Has(x) && b.Has(x))
  }

  lemma OverlapTest(a: Range, b: Range)
    requires a.lo <= a.hi && b.lo <= b.hi
    ensures Disjoint(a, b) <==> a.hi < b.lo || b.hi < a.lo
  {
    if !(a.hi < b.lo || b.hi < a.lo) {
      var x := if a.lo <= b.lo then b.lo else a.lo;
      assert a.Has(x) && b.Has(x);
    }
  }

  /** Pairwise disjoint and adjacent in order of `ADDR_MIN` is strictly ascending: both checks together miss nothing. */
  lemma {:induction false} ChecksSort(ranges: seq<Range>, n: nat)
    requires n <= |ranges| && forall i :: 0 <= i < |ranges| ==> ranges[i].lo <= ranges[i].hi
    requires forall i, j :: 0 <= i < j < |ranges| ==> Disjoint(ranges[i], ranges[j])
    requires forall i :: 0 <= i < |ranges| - 1 ==> ranges[i].lo <= ranges[i + 1].lo
    ensures forall i, j :: 0 <= i < j < n ==> ranges[i].hi < ranges[j].lo
  {
    if n >= 2 {
      ChecksSort(ranges, n - 1);
      OverlapTest(ranges[n - 2], ranges[n - 1]);
      assert ranges[n - 2].lo <= ranges[n - 2 + 1].lo;
    }
  }

  /** `build_overlap_checks` and `build_order_checks`. Accepted layouts are exactly the strictly ascending ones. */
  method LayoutAccepted(ranges: seq<Range>) returns (ok: bool)
    requires forall i :: 0 <= i < |ranges| ==> ranges[i].lo <= ranges[i].hi
    ensures ok <==> Sorted(ranges)
  {
    for i := 0 to |ranges|
      invariant forall k, l :: 0 <= k < i && k < l < |ranges| ==> Disjoint(ranges[k], ranges[l])
    {
      for j := i + 1 to |ranges|
        invariant forall l :: i < l < j ==> Disjoint(ranges[i], ranges[l])
      {
        OverlapTest(ranges[i], ranges[j]);
        if !(ranges[i].hi < ranges[j].lo || ranges[j].hi < ranges[i].lo) { return false; }
      }
    }
    if ranges == [] { return true; }
    for i := 0 to |ranges| - 1
      invariant forall k :: 0 <= k < i ==> ranges[k].lo <= ranges[k + 1].lo
    {
      if ranges[i].lo > ranges[i + 1].lo { return false; }
    }
    ChecksSort(ranges, |ranges|);
    return true;
  }
}
