/** Laws of the hook-free write route that mention only the flat view. */
module FlatLaws {
  import opened AddressSpace
  import opened WriteRoute

  lemma {:induction false} NeverRefused<V>(ranges: seq<Range>, keys: set<int>, w: Window<V>, log: History<V>, at: u16)
    requires w.Valid() && w.start <= at <= w.limit
    ensures !Serve(ranges, keys, None, w, log, at).refused
    decreases w.end - at
  {
    if at < w.end {
      var t := OneTurn(ranges, keys, None, w, log, at);
      if t.Go? { NeverRefused(ranges, keys, w, t.log, t.next); }
    }
  }

  /** Without a hook the outcome is the one of the flat view. */
  lemma ServeFree<V>(ranges: seq<Range>, keys: set<int>, w: Window<V>, log: History<V>)
    requires w.Valid() && Contains(ranges, keys)
    ensures var o := Serve(ranges, keys, None, w, log, w.start);
            && !o.refused
            && o.reached == Reach(keys, w.start, w.limit)
            && o.verdict == FlatVerdict(ranges, keys, w)
  {
    ServeMeaning(ranges, keys, None, w, log, w.start);
    NeverRefused(ranges, keys, w, log, w.start);
  }

  /** The last address: one register at 65535 is stored, and the request is answered with an address error. */
  lemma LastAddressIsStoredAndRefused<V>(ranges: seq<Range>, keys: set<int>, w: Window<V>, value: V, log: History<V>)
    requires ranges == [Range(0xFFFF, 0xFFFF)] && keys == {0xFFFF}
    requires w == Window(0xFFFF, 0x1_0000, 0x1_0000, [value])
    ensures var o := Serve(ranges, keys, None, w, log, w.start);
            o.reached == w.end && o.verdict == Err(InvalidAddress)
  {
    PickFirst(ranges, 0xFFFF, 0, 0);
    ReachUnique(keys, w.start, w.limit, w.limit);
    ServeFree(ranges, keys, w, log);
  }

  /**
    How maps cut up the same cells does not matter: the stored prefix is always the same, and
    so is the verdict, except where a short payload ends at an address that one layout has in
    the hole of a map and the other outside every map.
   */
  lemma PartitionIndependence<V>(left: seq<Range>, right: seq<Range>, keys: set<int>, w: Window<V>, log: History<V>)
    requires w.Valid() && Contains(left, keys) && Contains(right, keys)
    ensures var l, r := Serve(left, keys, None, w, log, w.start), Serve(right, keys, None, w, log, w.start);
            && l.reached == r.reached == Reach(keys, w.start, w.limit)
            && (l.verdict == r.verdict <==>
                (l.reached == w.limit < w.end ==> (Covered(left, w.limit) <==> Covered(right, w.limit))))
  {
    ServeFree(left, keys, w, log);
    ServeFree(right, keys, w, log);
  }

  /** Single writes of the window's values from `at` on, one after the other, given up at the first failure. */
  ghost function Singles<V>(flat: map<int, V>, w: Window<V>, at: int): map<int, V>
    requires w.Valid() && w.start <= at <= w.limit
    decreases w.limit - at
  {
    if at == w.limit || at !in flat then flat
    else Singles(Put(flat, w, at, at + 1), w, at + 1)
  }

  ghost function SinglesVerdict(keys: set<int>, at: int, end: int): Result<()>
    requires at <= end
    decreases end - at
  {
    if at == end then Ok(())
    else if at !in keys then Err(InvalidAddress)
    else SinglesVerdict(keys, at + 1, end)
  }

  lemma {:induction false} SinglesStore<V>(flat: map<int, V>, w: Window<V>, at: int, end: int)
    requires w.Valid() && w.start <= at <= w.limit && end == Reach(flat.Keys, at, w.limit)
    ensures Singles(flat, w, at) == Put(flat, w, at, end)
    decreases w.limit - at
  {
    if at == end {
      PutNothing(flat, w, at);
    } else {
      var next := at + 1;
      var first := Put(flat, w, at, next);
      SinglesStore(first, w, next, end);
      PutJoin(flat, w, at, next, end, first, Singles(first, w, next));
    }
  }

  lemma {:induction false} SinglesAnswer(keys: set<int>, at: int, end: int)
    requires at <= end
    ensures SinglesVerdict(keys, at, end) == if Reach(keys, at, end) == end then Ok(()) else Err(InvalidAddress)
    decreases end - at
  {
    if at < end && at in keys { SinglesAnswer(keys, at + 1, end); }
  }

  lemma FullReach<V>(ranges: seq<Range>, flat: map<int, V>, at: u16, end: int)
    requires Contains(ranges, flat.Keys) && at <= end
    ensures Reach(flat.Keys, at, end) == end <==> AllMapped(flat, at, end)
    ensures AllMapped(flat, at, end) && at < end ==> end <= 0x1_0000
  {
    ReachMapped(flat.Keys, at, end);
    if AllMapped(flat, at, end) {
      ReachUnique(flat.Keys, at, end, end);
      if at < end { assert Covered(ranges, end - 1); }
    }
  }

  /**
    A bulk write leaves what single writes of the same values leave, whatever the layout. The
    verdicts agree except for one family: a fully mapped window whose last address is 65535,
    which the bulk route stores and then reports as an address error.
   */
  lemma BulkIsRepeatedSingle<V>(ranges: seq<Range>, flat: map<int, V>, w: Window<V>, log: History<V>, o: Outcome<V>)
    requires w.Valid() && w.limit == w.end && Contains(ranges, flat.Keys)
    requires o == Serve(ranges, flat.Keys, None, w, log, w.start)
    ensures w.start <= o.reached <= w.limit && Put(flat, w, w.start, o.reached) == Singles(flat, w, w.start)
    ensures o.verdict == SinglesVerdict(flat.Keys, w.start, w.end) <==>
            !(AllMapped(flat, w.start, w.end) && w.end == 0x1_0000)
  {
    ServeFree(ranges, flat.Keys, w, log);
    SinglesStore(flat, w, w.start, o.reached);
    SinglesAnswer(flat.Keys, w.start, w.end);
    FullReach(ranges, flat, w.start, w.end);
  }
}
