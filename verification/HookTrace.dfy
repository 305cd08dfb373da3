/** What a batch hook observes while a window is served: which calls it gets, in which order, and what follows them. */
module HookTrace {
  import opened AddressSpace
  import opened WriteRoute

  /**
    A well-formed call: the window's values from `start` on, up to where the map that holds
    `start` or the window ends.
   */
  ghost predicate IsCall<V>(ranges: seq<Range>, w: Window<V>, start: int, end: int, values: seq<V>)
    requires w.Valid()
  {
    && w.start <= start < end <= w.limit
    && values == Slice(w, start, end)
    && Pick(ranges, start) < |ranges| && Inside(ranges[Pick(ranges, start)], start, end)
    && (end == w.end || end == ranges[Pick(ranges, start)].hi + 1)
  }

  /**
    `log` extends `base` by segments that were each asked, accepted and then stored whole. In
    ascending order they tile the window up to the address `end`.
   */
  ghost predicate Tiles<V>(ranges: seq<Range>, hook: BatchHook<V>, w: Window<V>, base: History<V>, log: History<V>,
                           end: int)
    requires w.Valid()
    decreases log
  {
    || (log == base && end == w.start)
    || (&& log.Then? && log.event.Stored? && log.event.end == end
        && log.earlier.Then? && log.earlier.event == Asked(log.event.start, end, log.event.values)
        && IsCall(ranges, w, log.event.start, end, log.event.values)
        && hook(log.earlier.earlier, log.event.start, log.event.values).Ok?
        && Tiles(ranges, hook, w, base, log.earlier.earlier, log.event.start))
  }

  /** The call that ends a refused request: it comes right behind the stored cells and nothing follows it. */
  ghost predicate EndsInRefusal<V>(ranges: seq<Range>, hook: BatchHook<V>, w: Window<V>, base: History<V>,
                                   o: Outcome<V>)
    requires w.Valid()
  {
    && o.log.Then? && o.log.event.Asked? && o.log.event.start == o.reached
    && IsCall(ranges, w, o.log.event.start, o.log.event.end, o.log.event.values)
    && o.verdict == hook(o.log.earlier, o.log.event.start, o.log.event.values)
    && Tiles(ranges, hook, w, base, o.log.earlier, o.reached)
  }

  /**
    An accepted segment whose store stopped at a hole of its map: its cells before the hole are the
    last ones stored.
   */
  ghost predicate EndsInHole<V>(ranges: seq<Range>, keys: set<int>, hook: BatchHook<V>, w: Window<V>, base: History<V>,
                                o: Outcome<V>)
    requires w.Valid()
  {
    && o.log.Then? && o.log.event.Stored? && o.log.earlier.Then? && o.log.earlier.event.Asked?
    && var asked, stored := o.log.earlier.event, o.log.event;
    && IsCall(ranges, w, asked.start, asked.end, asked.values)
    && hook(o.log.earlier.earlier, asked.start, asked.values).Ok?
    && stored.start == asked.start <= stored.end == o.reached < asked.end
    && stored.values == Slice(w, stored.start, stored.end)
    && o.reached !in keys
    && Tiles(ranges, hook, w, base, o.log.earlier.earlier, asked.start)
  }

  ghost predicate Traced<V>(ranges: seq<Range>, keys: set<int>, hook: BatchHook<V>, w: Window<V>, base: History<V>,
                            o: Outcome<V>)
    requires w.Valid()
  {
    if o.refused then EndsInRefusal(ranges, hook, w, base, o)
    else Tiles(ranges, hook, w, base, o.log, o.reached) || EndsInHole(ranges, keys, hook, w, base, o)
  }

  /** What a turn with a hook leaves behind: a protocol that is complete or can go on. */
  ghost predicate TurnTraced<V>(ranges: seq<Range>, keys: set<int>, hook: BatchHook<V>, w: Window<V>, base: History<V>,
                                t: Turn<V>)
    requires w.Valid()
  {
    match t
    case Stop(o) => Traced(ranges, keys, hook, w, base, o)
    case Go(told, next) => Tiles(ranges, hook, w, base, told, next)
  }

  lemma CallOfTurn<V>(ranges: seq<Range>, w: Window<V>, at: u16, end: int)
    requires w.Valid() && w.limit == w.end && w.start <= at < w.end
    requires Pick(ranges, at) < |ranges| && end == SegmentEnd(ranges, at, w.end)
    ensures at < end <= w.limit && IsCall(ranges, w, at, end, Slice(w, at, end))
  {
  }

  lemma SegmentTrace<V>(ranges: seq<Range>, keys: set<int>, hook: BatchHook<V>, w: Window<V>, base: History<V>,
                        log: History<V>, at: u16, end: int)
    requires w.Valid() && w.limit == w.end && w.start <= at < end <= w.end
    requires IsCall(ranges, w, at, end, Slice(w, at, end)) && Tiles(ranges, hook, w, base, log, at)
    ensures TurnTraced(ranges, keys, hook, w, base, Segment(keys, Some(hook), w, log, at, end))
  {
    ReachMapped(keys, at, end);
  }

  lemma TurnTrace<V>(ranges: seq<Range>, keys: set<int>, hook: BatchHook<V>, w: Window<V>, base: History<V>,
                     log: History<V>, at: u16)
    requires w.Valid() && w.limit == w.end && w.start <= at < w.end
    requires Tiles(ranges, hook, w, base, log, at)
    ensures TurnTraced(ranges, keys, hook, w, base, OneTurn(ranges, keys, Some(hook), w, log, at))
  {
    if Pick(ranges, at) < |ranges| {
      var end := SegmentEnd(ranges, at, w.end);
      CallOfTurn(ranges, w, at, end);
      SegmentTrace(ranges, keys, hook, w, base, log, at, end);
    }
  }

  /** Every run of the route keeps to the protocol with its batch hook. */
  lemma {:induction false} ServeTrace<V>(ranges: seq<Range>, keys: set<int>, hook: BatchHook<V>, w: Window<V>,
                                         base: History<V>,
                                         log: History<V>, at: u16)
    requires w.Valid() && w.limit == w.end && w.start <= at <= w.end
    requires Tiles(ranges, hook, w, base, log, at)
    ensures Traced(ranges, keys, hook, w, base, Serve(ranges, keys, Some(hook), w, log, at))
    decreases w.end - at
  {
    if at < w.end {
      var t := OneTurn(ranges, keys, Some(hook), w, log, at);
      TurnTrace(ranges, keys, hook, w, base, log, at);
      if t.Go? {
        ServeTrace(ranges, keys, hook, w, base, t.log, t.next);
      }
    }
  }

  /** The same for a route that may have no hook. */
  ghost predicate Observed<V>(ranges: seq<Range>, keys: set<int>, hook: Option<BatchHook<V>>, w: Window<V>,
                              base: History<V>, o: Outcome<V>)
    requires w.Valid()
  {
    hook.Some? ==> Traced(ranges, keys, hook.value, w, base, o)
  }

  lemma ServeObserved<V>(ranges: seq<Range>, keys: set<int>, hook: Option<BatchHook<V>>, w: Window<V>, base: History<V>)
    requires Fits(hook, w)
    ensures Observed(ranges, keys, hook, w, base, Serve(ranges, keys, hook, w, base, w.start))
  {
    if hook.Some? { ServeTrace(ranges, keys, hook.value, w, base, base, w.start); }
  }

  function Length<V>(log: History<V>): nat
  {
    match log
    case Start => 0
    case Then(earlier, _) => 1 + Length(earlier)
  }

  /** The values of all calls since `base`, in order. */
  ghost function AskedSince<V>(base: History<V>, log: History<V>): seq<V>
  {
    if Length(log) <= Length(base) then []
    else AskedSince(base, log.earlier) + (if log.event.Asked? then log.event.values else [])
  }

  /** The values of all stores since `base`, in order. */
  ghost function StoredSince<V>(base: History<V>, log: History<V>): seq<V>
  {
    if Length(log) <= Length(base) then []
    else StoredSince(base, log.earlier) + (if log.event.Stored? then log.event.values else [])
  }

  lemma SliceJoin<V>(w: Window<V>, mid: int, end: int)
    requires w.Valid() && w.start <= mid <= end <= w.limit
    ensures Slice(w, w.start, mid) + Slice(w, mid, end) == Slice(w, w.start, end) <= w.values
  {
  }

  /** The payloads of tiling calls, and of their stores, concatenate to the window's prefix. */
  lemma {:induction false} TilesConcat<V>(ranges: seq<Range>, hook: BatchHook<V>, w: Window<V>, base: History<V>,
                                          log: History<V>, end: int)
    requires w.Valid() && Tiles(ranges, hook, w, base, log, end)
    ensures Length(base) <= Length(log) && w.start <= end <= w.limit
    ensures AskedSince(base, log) == StoredSince(base, log) == Slice(w, w.start, end)
    decreases log
  {
    if !(log == base && end == w.start) {
      TilesConcat(ranges, hook, w, base, log.earlier.earlier, log.event.start);
      SliceJoin(w, log.event.start, end);
      assert AskedSince(base, log.earlier) == Slice(w, w.start, end);
    }
  }

  /**
    On every run the calls concatenate to a prefix of the payload, and the stores to the prefix the
    outcome reports.
   */
  lemma CallsConcat<V>(ranges: seq<Range>, keys: set<int>, hook: BatchHook<V>, w: Window<V>, base: History<V>,
                       o: Outcome<V>)
    requires w.Valid() && w.limit == w.end
    requires o == Serve(ranges, keys, Some(hook), w, base, w.start)
    ensures AskedSince(base, o.log) <= w.values
    ensures w.start <= o.reached <= w.limit && StoredSince(base, o.log) == Slice(w, w.start, o.reached)
  {
    ServeTrace(ranges, keys, hook, w, base, base, w.start);
    ConcatOf(ranges, keys, hook, w, base, o);
  }

  lemma ConcatOf<V>(ranges: seq<Range>, keys: set<int>, hook: BatchHook<V>, w: Window<V>, base: History<V>,
                    o: Outcome<V>)
    requires w.Valid() && Traced(ranges, keys, hook, w, base, o)
    ensures AskedSince(base, o.log) <= w.values
    ensures w.start <= o.reached <= w.limit && StoredSince(base, o.log) == Slice(w, w.start, o.reached)
  {
    if o.refused {
      TilesConcat(ranges, hook, w, base, o.log.earlier, o.reached);
      SliceJoin(w, o.reached, o.log.event.end);
    } else if Tiles(ranges, hook, w, base, o.log, o.reached) {
      TilesConcat(ranges, hook, w, base, o.log, o.reached);
      SliceJoin(w, o.reached, o.reached);
    } else {
      var asked := o.log.earlier.event;
      TilesConcat(ranges, hook, w, base, o.log.earlier.earlier, asked.start);
      SliceJoin(w, asked.start, asked.end);
      SliceJoin(w, asked.start, o.reached);
      assert AskedSince(base, o.log.earlier) == Slice(w, w.start, asked.end);
      assert StoredSince(base, o.log.earlier) == Slice(w, w.start, asked.start);
    }
  }
}
