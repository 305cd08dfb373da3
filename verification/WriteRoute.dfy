/**
  The meaning of a multi-cell write through the segmented route: how far into the window it
  stores, what the batch hook sees, and how the request is answered.
 */
module WriteRoute {
  import opened AddressSpace

  /** What an observer of one data domain sees of the addresses from `start` up to `end`. */
  datatype Event<V> =
    | Asked(start: u16, end: int, values: seq<V>)
    | AskedOne(address: u16, before: V, after: V)
    | Stored(start: u16, end: int, values: seq<V>)

  /** What happened so far, newest event outermost. */
  datatype History<V> = Start | Then(earlier: History<V>, event: Event<V>)

  /** A batch hook may answer from everything that happened so far; it does not change cells itself. */
  type BatchHook<!V> = (History<V>, u16, seq<V>) -> Result<()>

  /**
    A request for the addresses from `start` up to `end`. Its payload holds values up to the
    address `limit`; it is short of the window if `limit < end`.
   */
  datatype Window<V> = Window(start: u16, limit: int, end: int, values: seq<V>)
  {
    ghost predicate Valid()
    {
      start <= limit <= end && |values| == limit - start
    }
  }

  /** A payload may be short only where no hook is configured: the hook's repacking would read past its end. */
  ghost predicate Fits<V>(hook: Option<BatchHook<V>>, w: Window<V>)
  {
    w.Valid() && (hook.Some? ==> w.limit == w.end)
  }

  /** The values the window holds for the addresses from `at` up to `end`. */
  function Slice<V>(w: Window<V>, at: int, end: int): (r: seq<V>)
    requires w.start <= at <= end <= w.limit && |w.values| == w.limit - w.start
    ensures |r| == end - at
  {
    w.values[at - w.start..end - w.start]
  }

  lemma SliceCut<V>(w: Window<V>, at: int, mid: int, end: int, take: nat)
    requires w.Valid() && w.start <= at <= mid <= end <= w.limit && mid == at + take
    ensures Slice(w, at, end)[..take] == Slice(w, at, mid)
    ensures Slice(w, at, end)[take..] == Slice(w, mid, end)
  {
  }

  /** `m` with the window's values stored at the addresses from `at` up to `end`. */
  function Put<V>(m: map<int, V>, w: Window<V>, at: int, end: int): map<int, V>
    requires w.start <= at <= end <= w.limit && |w.values| == w.limit - w.start
  {
    Overlay(m, at, Slice(w, at, end))
  }

  lemma PutNothing<V>(m: map<int, V>, w: Window<V>, at: int)
    requires w.Valid() && w.start <= at <= w.limit
    ensures Put(m, w, at, at) == m
  {
  }

  lemma PutJoin<V>(m: map<int, V>, w: Window<V>, at: int, mid: int, end: int, first: map<int, V>, second: map<int, V>)
    requires w.Valid() && w.start <= at <= mid <= end <= w.limit
    requires first == Put(m, w, at, mid) && second == Put(first, w, mid, end)
    ensures second == Put(m, w, at, end)
  {
    OverlayJoin(m, at, Slice(w, at, mid), Slice(w, mid, end));
    assert Slice(w, at, mid) + Slice(w, mid, end) == Slice(w, at, end);
  }

  /** Everything before the address `reached` was stored; `refused` says that the hook ended the request. */
  datatype Outcome<V> = Outcome(log: History<V>, reached: int, refused: bool, verdict: Result<()>)

  /** One turn of the route loop either ends the request or goes on behind the segment it stored. */
  datatype Turn<V> = Stop(outcome: Outcome<V>) | Go(log: History<V>, next: int)

  /** Where the segment at `at` ends: after `min(remaining, map_max - cursor + 1)` cells. */
  function SegmentEnd(ranges: seq<Range>, at: int, end: int): (r: int)
    requires at < end && Pick(ranges, at) < |ranges|
    ensures at < r <= end && Inside(ranges[Pick(ranges, at)], at, r)
  {
    Min(end, ranges[Pick(ranges, at)].hi + 1)
  }

  /** The hook's part of a turn: what it is told and what it answers. */
  ghost function Ask<V>(hook: Option<BatchHook<V>>, log: History<V>, at: u16, end: int, values: seq<V>): (History<V>,
                        Result<()>)
  {
    if hook.Some? then (Then(log, Asked(at, end, values)), hook.value(log, at, values)) else (log, Ok(()))
  }

  /**
    The map's part of a turn: store the segment that ends at `end` up to the first hole or the
    payload's end, then advance.
   */
  ghost function Commit<V>(keys: set<int>, w: Window<V>, log: History<V>, at: u16, end: int): (t: Turn<V>)
    requires w.Valid() && w.start <= at <= w.limit && at < end
    ensures t.Go? ==> t.next == end <= w.limit && end <= 0xFFFF
  {
    var next := Reach(keys, at, Min(end, w.limit));
    var told := Then(log, Stored(at, next, Slice(w, at, next)));
    if next < end then
      Stop(Outcome(told, next, false, Err(if next == w.limit then InvalidByteCount else InvalidAddress)))
    else if next > 0xFFFF then
      Stop(Outcome(told, next, false, Err(InvalidAddress)))
    else
      Go(told, next)
  }

  /** A turn on the map that holds the cursor: ask about the segment, then store it. */
  ghost function Segment<V>(keys: set<int>, hook: Option<BatchHook<V>>, w: Window<V>, log: History<V>, at: u16,
                            end: int): (t: Turn<V>)
    requires w.Valid() && w.start <= at <= w.limit && at < end
    ensures t.Go? ==> t.next == end <= w.limit && end <= 0xFFFF
  {
    var (asked, answer) := Ask(hook, log, at, Min(end, w.limit), Slice(w, at, Min(end, w.limit)));
    if answer.Err? then Stop(Outcome(asked, at, true, answer)) else Commit(keys, w, asked, at, end)
  }

  ghost function OneTurn<V>(ranges: seq<Range>, keys: set<int>, hook: Option<BatchHook<V>>, w: Window<V>,
                            log: History<V>, at: u16): (t: Turn<V>)
    requires Fits(hook, w) && w.start <= at <= w.limit && at < w.end
    ensures t.Go? ==> at < t.next <= w.limit && t.next <= 0xFFFF
  {
    if Pick(ranges, at) == |ranges| then Stop(Outcome(log, at, false, Err(InvalidAddress)))
    else Segment(keys, hook, w, log, at, SegmentEnd(ranges, at, w.end))
  }

  /** The route loop with the cursor at `at`, on a domain with cells at `keys`. */
  ghost function Serve<V>(ranges: seq<Range>, keys: set<int>, hook: Option<BatchHook<V>>, w: Window<V>,
                          log: History<V>, at: u16): (o: Outcome<V>)
    requires Fits(hook, w) && w.start <= at <= w.limit
    decreases w.end - at
  {
    if at == w.end then
      Outcome(log, at, false, Ok(()))
    else
      match OneTurn(ranges, keys, hook, w, log, at)
      case Stop(outcome) => outcome
      case Go(told, next) => Serve(ranges, keys, hook, w, told, next)
  }

  ghost predicate Contains(ranges: seq<Range>, keys: set<int>)
  {
    forall a {:trigger Covered(ranges, a)} :: a in keys ==> Covered(ranges, a)
  }

  /** The answer to an unrefused request, read off the flat view. */
  ghost function FlatVerdict<V>(ranges: seq<Range>, keys: set<int>, w: Window<V>): Result<()>
    requires w.Valid()
  {
    var reached := Reach(keys, w.start, w.limit);
    if reached == w.end then
      if w.end <= 0xFFFF then Ok(()) else Err(InvalidAddress)
    else if reached == w.limit && Covered(ranges, reached) then
      Err(InvalidByteCount)
    else
      Err(InvalidAddress)
  }

  /**
    The flat meaning of a request: the stored cells are a mapped prefix of the window. Without
    a refusal the prefix ends at the first unmapped address or with the payload, and the
    verdict is the one of the flat view.
   */
  ghost predicate Meant<V>(ranges: seq<Range>, keys: set<int>, w: Window<V>, o: Outcome<V>)
    requires w.Valid()
  {
    && w.start <= o.reached <= Reach(keys, w.start, w.limit)
    && (o.verdict.Ok? ==> o.reached == w.end)
    && (o.refused ==> o.verdict.Err?)
    && (!o.refused ==> o.reached == Reach(keys, w.start, w.limit) && o.verdict == FlatVerdict(ranges, keys, w))
  }

  lemma Uncovered(ranges: seq<Range>, keys: set<int>, at: int, end: int)
    requires Contains(ranges, keys) && !Covered(ranges, at) && at <= end
    ensures Reach(keys, at, end) == at
  {
  }

  /** Where a turn that is not refused can end the request, and what the flat view says there. */
  lemma EndsAt<V>(ranges: seq<Range>, keys: set<int>, w: Window<V>, at: int, end: int, next: int)
    requires Contains(ranges, keys) && w.Valid() && w.start <= at <= w.limit && at < w.end
    requires Reach(keys, w.start, at) == at
    requires Pick(ranges, at) < |ranges| && end == SegmentEnd(ranges, at, w.end)
    requires next == Reach(keys, at, Min(end, w.limit))
    requires next < end || end > 0xFFFF
    ensures Reach(keys, w.start, w.limit) == next
    ensures FlatVerdict(ranges, keys, w) == Err(if next < end && next == w.limit then InvalidByteCount else InvalidAddress)
  {
    var have := Min(end, w.limit);
    ReachOn(keys, w.start, at, w.limit);
    if next < have {
      ReachStop(keys, at, have, w.limit);
    } else {
      ReachOn(keys, at, have, w.limit);
      if have < end {
        PickFirst(ranges, next, 0, Pick(ranges, at));
      } else {
        Uncovered(ranges, keys, end, w.limit);
      }
    }
  }

  /** A turn either ends the request with its flat meaning or leaves only mapped cells behind it. */
  ghost predicate TurnMeant<V>(ranges: seq<Range>, keys: set<int>, w: Window<V>, t: Turn<V>)
    requires w.Valid()
  {
    match t
    case Stop(o) => Meant(ranges, keys, w, o)
    case Go(log, next) => w.start <= next && Reach(keys, w.start, next) == next
  }

  lemma CommitMeaning<V>(ranges: seq<Range>, keys: set<int>, w: Window<V>, log: History<V>, at: u16, end: int)
    requires Contains(ranges, keys) && w.Valid() && w.start <= at <= w.limit && at < w.end
    requires Reach(keys, w.start, at) == at
    requires Pick(ranges, at) < |ranges| && end == SegmentEnd(ranges, at, w.end)
    ensures TurnMeant(ranges, keys, w, Commit(keys, w, log, at, end))
  {
    var next := Reach(keys, at, Min(end, w.limit));
    if next < end || end > 0xFFFF {
      EndsAt(ranges, keys, w, at, end, next);
    } else {
      ReachOn(keys, w.start, at, end);
    }
  }

  lemma EarlyMeaning<V>(ranges: seq<Range>, keys: set<int>, w: Window<V>, o: Outcome<V>)
    requires Contains(ranges, keys) && w.Valid() && w.start <= o.reached <= w.limit && o.reached < w.end
    requires Reach(keys, w.start, o.reached) == o.reached
    requires o.verdict.Err? && (o.refused || (!Covered(ranges, o.reached) && o.verdict.error == InvalidAddress))
    ensures Meant(ranges, keys, w, o)
  {
    ReachOn(keys, w.start, o.reached, w.limit);
    if !o.refused { Uncovered(ranges, keys, o.reached, w.limit); }
  }

  lemma TurnMeaning<V>(ranges: seq<Range>, keys: set<int>, hook: Option<BatchHook<V>>, w: Window<V>, log: History<V>,
                       at: u16)
    requires Fits(hook, w) && w.start <= at <= w.limit && at < w.end
    requires Contains(ranges, keys) && Reach(keys, w.start, at) == at
    ensures TurnMeant(ranges, keys, w, OneTurn(ranges, keys, hook, w, log, at))
  {
    if Pick(ranges, at) == |ranges| {
      EarlyMeaning(ranges, keys, w, Outcome(log, at, false, Err(InvalidAddress)));
    } else {
      var end := SegmentEnd(ranges, at, w.end);
      var (asked, answer) := Ask(hook, log, at, Min(end, w.limit), Slice(w, at, Min(end, w.limit)));
      if answer.Err? {
        EarlyMeaning(ranges, keys, w, Outcome(asked, at, true, answer));
      } else {
        CommitMeaning(ranges, keys, w, asked, at, end);
      }
    }
  }

  /** The segmented route has the flat meaning, for every layout, hook, window and payload. */
  lemma {:induction false} ServeMeaning<V>(ranges: seq<Range>, keys: set<int>, hook: Option<BatchHook<V>>, w: Window<V>,
                                           log: History<V>, at: u16)
    requires Fits(hook, w) && w.start <= at <= w.limit
    requires Contains(ranges, keys) && Reach(keys, w.start, at) == at
    ensures Meant(ranges, keys, w, Serve(ranges, keys, hook, w, log, at))
    decreases w.end - at
  {
    if at < w.end {
      var t := OneTurn(ranges, keys, hook, w, log, at);
      TurnMeaning(ranges, keys, hook, w, log, at);
      if t.Go? {
        ServeMeaning(ranges, keys, hook, w, t.log, t.next);
      }
    }
  }
}
