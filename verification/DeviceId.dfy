/** Read Device Identification (FC 0x2B / MEI 0x0E): paging of the object table and the client that walks the pages. */
module DeviceId {
  import opened AddressSpace

  type u8 = x: int | 0 <= x < 0x100

  datatype Object = Object(id: u8, value: seq<u8>)

  const CONFORMITY: u8 := 0x82

  /** The object table, strictly ascending by id. */
  ghost predicate Table(objects: seq<Object>)
  {
    forall i, j :: 0 <= i < j < |objects| ==> objects[i].id < objects[j].id
  }

  function Needed(o: Object): nat
  {
    2 + |o.value|
  }

  /** Id, length and value; the length is cast to a byte. */
  function Encode(o: Object): (r: seq<u8>)
    ensures |r| == Needed(o)
  {
    [o.id, |o.value| % 0x100] + o.value
  }

  /** The objects from `i` up to `j` on the wire. */
  function EncodeAll(objects: seq<Object>, i: nat, j: nat): seq<u8>
    requires i <= j <= |objects|
  {
    if i == j then [] else EncodeAll(objects, i, j - 1) + Encode(objects[j - 1])
  }

  /** The first object with an id at or above `start`. */
  function From(objects: seq<Object>, start: u8, i: nat): (r: nat)
    requires i <= |objects|
    ensures i <= r <= |objects| && (forall k :: i <= k < r ==> objects[k].id < start)
    ensures r < |objects| ==> objects[r].id >= start
    decreases |objects| - i
  {
    if i == |objects| || objects[i].id >= start then i else From(objects, start, i + 1)
  }

  /** The end of the page that starts with object `i`, when `used` bytes of `room` are taken before object `j`. */
  function PageEnd(objects: seq<Object>, room: nat, j: nat, used: nat): (r: nat)
    requires j <= |objects|
    ensures j <= r <= |objects|
    decreases |objects| - j
  {
    if j == |objects| || used + Needed(objects[j]) > room then j
    else PageEnd(objects, room, j + 1, used + Needed(objects[j]))
  }

  lemma {:induction false} PageFills(objects: seq<Object>, room: nat, i: nat, j: nat, used: nat, r: nat)
    requires i <= j <= |objects| && used == |EncodeAll(objects, i, j)| <= room && r == PageEnd(objects, room, j, used)
    ensures |EncodeAll(objects, i, r)| <= room
    ensures r < |objects| ==> |EncodeAll(objects, i, r + 1)| > room
    decreases |objects| - j
  {
    if j < r {
      var next := |EncodeAll(objects, i, j + 1)|;
      PageFills(objects, room, i, j + 1, next, r);
    }
  }

  /** A page is full: its objects fit, and one more would not. */
  lemma PageIsFull(objects: seq<Object>, room: nat, i: nat, r: nat)
    requires i <= |objects| && r == PageEnd(objects, room, i, 0)
    ensures |EncodeAll(objects, i, r)| <= room
    ensures r < |objects| ==> |EncodeAll(objects, i, r + 1)| > room
  {
    PageFills(objects, room, i, i, 0, r);
  }

  method CopyObject(o: Object, out: array<u8>, at: nat)
    requires at + Needed(o) <= out.Length
    modifies out
    ensures out[..at] == old(out[..at]) && out[at..at + Needed(o)] == Encode(o)
    ensures out[at + Needed(o)..] == old(out[at + Needed(o)..])
  {
    out[at] := o.id;
    out[at + 1] := |o.value| % 0x100;
    forall k | 0 <= k < |o.value| { out[at + 2 + k] := o.value[k]; }
  }

  /** Appends an object to the ones that fill `out` up to `used`. */
  method AppendObject(o: Object, out: array<u8>, used: nat, end: nat, ghost before: seq<u8>)
    requires used <= end == used + Needed(o) <= out.Length && out[..used] == before
    modifies out
    ensures out[..end] == before + Encode(o) && out[end..] == old(out[end..])
  {
    CopyObject(o, out, used);
    assert out[..end] == out[..used] + out[used..end];
  }

  /** The stream loop: fills `out` with whole objects and names the first one that did not fit. */
  method FillPage(objects: seq<Object>, start: u8, out: array<u8>, ghost first: nat, ghost last: nat)
    returns (used: nat, more: bool, next: u8)
    requires Table(objects) && first == From(objects, start, 0) && last == PageEnd(objects, out.Length, first, 0)
    modifies out
    ensures used == |EncodeAll(objects, first, last)| <= out.Length && out[..used] == EncodeAll(objects, first, last)
    ensures out[used..] == old(out[used..])
    ensures more == (last < |objects|) && next == if more then objects[last].id else 0
  {
    used := 0;
    more, next := false, 0;
    var j := 0;
    while j < |objects|
      invariant 0 <= j <= |objects| && 0 <= used <= out.Length && (j <= first ==> used == 0)
      invariant j >= first ==> last == PageEnd(objects, out.Length, j, used)
      invariant j >= first ==> |EncodeAll(objects, first, j)| == used && out[..used] == EncodeAll(objects, first, j)
      invariant out[used..] == old(out[used..])
    {
      if objects[j].id >= start {
        var end := used + Needed(objects[j]);
        if end > out.Length {
          more, next := true, objects[j].id;
          break;
        }
        assert out[end..] == out[used..][end - used..] && old(out[end..]) == old(out[used..])[end - used..];
        AppendObject(objects[j], out, used, end, EncodeAll(objects, first, j));
        used := end;
      }
      j := j + 1;
    }
  }

  /** Stream access: a full page of objects from `start` on. The count is cast to a byte. */
  method Stream(objects: seq<Object>, start: u8, out: array<u8>)
    returns (written: u8, conformity: u8, more: bool, next: u8)
    requires Table(objects)
    modifies out
    ensures var i := From(objects, start, 0);
            var j := PageEnd(objects, out.Length, i, 0);
            var bytes := EncodeAll(objects, i, j);
            && |bytes| <= out.Length && out[..|bytes|] == bytes && out[|bytes|..] == old(out[|bytes|..])
            && written == |bytes| % 0x100 && conformity == CONFORMITY
            && more == (j < |objects|) && next == (if more then objects[j].id else 0)
            && (more ==> |EncodeAll(objects, i, j + 1)| > out.Length)
  {
    ghost var first := From(objects, start, 0);
    ghost var last := PageEnd(objects, out.Length, first, 0);
    PageIsFull(objects, out.Length, first, last);
    var used;
    used, more, next := FillPage(objects, start, out, first, last);
    return used % 0x100, CONFORMITY, more, next;
  }

  /** Individual access: exactly the object that was asked for. */
  method Individual(objects: seq<Object>, id: u8, out: array<u8>) returns (r: Result<nat>)
    requires Table(objects)
    modifies out
    ensures (forall o :: o in objects ==> o.id != id) ==> r == Err(InvalidAddress)
    ensures forall o :: o in objects && o.id == id ==>
              if Needed(o) > out.Length then r == Err(BufferTooSmall)
              else
                && r == Ok(Needed(o) % 0x100) && out[..Needed(o)] == Encode(o)
                && out[0] == o.id && out[1] == |o.value| % 0x100 && out[2..Needed(o)] == o.value
    ensures r.Err? ==> out[..] == old(out[..])
  {
    for k := 0 to |objects|
      invariant forall l :: 0 <= l < k ==> objects[l].id != id
      invariant out[..] == old(out[..])
    {
      if objects[k].id == id {
        assert forall o :: o in objects && o.id == id ==> o == objects[k];
        if Needed(objects[k]) > out.Length { return Err(BufferTooSmall); }
        CopyObject(objects[k], out, 0);
        return Ok(Needed(objects[k]) % 0x100);
      }
    }
    return Err(InvalidAddress);
  }

  /** What a response carries besides its bytes. */
  datatype Header = Header(written: u8, conformity: u8, more: bool, next: u8)

  /** `read_device_identification_request`: code 4 asks for one object, every other code for a stream. */
  method ReadDeviceIdentification(objects: seq<Object>, code: u8, start: u8, out: array<u8>) returns (r: Result<Header>)
    requires Table(objects)
    modifies out
    ensures code != 4 ==>
              var i := From(objects, start, 0);
              var j := PageEnd(objects, out.Length, i, 0);
              var bytes := EncodeAll(objects, i, j);
              && r == Ok(Header(|bytes| % 0x100, CONFORMITY, j < |objects|, if j < |objects| then objects[j].id else 0))
              && |bytes| <= out.Length && out[..|bytes|] == bytes
              && (j < |objects| ==> |EncodeAll(objects, i, j + 1)| > out.Length)
    ensures r.Ok? ==> r.value.conformity == 0x82
    ensures code == 4 && (forall o :: o in objects ==> o.id != start) ==> r == Err(InvalidAddress)
    ensures code == 4 ==> forall o :: o in objects && o.id == start ==>
              if Needed(o) > out.Length then r == Err(BufferTooSmall)
              else r == Ok(Header(Needed(o) % 0x100, CONFORMITY, false, 0)) && out[..Needed(o)] == Encode(o)
  {
    if code == 4 {
      var needed := Individual(objects, start, out);
      if needed.Err? { return Err(needed.error); }
      return Ok(Header(needed.value % 0x100, CONFORMITY, false, 0));
    }
    var written, conformity, more, next := Stream(objects, start, out);
    return Ok(Header(written, conformity, more, next));
  }

  function Prepend(found: seq<Object>, rest: Option<seq<Object>>): Option<seq<Object>>
  {
    if rest.None? then None else Some(found + rest.value)
  }

  /** The object-walking decoder; `None` where it would index past the buffer. */
  function Decode(bytes: seq<u8>, offset: nat, written: nat): Option<seq<Object>>
    decreases written - offset
  {
    if offset >= written then Some([])
    else if offset + 2 > |bytes| || offset + 2 + bytes[offset + 1] > |bytes| then None
    else
      var end := offset + 2 + bytes[offset + 1];
      Prepend([Object(bytes[offset], bytes[offset + 2..end])], Decode(bytes, end, written))
  }

  lemma PrependNothing(rest: Option<seq<Object>>)
    ensures Prepend([], rest) == rest
  {
    if rest.Some? { assert [] + rest.value == rest.value; }
  }

  lemma PrependMore(found: seq<Object>, o: Object, rest: Option<seq<Object>>)
    ensures Prepend(found, Prepend([o], rest)) == Prepend(found + [o], rest)
  {
    if rest.Some? { assert found + ([o] + rest.value) == found + [o] + rest.value; }
  }

  /** The decoding loop. */
  method Walk(bytes: seq<u8>, written: nat) returns (objects: Option<seq<Object>>)
    ensures objects == Decode(bytes, 0, written)
  {
    var found := [];
    var offset := 0;
    PrependNothing(Decode(bytes, 0, written));
    while offset < written
      invariant Decode(bytes, 0, written) == Prepend(found, Decode(bytes, offset, written))
      decreases written - offset
    {
      if offset + 2 > |bytes| { return None; }
      var end := offset + 2 + bytes[offset + 1];
      if end > |bytes| { return None; }
      var o := Object(bytes[offset], bytes[offset + 2..end]);
      PrependMore(found, o, Decode(bytes, end, written));
      found, offset := found + [o], end;
    }
    assert found + [] == found;
    return Some(found);
  }

  lemma {:induction false} EncodeAllPrefix(objects: seq<Object>, i: nat, k: nat, j: nat)
    requires i <= k <= j <= |objects|
    ensures |EncodeAll(objects, i, k)| <= |EncodeAll(objects, i, j)|
    ensures EncodeAll(objects, i, j)[..|EncodeAll(objects, i, k)|] == EncodeAll(objects, i, k)
    decreases j - k
  {
    if k < j { EncodeAllPrefix(objects, i, k, j - 1); }
  }

  /** Object `k` of a page stands behind the ones before it. */
  lemma EncodedAt(objects: seq<Object>, i: nat, k: nat, j: nat, bytes: seq<u8>, at: nat, end: nat)
    requires i <= k < j <= |objects| && EncodeAll(objects, i, j) <= bytes
    requires at == |EncodeAll(objects, i, k)| && end == |EncodeAll(objects, i, k + 1)|
    ensures end == at + Needed(objects[k]) <= |EncodeAll(objects, i, j)|
    ensures bytes[at..end] == Encode(objects[k])
  {
    EncodeAllPrefix(objects, i, k + 1, j);
    var upto := EncodeAll(objects, i, k + 1);
    assert upto == EncodeAll(objects, i, k) + Encode(objects[k]);
    assert bytes[..end] == upto;
    assert bytes[at..end] == upto[at..];
  }

  /** Decoding one encoded object. */
  lemma DecodeOne(o: Object, bytes: seq<u8>, at: nat, end: nat, written: nat)
    requires at < end <= |bytes| && end <= written && bytes[at..end] == Encode(o) && |o.value| < 0x100
    ensures Decode(bytes, at, written) == Prepend([o], Decode(bytes, end, written))
  {
    assert bytes[at] == bytes[at..end][0] && bytes[at + 1] == bytes[at..end][1] == |o.value|;
    assert bytes[at + 2..end] == bytes[at..end][2..] == o.value;
  }

  lemma FirstOf(objects: seq<Object>, k: nat, j: nat)
    requires k < j <= |objects|
    ensures Prepend([objects[k]], Some(objects[k + 1..j])) == Some(objects[k..j])
  {
    assert objects[k..j] == [objects[k]] + objects[k + 1..j];
  }

  /** Decoding a page gives back its objects. */
  lemma {:induction false} DecodeEncoded(objects: seq<Object>, i: nat, k: nat, j: nat, bytes: seq<u8>, at: nat,
                                         written: nat)
    requires i <= k <= j <= |objects|
    requires at == |EncodeAll(objects, i, k)| && written == |EncodeAll(objects, i, j)| <= 0xFF
    requires EncodeAll(objects, i, j) <= bytes
    ensures Decode(bytes, at, written) == Some(objects[k..j])
    decreases j - k
  {
    if k == j {
      assert objects[k..j] == [];
    } else {
      var end := |EncodeAll(objects, i, k + 1)|;
      EncodedAt(objects, i, k, j, bytes, at, end);
      DecodeOne(objects[k], bytes, at, end, written);
      DecodeEncoded(objects, i, k + 1, j, bytes, end, written);
      FirstOf(objects, k, j);
    }
  }

  /** Asking again from the object that did not fit finds exactly that object. */
  lemma FromItself(objects: seq<Object>, j: nat, i: nat)
    requires Table(objects) && i <= j < |objects|
    ensures From(objects, objects[j].id, i) == j
  {
  }

  /** A page makes progress exactly if its first object fits an empty page. */
  lemma Progress(objects: seq<Object>, room: nat, i: nat)
    requires i < |objects|
    ensures PageEnd(objects, room, i, 0) > i <==> Needed(objects[i]) <= room
  {
  }

  /** The object the page after the first `n` pages starts with. */
  function PageStart(objects: seq<Object>, room: nat, i: nat, n: nat): (r: nat)
    requires i <= |objects|
    ensures i <= r <= |objects|
  {
    if n == 0 then i else PageEnd(objects, room, PageStart(objects, room, i, n - 1), 0)
  }

  ghost predicate AllFit(objects: seq<Object>, room: nat, i: nat)
  {
    forall k :: i <= k < |objects| ==> Needed(objects[k]) <= room
  }

  lemma {:induction false} StuckBefore(objects: seq<Object>, room: nat, j: nat, used: nat, k: nat)
    requires j <= k < |objects| && Needed(objects[k]) > room
    ensures PageEnd(objects, room, j, used) <= k
    decreases k - j
  {
    if j < k && used + Needed(objects[j]) <= room { StuckBefore(objects, room, j + 1, used + Needed(objects[j]), k); }
  }

  lemma {:induction false} NeverPast(objects: seq<Object>, room: nat, i: nat, n: nat, k: nat)
    requires i <= k < |objects| && Needed(objects[k]) > room
    ensures PageStart(objects, room, i, n) <= k
  {
    if n > 0 {
      NeverPast(objects, room, i, n - 1, k);
      StuckBefore(objects, room, PageStart(objects, room, i, n - 1), 0, k);
    }
  }

  lemma {:induction false} KeepsGoing(objects: seq<Object>, room: nat, i: nat, n: nat)
    requires i <= |objects| && AllFit(objects, room, i) && i + n <= |objects|
    ensures PageStart(objects, room, i, n) >= i + n
  {
    if n > 0 {
      KeepsGoing(objects, room, i, n - 1);
      var at := PageStart(objects, room, i, n - 1);
      if at < |objects| { Progress(objects, room, at); }
    }
  }

  /** Re-requesting while more follows comes to an end if and only if every object fits an empty page. */
  lemma PagingEnds(objects: seq<Object>, room: nat, i: nat)
    requires i <= |objects|
    ensures (exists n :: PageStart(objects, room, i, n) == |objects|) <==> AllFit(objects, room, i)
  {
    if AllFit(objects, room, i) {
      KeepsGoing(objects, room, i, |objects| - i);
      assert PageStart(objects, room, i, |objects| - i) == |objects|;
    } else {
      var k :| i <= k < |objects| && Needed(objects[k]) > room;
      forall n: nat
        ensures PageStart(objects, room, i, n) != |objects|
      {
        NeverPast(objects, room, i, n, k);
      }
    }
  }

  /** One request and the decoding of its page. */
  method FetchPage(objects: seq<Object>, start: u8, out: array<u8>, ghost i: nat, ghost j: nat)
    returns (page: seq<Object>, more: bool, next: u8)
    requires Table(objects) && out.Length <= 0xFF && i == From(objects, start, 0)
    requires j == PageEnd(objects, out.Length, i, 0)
    modifies out
    ensures page == objects[i..j] && more == (j < |objects|) && (more ==> next == objects[j].id)
  {
    var written, conformity;
    written, conformity, more, next := Stream(objects, start, out);
    ghost var bytes := EncodeAll(objects, i, j);
    assert out[..|bytes|] == bytes;
    DecodeEncoded(objects, i, i, j, out[..], 0, written);
    var decoded := Walk(out[..], written);
    page := decoded.value;
  }

  lemma JoinSlices(objects: seq<Object>, i: nat, k: nat, j: nat)
    requires i <= k <= j <= |objects|
    ensures objects[i..k] + objects[k..j] == objects[i..j]
  {
  }

  /**
    A client that asks again from `next` while more follows collects every object from `start` on,
    in order and once.
   */
  method FetchAll(objects: seq<Object>, start: u8, out: array<u8>) returns (all: seq<Object>)
    requires Table(objects) && out.Length <= 0xFF && AllFit(objects, out.Length, From(objects, start, 0))
    modifies out
    ensures all == objects[From(objects, start, 0)..]
  {
    ghost var first := From(objects, start, 0);
    ghost var i := first;
    var from := start;
    var more := true;
    all := [];
    while more
      invariant first <= i <= |objects| && all == objects[first..i]
      invariant more ==> i == From(objects, from, 0)
      invariant !more ==> i == |objects|
      decreases |objects| - i, more
    {
      ghost var j := PageEnd(objects, out.Length, i, 0);
      var page, next;
      page, more, next := FetchPage(objects, from, out, i, j);
      JoinSlices(objects, first, i, j);
      if i < |objects| { Progress(objects, out.Length, i); }
      if more { FromItself(objects, j, 0); }
      all, from, i := all + page, next, j;
    }
    assert objects[first..] == objects[first..|objects|];
  }
}
