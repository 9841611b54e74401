/** The byte ring between the two processors (a2dpplay.cpp): the main processor loads it from the
    input queue, the coprocessor reads it. One place always stays free. */
module InCaches {
  import opened Bytes
  import opened Rings
  import opened CQueues

  function DataLen(size: nat, wpos: nat, rpos: nat): nat
    requires rpos <= size
  {
    if wpos >= rpos then wpos - rpos else size - rpos + wpos
  }

  function FreeLen(size: nat, wpos: nat, rpos: nat): (f: nat)
    requires wpos < size && rpos < size
    ensures f + DataLen(size, wpos, rpos) == size - 1
  {
    if wpos < rpos then rpos - wpos - 1 else size - wpos + rpos - 1
  }

  /** The bytes from rpos up to wpos. */
  function Between(cache: seq<Byte>, wpos: nat, rpos: nat): (s: seq<Byte>)
    requires wpos < |cache| && rpos < |cache|
    ensures |s| == DataLen(|cache|, wpos, rpos)
  {
    Taken(cache, rpos, DataLen(|cache|, wpos, rpos))
  }

  function UpdatePos(size: nat, pos: nat, len: nat): (p: nat)
    requires pos < size && len <= size
    ensures p < size && p == Ahead(size, pos, len)
  {
    if pos + len >= size then pos + len - size else pos + len
  }

  class InCache {
    const cache: array<Byte>
    var wpos: nat
    var rpos: nat

    ghost predicate Valid()
      reads this
    {
      wpos < cache.Length && rpos < cache.Length
    }

    ghost function Live(): seq<Byte>
      requires Valid()
      reads this, cache
    {
      Between(cache[..], wpos, rpos)
    }

    constructor (size: nat)
      requires size > 0
      ensures Valid() && fresh(cache) && cache.Length == size && Live() == []
    {
      cache := new Byte[size](_ => 0);
      wpos, rpos := 0, 0;
    }

    method Put(at: nat, e: seq<Byte>)
      requires at + |e| <= cache.Length
      modifies cache
      ensures at < cache.Length ==> cache[..] == Written(old(cache[..]), at, e)
      ensures cache[..] == old(cache[..at]) + e + old(cache[at + |e|..])
    {
      forall i | 0 <= i < |e| {
        cache[at + i] := e[i];
      }
      if at < cache.Length {
        WrittenInSpans(old(cache[..]), at, e);
      }
    }

    /** Copies e to the place at, in one piece if it fits in room, else up to room and then the rest. */
    method PutInTwo(at: nat, room: nat, e: seq<Byte>) returns (next: nat)
      requires at < cache.Length && |e| < cache.Length
      requires room == cache.Length - at || (|e| <= room && at + |e| <= cache.Length)
      modifies cache
      ensures next == Ahead(cache.Length, at, |e|) < cache.Length
      ensures cache[..] == Written(old(cache[..]), at, e)
    {
      var free := if room > |e| then |e| else room;
      Put(at, e[..free]);
      next := UpdatePos(cache.Length, at, free);
      WrittenTwice(old(cache[..]), at, e[..free], e[free..]);
      assert e[..free] + e[free..] == e;
      AheadTwice(cache.Length, at, free, |e| - free);
      if |e| - free > 0 {
        Put(next, e[free..]);
        next := UpdatePos(cache.Length, next, |e| - free);
      }
    }

    /** The copy of the two spans of a peek, with the positions read before it. */
    method CopyIn(inWpos: nat, inRpos: nat, e1: seq<Byte>, e2: seq<Byte>) returns (next: nat)
      requires inWpos < cache.Length && inRpos < cache.Length
      requires |e1| + |e2| <= FreeLen(cache.Length, inWpos, inRpos)
      modifies cache
      ensures next == Ahead(cache.Length, inWpos, |e1 + e2|) < cache.Length
      ensures cache[..] == Written(old(cache[..]), inWpos, e1 + e2)
    {
      next := inWpos;
      WrittenTwice(old(cache[..]), inWpos, e1, e2);
      AheadTwice(cache.Length, inWpos, |e1|, |e2|);
      if inWpos < inRpos {
        Put(next, e1);
        next := next + |e1|;
        Put(next, e2);
        next := next + |e2|;
      } else {
        var room := cache.Length - next;
        if |e1| > 0 {
          next := PutInTwo(next, room, e1);
          room := if next < inRpos then inRpos - next - 1 else cache.Length - next;
        } else {
          assert Written(old(cache[..]), inWpos, e1) == old(cache[..]);
        }
        if |e2| > 0 {
          next := PutInTwo(next, room, e2);
        } else {
          assert e1 + e2 == e1;
        }
      }
    }

    /** Loads what fits from the queue: the ring's bytes followed by the queue's stay the same. */
    method Load(q: CQueue) returns (r: int)
      requires Valid() && q.Valid() && q.base != cache
      modifies this`wpos, cache, q`len, q`read
      ensures Valid() && q.Valid() && r == 0 && rpos == old(rpos)
      ensures var n := old(if q.len <= FreeLen(cache.Length, wpos, rpos) then q.len else FreeLen(cache.Length, wpos, rpos));
        Live() == old(Live()) + old(q.Contents())[..n] && q.Contents() == old(q.Contents())[n..]
    {
      var inWpos, inRpos := wpos, rpos;
      var freeLen := FreeLen(cache.Length, inWpos, inRpos);
      ghost var live, queued := Live(), q.Contents();
      if freeLen == 0 {
        assert live + queued[..0] == live;
        return 0;
      }
      var size := q.len;
      if size > freeLen {
        size := freeLen;
      }
      var p := q.PeekCQueue(size);
      if p.Refused? {
        return 1;
      }
      var e1, e2 := q.base[p.at1..p.at1 + p.len1], q.base[p.at2..p.at2 + p.len2];
      assert e1 + e2 == queued[..size];
      Appended(cache[..], wpos, rpos, e1 + e2);
      wpos := CopyIn(inWpos, inRpos, e1, e2);
      assert Live() == live + queued[..size];
      assert q.Contents() == queued;
      var ok := q.Drop(size);
      assert q.Contents() == queued[size..];
      return 0;
    }

    /** Copies len bytes from inRpos on, in one piece or around the end. */
    method GetData(len: nat, inWpos: nat, inRpos: nat) returns (data: seq<Byte>)
      requires inWpos < cache.Length && inRpos < cache.Length && len <= DataLen(cache.Length, inWpos, inRpos)
      ensures data == Between(cache[..], inWpos, inRpos)[..len]
    {
      TakenDrops(cache[..], inRpos, DataLen(cache.Length, inWpos, inRpos), len);
      TakenInSpans(cache[..], inRpos, len);
      if inWpos > inRpos || cache.Length >= inRpos + len {
        data := cache[inRpos..inRpos + len];
      } else {
        var copyLen := cache.Length - inRpos;
        data := cache[inRpos..] + cache[..len - copyLen];
      }
    }
  }

  /** Bytes stored from wpos on, within the free places, come after the live ones. */
  lemma Appended(cache: seq<Byte>, wpos: nat, rpos: nat, e: seq<Byte>)
    requires wpos < |cache| && rpos < |cache| && |e| <= FreeLen(|cache|, wpos, rpos)
    ensures Ahead(|cache|, wpos, |e|) < |cache|
    ensures Between(Written(cache, wpos, e), Ahead(|cache|, wpos, |e|), rpos) == Between(cache, wpos, rpos) + e
  {
    var n := DataLen(|cache|, wpos, rpos);
    WriteAppends(cache, rpos, n, e);
    assert Ahead(|cache|, rpos, n) == wpos;
    assert DataLen(|cache|, Ahead(|cache|, wpos, |e|), rpos) == n + |e|;
  }

  /** Reading k bytes and moving the read position past them leaves the rest. */
  lemma Consumed(cache: seq<Byte>, wpos: nat, rpos: nat, k: nat)
    requires wpos < |cache| && rpos < |cache| && k <= DataLen(|cache|, wpos, rpos)
    ensures UpdatePos(|cache|, rpos, k) < |cache|
    ensures Between(cache, wpos, UpdatePos(|cache|, rpos, k)) == Between(cache, wpos, rpos)[k..]
  {
    TakenDrops(cache, rpos, DataLen(|cache|, wpos, rpos), k);
  }
}
