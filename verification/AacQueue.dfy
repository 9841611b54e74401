/** The AAC side of the input queue (a2dpplay.cpp): packets stored whole or not at all, loaded back
    in order, and counted. */
module AacQueues {
  import opened Bytes
  import opened CQueues
  import opened Framing

  /** The queue's bytes, the two counters, and whether the player is still caching. */
  datatype Aac = Aac(bytes: seq<Byte>, mtuCount: int, delayMtuCount: int, caching: bool)

  predicate Fits(a: Aac, size: nat, p: seq<Byte>) {
    size - |a.bytes| >= |p| + 2
  }

  /** One attempt to store a packet. While caching, a packet that does not fit is counted all the
      same, and ends the caching. */
  function StoreAac(a: Aac, size: nat, limit: int, p: seq<Byte>): Aac {
    var bytes := if Fits(a, size, p) then a.bytes + AacFrame(p) else a.bytes;
    if a.caching then
      Aac(bytes, (if a.delayMtuCount == 0 then 0 else a.mtuCount) + 1, a.delayMtuCount + 1,
        a.delayMtuCount + 1 < limit && Fits(a, size, p))
    else
      Aac(bytes, if Fits(a, size, p) then a.mtuCount + 1 else a.mtuCount, 0, false)
  }

  function LoadAac(a: Aac): (Load, Aac) {
    var r := AacFromQueue(a.bytes);
    (r, a.(bytes := r.rest, mtuCount := if r.code == 0 then a.mtuCount - 1 else a.mtuCount))
  }

  class AacQueue {
    const q: CQueue
    const limit: int
    var mtuCount: int
    var delayMtuCount: int
    var caching: bool

    ghost predicate Valid()
      reads this, q
    {
      q.Valid()
    }

    ghost function View(): Aac
      requires Valid()
      reads this, q, q.base
    {
      Aac(q.Contents(), mtuCount, delayMtuCount, caching)
    }

    constructor (buf: array<Byte>, limit: int, delay: int)
      ensures Valid() && this.limit == limit && q.base == buf && fresh(q)
      ensures View() == Aac([], 0, delay, true)
    {
      q := new CQueue(buf);
      this.limit := limit;
      mtuCount, delayMtuCount, caching := 0, delay, true;
    }

    /** The header and then the packet, if there is room for both. */
    method Enqueue(p: seq<Byte>) returns (ok: bool)
      requires Valid()
      modifies q, q.base
      ensures Valid() && ok == old(Fits(View(), q.base.Length, p))
      ensures q.Contents() == old(q.Contents()) + if ok then AacFrame(p) else []
    {
      ghost var s := q.Contents();
      ok := q.base.Length - q.len >= |p| + 2;
      if ok {
        ok := q.EnCQueue([Low(|p|), High(|p|)]);
        ok := q.EnCQueue(p);
        Grouped(s, [Low(|p|), High(|p|)], p);
      }
    }

    /** One attempt of store_sbc_buffer. */
    method Store(p: seq<Byte>)
      requires Valid()
      modifies this`mtuCount, this`delayMtuCount, this`caching, q, q.base
      ensures Valid() && View() == old(StoreAac(View(), q.base.Length, limit, p))
    {
      if caching {
        var ok := Enqueue(p);
        if delayMtuCount == 0 {
          mtuCount := 0;
        }
        delayMtuCount := delayMtuCount + 1;
        mtuCount := mtuCount + 1;
        if delayMtuCount >= limit {
          caching := false;
        }
        if !ok {
          caching := false;
        }
      } else {
        delayMtuCount := 0;
        var ok := Enqueue(p);
        if ok {
          mtuCount := mtuCount + 1;
        }
      }
    }

    /** pcm_buffer_read_no_protction: n bytes, copied from where they lie and then dropped. */
    method Read(n: nat) returns (ok: bool, data: seq<Byte>)
      requires Valid()
      modifies q`len, q`read
      ensures Valid() && ok == (n <= old(q.len))
      ensures if ok then |data| == n && data + q.Contents() == old(q.Contents())
        else data == [] && q.Contents() == old(q.Contents())
    {
      ghost var s := q.Contents();
      var p := q.PeekCQueue(n);
      if p.Refused? {
        return false, [];
      }
      data := q.base[p.at1..p.at1 + p.len1] + q.base[p.at2..p.at2 + p.len2];
      ok := q.Drop(n);
      assert s == s[..n] + s[n..];
    }

    /** load_aac_frame. */
    method LoadFrame() returns (code: nat, payload: seq<Byte>, maxRead: nat)
      requires Valid()
      modifies this`mtuCount, q`len, q`read
      ensures Valid()
      ensures old(LoadAac(View())) == (Load(code, payload, q.Contents()), View())
      ensures code == 0 ==> maxRead == MaxRead(|payload|) && |payload| <= maxRead
    {
      maxRead := 0;
      ghost var s := q.Contents();
      var ok, header := Read(2);
      if !ok {
        return 1, [], maxRead;
      }
      var aacLen := Word(header[0], header[1]);
      Peeled(s, header, q.Contents());
      if aacLen >= AAC_MAX {
        return 2, [], maxRead;
      }
      maxRead := MaxRead(aacLen);
      ok, payload := Read(aacLen);
      if !ok {
        return 1, [], maxRead;
      }
      Peeled(s[2..], payload, q.Contents());
      Twice(s, aacLen);
      mtuCount := mtuCount - 1;
      return 0, payload, maxRead;
    }
  }

  lemma Peeled<T>(s: seq<T>, a: seq<T>, b: seq<T>)
    requires s == a + b
    ensures a == s[..|a|] && b == s[|a|..]
  {
  }

  lemma Twice<T>(s: seq<T>, n: nat)
    requires 2 + n <= |s|
    ensures s[2..][..n] == s[2..2 + n] && s[2..][n..] == s[2 + n..]
  {
  }

  // ----- Whole runs -----

  /** The queue as a list of packets, and whether a packet was counted without being stored. */
  datatype Shelf = Shelf(kept: seq<seq<Byte>>, delayMtuCount: int, caching: bool, overflowed: bool)

  predicate Small(ps: seq<seq<Byte>>) {
    forall i :: 0 <= i < |ps| ==> |ps[i]| < AAC_MAX
  }

  /** What the queue holds for a shelf: its packets end to end, counted. */
  function Shown(x: Shelf): Aac {
    Aac(AacFrames(x.kept), |x.kept| + (if x.overflowed then 1 else 0), x.delayMtuCount, x.caching)
  }

  function Shelve(x: Shelf, size: nat, limit: int, p: seq<Byte>): Shelf {
    var fits := Fits(Shown(x), size, p);
    var kept := if fits then x.kept + [p] else x.kept;
    if x.caching then
      Shelf(kept, x.delayMtuCount + 1, x.delayMtuCount + 1 < limit && fits, x.overflowed || !fits)
    else Shelf(kept, 0, false, x.overflowed)
  }

  datatype Event = Store(p: seq<Byte>) | LoadOne

  /** The player does not load before the caching is over. */
  predicate MayHappen(caching: bool, e: Event) {
    match e case Store(p) => |p| < AAC_MAX case LoadOne => !caching
  }

  /** A run of the byte queue, and the packets its loads gave. */
  function RunBytes(a: Aac, size: nat, limit: int, es: seq<Event>): (Aac, seq<Load>)
    decreases |es|
  {
    if es == [] then (a, []) else
    match es[0]
    case Store(p) => RunBytes(StoreAac(a, size, limit, p), size, limit, es[1..])
    case LoadOne =>
      var (r, a') := LoadAac(a);
      var (a'', loads) := RunBytes(a', size, limit, es[1..]);
      (a'', [r] + loads)
  }

  /** The same run of a first-in first-out list of packets. */
  function RunShelf(x: Shelf, size: nat, limit: int, es: seq<Event>): (Shelf, seq<seq<seq<Byte>>>)
    decreases |es|
  {
    if es == [] then (x, []) else
    match es[0]
    case Store(p) => RunShelf(Shelve(x, size, limit, p), size, limit, es[1..])
    case LoadOne =>
      var x' := if x.kept == [] then x else x.(kept := x.kept[1..]);
      var (x'', loads) := RunShelf(x', size, limit, es[1..]);
      (x'', [if x.kept == [] then [] else [x.kept[0]]] + loads)
  }

  predicate Allowed(x: Shelf, size: nat, limit: int, es: seq<Event>)
    decreases |es|
  {
    es == [] || (
      && MayHappen(x.caching, es[0])
      && match es[0]
        case Store(p) => Allowed(Shelve(x, size, limit, p), size, limit, es[1..])
        case LoadOne => Allowed(if x.kept == [] then x else x.(kept := x.kept[1..]), size, limit, es[1..]))
  }

  /** A load of bytes agrees with a load from the list: the first packet, or nothing. */
  predicate SameLoad(r: Load, ps: seq<seq<Byte>>) {
    if ps == [] then r.code == 1 else |ps| == 1 && r.code == 0 && r.payload == ps[0]
  }

  predicate SameLoads(rs: seq<Load>, pss: seq<seq<seq<Byte>>>) {
    |rs| == |pss| && forall i :: 0 <= i < |rs| ==> SameLoad(rs[i], pss[i])
  }

  /** The counters can be reset to zero only before the first packet. */
  predicate Sound(x: Shelf) {
    && Small(x.kept)
    && (x.caching ==> !x.overflowed)
    && (x.caching && x.delayMtuCount == 0 ==> x.kept == [])
    && (x.caching ==> x.delayMtuCount >= 0)
  }

  lemma StoreRefines(x: Shelf, size: nat, limit: int, p: seq<Byte>)
    requires Sound(x) && |p| < AAC_MAX
    ensures StoreAac(Shown(x), size, limit, p) == Shown(Shelve(x, size, limit, p))
    ensures Sound(Shelve(x, size, limit, p))
  {
    AacFramesSnoc(x.kept, p);
  }

  lemma LoadRefines(x: Shelf)
    requires Sound(x) && !x.caching
    ensures var (r, a) := LoadAac(Shown(x));
      if x.kept == [] then SameLoad(r, []) && a == Shown(x)
      else SameLoad(r, [x.kept[0]]) && a == Shown(x.(kept := x.kept[1..])) && Sound(x.(kept := x.kept[1..]))
  {
    if x.kept != [] {
      AacRoundTrip(x.kept[0], AacFrames(x.kept[1..]));
    }
  }

  /** Over every run, the queue of bytes behaves as a first-in first-out list of whole packets: the
      loads give the stored packets in order, a load from an empty queue gives nothing, a packet
      that does not fit changes no byte, and the counter is the number of packets in the queue, plus
      one if a packet overflowed while caching. */
  lemma {:induction false} QueueIsFifo(x: Shelf, size: nat, limit: int, es: seq<Event>)
    requires Sound(x) && Allowed(x, size, limit, es)
    ensures var (a, rs) := RunBytes(Shown(x), size, limit, es);
      var (x', pss) := RunShelf(x, size, limit, es);
      a == Shown(x') && SameLoads(rs, pss)
    decreases |es|
  {
    if es != [] {
      match es[0]
      case Store(p) =>
        StoreRefines(x, size, limit, p);
        QueueIsFifo(Shelve(x, size, limit, p), size, limit, es[1..]);
      case LoadOne =>
        LoadRefines(x);
        QueueIsFifo(if x.kept == [] then x else x.(kept := x.kept[1..]), size, limit, es[1..]);
    }
  }

  /** The packets a run accepts, in order. */
  function Accepted(x: Shelf, size: nat, limit: int, es: seq<Event>): seq<seq<Byte>>
    decreases |es|
  {
    if es == [] then [] else
    match es[0]
    case Store(p) =>
      (if Fits(Shown(x), size, p) then [p] else []) + Accepted(Shelve(x, size, limit, p), size, limit, es[1..])
    case LoadOne => Accepted(if x.kept == [] then x else x.(kept := x.kept[1..]), size, limit, es[1..])
  }

  function Joined(pss: seq<seq<seq<Byte>>>): seq<seq<Byte>>
    decreases |pss|
  {
    if pss == [] then [] else pss[0] + Joined(pss[1..])
  }

  /** What was there and what came in is what went out and what is left, in order. */
  lemma {:induction false} ListConserved(x: Shelf, size: nat, limit: int, es: seq<Event>)
    ensures x.kept + Accepted(x, size, limit, es) == Joined(RunShelf(x, size, limit, es).1) + RunShelf(x, size, limit, es).0.kept
    decreases |es|
  {
    if es != [] {
      match es[0]
      case Store(p) =>
        var y := Shelve(x, size, limit, p);
        ListConserved(y, size, limit, es[1..]);
        Grouped(x.kept, if Fits(Shown(x), size, p) then [p] else [], Accepted(y, size, limit, es[1..]));
      case LoadOne =>
        var y := if x.kept == [] then x else x.(kept := x.kept[1..]);
        ListConserved(y, size, limit, es[1..]);
        var ps := if x.kept == [] then [] else [x.kept[0]];
        var (x', pss) := RunShelf(y, size, limit, es[1..]);
        JoinedCons(ps, pss);
        Grouped(ps, y.kept, Accepted(y, size, limit, es[1..]));
        Grouped(ps, Joined(pss), x'.kept);
        assert x.kept == ps + y.kept;
    }
  }

  lemma Grouped<T>(a: seq<T>, b: seq<T>, c: seq<T>)
    ensures (a + b) + c == a + (b + c)
  {
  }

  lemma JoinedCons(ps: seq<seq<Byte>>, pss: seq<seq<seq<Byte>>>)
    ensures Joined([ps] + pss) == ps + Joined(pss)
  {
    assert ([ps] + pss)[1..] == pss;
  }

  function StoreAll(x: Shelf, size: nat, limit: int, ps: seq<seq<Byte>>): Shelf
    decreases |ps|
  {
    if ps == [] then x else StoreAll(Shelve(x, size, limit, ps[0]), size, limit, ps[1..])
  }

  lemma {:induction false} CachingStaysOver(x: Shelf, size: nat, limit: int, ps: seq<seq<Byte>>)
    requires !x.caching
    ensures !StoreAll(x, size, limit, ps).caching && StoreAll(x, size, limit, ps).overflowed == x.overflowed
    decreases |ps|
  {
    if ps != [] {
      CachingStaysOver(Shelve(x, size, limit, ps[0]), size, limit, ps[1..]);
    }
  }

  /** Caching goes on exactly while fewer packets than the limit have come, those counted at its start
      included, and all of them fit the queue. */
  lemma {:induction false} CachingLasts(x: Shelf, size: nat, limit: int, ps: seq<seq<Byte>>)
    requires x.caching && ps != [] && |AacFrames(x.kept)| <= size
    ensures StoreAll(x, size, limit, ps).caching
      <==> x.delayMtuCount + |ps| < limit && |AacFrames(x.kept)| + |AacFrames(ps)| <= size
    decreases |ps|
  {
    var y, rest := Shelve(x, size, limit, ps[0]), ps[1..];
    AacFramesSnoc(x.kept, ps[0]);
    assert StoreAll(x, size, limit, ps) == StoreAll(y, size, limit, rest);
    if !y.caching {
      CachingStaysOver(y, size, limit, rest);
    } else if rest != [] {
      CachingLasts(y, size, limit, rest);
    }
  }

  function Start(delay: nat): Shelf {
    Shelf([], delay, true, false)
  }

  /** A session starts with an empty queue; the delay counter may be left over from the last one. */
  lemma SessionStarts(delay: nat)
    ensures Sound(Start(delay)) && Shown(Start(delay)) == Aac([], 0, delay, true)
  {
  }
}
