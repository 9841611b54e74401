/** The byte queue of utils/cqueue/cqueue.c, on which the players' input queue is built. */
module CQueues {
  import opened Bytes
  import opened Rings

  /** The two spans a peek hands out: places in the base, the second possibly absent. */
  datatype Peeked = Spans(at1: nat, len1: nat, at2: nat, len2: nat) | Refused

  class CQueue {
    const base: array<Byte>
    var read: nat
    var write: nat
    var len: nat

    ghost predicate Valid()
      reads this
    {
      && len <= base.Length
      && (base.Length == 0 ==> read == write == 0)
      && (base.Length > 0 ==> read < base.Length && write == Ahead(base.Length, read, len))
    }

    ghost function Contents(): (s: seq<Byte>)
      requires Valid()
      reads this, base
      ensures |s| == len
    {
      Taken(base[..], read, len)
    }

    constructor (buf: array<Byte>)
      ensures Valid() && base == buf && len == 0 && Contents() == []
    {
      base := buf;
      len, read, write := 0, 0, 0;
    }

    function Available(): int
      reads this
    {
      base.Length - len
    }

    /** memcpy into the base. */
    method Store(at: nat, e: seq<Byte>)
      requires at + |e| <= base.Length
      modifies base
      ensures base[..] == old(base[..at]) + e + old(base[at + |e|..])
    {
      forall i | 0 <= i < |e| {
        base[at + i] := e[i];
      }
    }

    /** Appends e, or refuses it and changes nothing. */
    method EnCQueue(e: seq<Byte>) returns (ok: bool)
      requires Valid()
      modifies this`len, this`write, base
      ensures Valid() && read == old(read)
      ensures ok <==> old(len) + |e| <= base.Length
      ensures Contents() == if ok then old(Contents()) + e else old(Contents())
    {
      if Available() < |e| {
        return false;
      }
      ghost var before := base[..];
      var bytesToTheEnd := base.Length - write;
      if bytesToTheEnd > |e| {
        Store(write, e);
        write := write + |e|;
      } else {
        Store(write, e[..bytesToTheEnd]);
        Store(0, e[bytesToTheEnd..]);
        write := |e| - bytesToTheEnd;
      }
      if base.Length > 0 {
        AppendedInSpans(before, read, len, e, base[..]);
      }
      len := len + |e|;
      return true;
    }

    /** Takes n bytes off the front. */
    method DeCQueue(n: nat) returns (ok: bool, e: seq<Byte>)
      requires Valid()
      modifies this`len, this`read
      ensures Valid() && write == old(write)
      ensures ok <==> n <= old(len)
      ensures ok ==> e == old(Contents())[..n] && Contents() == old(Contents())[n..]
      ensures !ok ==> e == [] && Contents() == old(Contents())
    {
      if len < n {
        return false, [];
      }
      ghost var all := Contents();
      var bytesToTheEnd := base.Length - read;
      if base.Length > 0 {
        FrontInSpans(base[..], read, len, n);
      }
      ghost var next := if bytesToTheEnd > n then read + n else n - bytesToTheEnd;
      assert base.Length > 0 ==> next == Ahead(base.Length, read, n);
      assert Taken(base[..], next, len - n) == all[n..];
      if bytesToTheEnd > n {
        e := base[read..read + n];
        read := read + n;
      } else {
        e := base[read..] + base[..n - bytesToTheEnd];
        read := n - bytesToTheEnd;
      }
      len := len - n;
      assert e == all[..n];
      return true, e;
    }

    /** Drops n bytes: the form of DeCQueue that is given no place to copy them to. */
    method Drop(n: nat) returns (ok: bool)
      requires Valid()
      modifies this`len, this`read
      ensures Valid() && write == old(write)
      ensures ok <==> n <= old(len)
      ensures Contents() == if ok then old(Contents())[n..] else old(Contents())
    {
      if len < n {
        return false;
      }
      if base.Length > 0 {
        TakenDrops(base[..], read, len, n);
        AheadTwice(base.Length, read, n, len - n);
        ModuloIsAhead(base.Length, read, n);
        read := (read + n) % base.Length;
      } else {
        read := 0;
      }
      len := len - n;
      return true;
    }

    /** The first want bytes where they lie: in one span, or in two when they wrap. */
    method PeekCQueue(want: nat) returns (p: Peeked)
      requires Valid()
      ensures p.Refused? <==> want > len
      ensures p.Spans? ==>
        && p.len1 + p.len2 == want && p.at1 + p.len1 <= base.Length && p.at2 + p.len2 <= base.Length
        && base[p.at1..p.at1 + p.len1] + base[p.at2..p.at2 + p.len2] == Contents()[..want]
    {
      if len < want {
        return Refused;
      }
      if base.Length > 0 {
        TakenDrops(base[..], read, len, want);
        TakenInSpans(base[..], read, want);
      }
      if write > read || base.Length - read >= want {
        return Spans(read, want, 0, 0);
      } else {
        var len1 := base.Length - read;
        return Spans(read, len1, 0, want - len1);
      }
    }
  }

  lemma ModuloIsAhead(size: nat, pos: nat, k: nat)
    requires pos < size && k <= size
    ensures (pos + k) % size == Ahead(size, pos, k)
  {
    Quotient(size, (pos + k) / size, (pos + k) % size);
  }

  lemma Quotient(size: nat, q: int, r: nat)
    requires r < size && 0 <= size * q + r < 2 * size
    ensures if size * q + r < size then q == 0 else q == 1
  {
    if q >= 2 {
      Grows(size, 2, q);
    } else if q <= -1 {
      Grows(size, q, -1);
    }
  }

  lemma Grows(n: nat, a: int, b: int)
    requires a <= b
    ensures n * a <= n * b
  {
  }

  /** The first n bytes, copied out in one span or in two. */
  lemma FrontInSpans(base: seq<Byte>, read: nat, len: nat, n: nat)
    requires n <= len <= |base| && read < |base|
    ensures var room := |base| - read;
      Taken(base, read, len)[..n] == if room > n then base[read..read + n] else base[read..] + base[..n - room]
    ensures Taken(base, Ahead(|base|, read, n), len - n) == Taken(base, read, len)[n..]
    ensures Ahead(|base|, Ahead(|base|, read, n), len - n) == Ahead(|base|, read, len)
  {
    TakenInSpans(base, read, n);
    TakenDrops(base, read, len, n);
    AheadTwice(|base|, read, n, len - n);
  }

  /** Two copies, the first up to the end, append around the ring. */
  lemma AppendedInSpans(before: seq<Byte>, read: nat, len: nat, e: seq<Byte>, after: seq<Byte>)
    requires read < |before| && len + |e| <= |before|
    requires var at := Ahead(|before|, read, len); var room := |before| - at;
      if room > |e| then after == before[..at] + e + before[at + |e|..]
      else
        var mid := before[..at] + e[..room] + before[at + room..];
        after == mid[..0] + e[room..] + mid[|e| - room..]
    ensures |after| == |before| && Taken(after, read, len + |e|) == Taken(before, read, len) + e
    ensures var at := Ahead(|before|, read, len); var room := |before| - at;
      (if room > |e| then at + |e| else |e| - room) == Ahead(|before|, read, len + |e|)
  {
    var at := Ahead(|before|, read, len);
    StoredInSpans(before, at, e, after);
    WriteAppends(before, read, len, e);
    WriteMoves(|before|, read, len, |e|);
  }

  lemma StoredInSpans(before: seq<Byte>, at: nat, e: seq<Byte>, after: seq<Byte>)
    requires at < |before| && |e| <= |before|
    requires var room := |before| - at;
      if room > |e| then after == before[..at] + e + before[at + |e|..]
      else
        var mid := before[..at] + e[..room] + before[at + room..];
        after == mid[..0] + e[room..] + mid[|e| - room..]
    ensures after == Written(before, at, e)
  {
    WrittenInSpans(before, at, e);
  }

  lemma WriteMoves(size: nat, read: nat, len: nat, n: nat)
    requires read < size && len + n <= size
    ensures var at := Ahead(size, read, len); var room := size - at;
      (if room > n then at + n else n - room) == Ahead(size, read, len + n)
  {
  }
}
