/** Storing a reassembled LHDC packet in the input queue (a2dpplay.cpp). */
module LhdcStores {
  import opened Bytes
  import opened CQueues
  import opened Framing

  method CopyTo(buf: array<Byte>, at: nat, s: seq<Byte>)
    requires at + |s| <= buf.Length
    modifies buf
    ensures buf[..at] == old(buf[..at]) && buf[at..at + |s|] == s && buf[at + |s|..] == old(buf[at + |s|..])
  {
    forall i | 0 <= i < |s| {
      buf[at + i] := s[i];
    }
  }

  lemma Assembled(t: seq<Byte>, p: seq<Byte>)
    requires |t| == LHDC_HEADER + |p| && t[..4] == TAG && t[4..8] == Length32(|p|) && t[8..] == p
    ensures t == LhdcFrame(p)
  {
  }

  /** The payload, the tag and the length are put together in temp, in this order, and queued as a
      whole or not at all; an empty packet queues nothing. */
  method Store(q: CQueue, temp: array<Byte>, p: seq<Byte>) returns (ok: bool)
    requires q.Valid() && temp != q.base && LHDC_HEADER + |p| <= temp.Length
    modifies temp, q`len, q`write, q.base
    ensures q.Valid() && ok == (p == [] || old(q.len) + LHDC_HEADER + |p| <= q.base.Length)
    ensures q.Contents() == old(q.Contents()) + if ok && p != [] then LhdcFrame(p) else []
  {
    var newLen := 0;
    ghost var s := q.Contents();
    if |p| != 0 {
      newLen := |p| + LHDC_HEADER;
      CopyTo(temp, LHDC_HEADER, p);
      CopyTo(temp, 0, TAG);
      CopyTo(temp, 4, Length32(|p|));
      assert temp[..newLen][8..] == temp[8..][..|p|] == p;
      Assembled(temp[..newLen], p);
    }
    assert q.Contents() == s;
    ok := q.EnCQueue(temp[..newLen]);
  }
}
