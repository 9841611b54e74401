/** The coprocessor's AAC and LHDC loaders over the byte ring (a2dpplay.cpp). */
module Loaders {
  import opened Bytes
  import opened Rings
  import opened InCaches
  import opened Framing

  lemma LiveAt(cache: seq<Byte>, wpos: nat, rpos: nat, i: nat)
    requires wpos < |cache| && rpos < |cache| && i < DataLen(|cache|, wpos, rpos)
    ensures Ahead(|cache|, rpos, i) < |cache|
    ensures Between(cache, wpos, rpos)[i] == cache[Ahead(|cache|, rpos, i)]
  {
  }

  /** Copies the n bytes that follow a header of h, and gives the position past them. */
  method TakePacket(c: InCache, inWpos: nat, inRpos: nat, h: nat, n: nat) returns (payload: seq<Byte>, next: nat)
    requires inWpos < c.cache.Length && inRpos < c.cache.Length
    requires h + n <= DataLen(c.cache.Length, inWpos, inRpos)
    ensures next < c.cache.Length
    ensures var s := Between(c.cache[..], inWpos, inRpos);
      payload == s[h..h + n] && Between(c.cache[..], inWpos, next) == s[h + n..]
  {
    ghost var s := Between(c.cache[..], inWpos, inRpos);
    Consumed(c.cache[..], inWpos, inRpos, h);
    next := UpdatePos(c.cache.Length, inRpos, h);
    payload := c.GetData(n, inWpos, next);
    assert payload == s[h..][..n] == s[h..h + n];
    Consumed(c.cache[..], inWpos, next, n);
    next := UpdatePos(c.cache.Length, next, n);
    assert Between(c.cache[..], inWpos, next) == s[h..][n..] == s[h + n..];
  }

  /** The length in an AAC header, which may wrap around the end of the ring. */
  method ReadLength(c: InCache, inWpos: nat, inRpos: nat) returns (n: nat)
    requires inWpos < c.cache.Length && inRpos < c.cache.Length && DataLen(c.cache.Length, inWpos, inRpos) >= 2
    ensures n == AacLength(Between(c.cache[..], inWpos, inRpos))
  {
    LiveAt(c.cache[..], inWpos, inRpos, 0);
    LiveAt(c.cache[..], inWpos, inRpos, 1);
    if inWpos > inRpos || c.cache.Length >= inRpos + 2 {
      n := Word(c.cache[inRpos], c.cache[inRpos + 1]);
    } else {
      n := Word(c.cache[inRpos], c.cache[0]);
    }
  }

  lemma AacCases(s: seq<Byte>)
    ensures |s| < 2 ==> AacFromRing(s) == Load(1, [], s)
    ensures |s| >= 2 ==> var n := AacLength(s);
      && (n >= AAC_MAX ==> AacFromRing(s) == Load(2, [], s))
      && (n < AAC_MAX && |s| < 2 + n ==> AacFromRing(s) == Load(3, [], s))
      && (n < AAC_MAX && |s| >= 2 + n ==> AacFromRing(s) == Load(0, s[2..2 + n], s[2 + n..]))
  {
  }

  /** Loads one AAC packet; maxRead is how far the decoder may read. */
  method CpLoadAacFrame(c: InCache) returns (code: nat, payload: seq<Byte>, maxRead: nat)
    requires c.Valid()
    modifies c`rpos
    ensures c.Valid()
    ensures AacFromRing(old(c.Live())) == Load(code, payload, c.Live())
    ensures code == 0 ==> maxRead == MaxRead(|payload|) && |payload| <= maxRead
  {
    payload, maxRead := [], 0;
    ghost var s := c.Live();
    AacCases(s);
    var inRpos, inWpos := c.rpos, c.wpos;
    var len := DataLen(c.cache.Length, inWpos, inRpos);
    if len < 2 {
      return 1, payload, maxRead;
    }
    var aacLen := ReadLength(c, inWpos, inRpos);
    if aacLen >= AAC_MAX {
      return 2, payload, maxRead;
    }
    maxRead := MaxRead(aacLen);
    if len < 2 + aacLen {
      return 3, payload, maxRead;
    }
    payload, inRpos := TakePacket(c, inWpos, inRpos, 2, aacLen);
    c.rpos := inRpos;
    assert c.Live() == s[2 + aacLen..];
    return 0, payload, maxRead;
  }

  lemma TagSeen(s: seq<Byte>, i: nat, header: seq<Byte>)
    requires i + LHDC_HEADER <= |s| && header == s[i..][..LHDC_HEADER]
    ensures header[..4] == s[i..i + 4] && header[4..] == s[i + 4..i + 8]
  {
  }

  /** The scan: byte by byte up to the first tag, or until fewer bytes than a header are left. */
  method Scan(c: InCache, inWpos: nat) returns (inRpos: nat, header: seq<Byte>)
    requires c.Valid() && inWpos == c.wpos
    ensures inRpos < c.cache.Length
    ensures var s := c.Live(); var i := FirstTag(s, 0);
      && inRpos == Ahead(c.cache.Length, c.rpos, i)
      && Between(c.cache[..], inWpos, inRpos) == s[i..]
      && (|s| - i < LHDC_HEADER ==> header == [])
      && (|s| - i >= LHDC_HEADER ==> header == s[i..][..LHDC_HEADER])
  {
    ghost var s, i := c.Live(), 0;
    inRpos, header := c.rpos, [];
    while true
      invariant i <= |s| && FirstTag(s, i) == FirstTag(s, 0)
      invariant inRpos == Ahead(c.cache.Length, c.rpos, i) < c.cache.Length
      invariant Between(c.cache[..], inWpos, inRpos) == s[i..]
      decreases |s| - i
    {
      var len := DataLen(c.cache.Length, inWpos, inRpos);
      assert len == |s| - i;
      if len < LHDC_HEADER {
        return inRpos, [];
      }
      header := c.GetData(LHDC_HEADER, inWpos, inRpos);
      TagSeen(s, i, header);
      if header[..4] == TAG {
        return inRpos, header;
      }
      Consumed(c.cache[..], inWpos, inRpos, 1);
      AheadTwice(c.cache.Length, c.rpos, i, 1);
      inRpos := UpdatePos(c.cache.Length, inRpos, 1);
      i := i + 1;
    }
  }

  /** Loads one LHDC packet. A latency change is taken over first, instead of a packet; a decoder
      that is not ready gets a load that succeeds without one. */
  method CpLoadLhdcFrame(c: InCache, latencyIndex: Byte, latencyUpdated: Byte, ready: bool)
      returns (code: nat, payload: seq<Byte>, latency: Byte)
    requires c.Valid()
    modifies c`rpos
    ensures c.Valid() && latency == latencyUpdated
    ensures latencyIndex != latencyUpdated ==> code == 1 && payload == [] && c.Live() == old(c.Live())
    ensures latencyIndex == latencyUpdated && !ready ==> code == 0 && payload == [] && c.Live() == old(c.Live())
    ensures latencyIndex == latencyUpdated && ready ==>
      LhdcFromRing(old(c.Live())) == Load(code, payload, c.Live())
  {
    payload, latency := [], latencyIndex;
    if latencyIndex != latencyUpdated {
      return 1, payload, latencyUpdated;
    }
    if !ready {
      return 0, payload, latency;
    }
    code, payload := LoadTagged(c);
  }

  /** The scan and the copy. */
  method LoadTagged(c: InCache) returns (code: nat, payload: seq<Byte>)
    requires c.Valid()
    modifies c`rpos
    ensures c.Valid() && LhdcFromRing(old(c.Live())) == Load(code, payload, c.Live())
  {
    payload := [];
    var inWpos := c.wpos;
    var inRpos, header := Scan(c, inWpos);
    ghost var s := c.Live();
    ghost var i := FirstTag(s, 0);
    LhdcCases(s);
    if header == [] {
      return 1, payload;
    }
    TagSeen(s, i, header);
    var packetLen := Read32(header[4..]);
    assert packetLen == LhdcLength(s, i);
    var len := DataLen(c.cache.Length, inWpos, inRpos);
    if len < LHDC_HEADER + packetLen {
      return 1, payload;
    }
    Deeper(s, i, LHDC_HEADER, packetLen);
    payload, inRpos := TakePacket(c, inWpos, inRpos, LHDC_HEADER, packetLen);
    c.rpos := inRpos;
    assert c.Live() == s[i + LHDC_HEADER + packetLen..];
    return 0, payload;
  }

  lemma LhdcCases(s: seq<Byte>)
    ensures var i := FirstTag(s, 0);
      && (|s| - i < LHDC_HEADER ==> LhdcFromRing(s) == Load(1, [], s))
      && (|s| - i >= LHDC_HEADER ==> LhdcFromRing(s) == LhdcAt(s, i, LhdcLength(s, i)))
  {
    if |s| - FirstTag(s, 0) >= LHDC_HEADER {
      var i := FirstTag(s, 0);
      var n := LhdcLength(s, i);
      assert |s| - i < LHDC_HEADER + n <==> |s| < i + LHDC_HEADER + n;
    }
  }

  /** What a load gives when the first tag is at i and its length field says n. */
  function LhdcAt(s: seq<Byte>, i: nat, n: nat): Load
    requires i + LHDC_HEADER <= |s|
  {
    var end := i + LHDC_HEADER + n;
    if |s| < end then Load(1, [], s) else Load(0, s[i + LHDC_HEADER..end], s[end..])
  }

  lemma Deeper<T>(s: seq<T>, i: nat, h: nat, n: nat)
    requires i + h + n <= |s|
    ensures s[i..][h..h + n] == s[i + h..i + h + n] && s[i..][h + n..] == s[i + h + n..]
  {
  }
}
