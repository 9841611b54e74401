/** How AAC and LHDC packets lie in the input queue and in the ring (a2dpplay.cpp), and what the
    loaders read back. */
module Framing {
  import opened Bytes

  /** What a load gives: its return code, the payload if the code is zero, and the bytes left. */
  datatype Load = Load(code: nat, payload: seq<Byte>, rest: seq<Byte>)

  // ----- AAC: two bytes of length, low byte first -----

  /** The longest packet the loaders accept is one byte short of this. */
  const AAC_MAX := 2048

  function Low(n: nat): Byte { n % 256 }
  function High(n: nat): Byte { n / 256 % 256 }

  function AacFrame(p: seq<Byte>): seq<Byte> {
    [Low(|p|), High(|p|)] + p
  }

  function Word(low: Byte, high: Byte): (n: nat)
    ensures n < 0x1_0000
  {
    var l: int, h: int := low, high;
    l + 256 * h
  }

  function AacLength(s: seq<Byte>): nat
    requires |s| >= 2
  {
    Word(s[0], s[1])
  }

  /** How many bytes the decoder may read ahead: the next power of two above n, from 64 up to 2048. */
  function MaxRead(n: nat): (m: nat)
    ensures m in {64, 128, 256, 512, 1024, 2048}
    ensures n < AAC_MAX ==> n < m
    ensures m > 64 ==> m <= 2 * n
  {
    if n < 64 then 64 else if n < 128 then 128 else if n < 256 then 256
    else if n < 512 then 512 else if n < 1024 then 1024 else 2048
  }

  /** The queue's loader takes the header off before it knows whether the packet is there. */
  function AacFromQueue(s: seq<Byte>): Load {
    if |s| < 2 then Load(1, [], s) else
    var n := AacLength(s);
    if n >= AAC_MAX then Load(2, [], s[2..])
    else if |s| - 2 < n then Load(1, [], s[2..])
    else Load(0, s[2..2 + n], s[2 + n..])
  }

  /** The ring's loader moves the read position only past a whole packet. */
  function AacFromRing(s: seq<Byte>): Load {
    if |s| < 2 then Load(1, [], s) else
    var n := AacLength(s);
    if n >= AAC_MAX then Load(2, [], s)
    else if |s| < 2 + n then Load(3, [], s)
    else Load(0, s[2..2 + n], s[2 + n..])
  }

  lemma AacHeader(n: nat)
    requires n < 0x1_0000
    ensures Word(Low(n), High(n)) == n
  {
  }

  lemma WordInverse(low: Byte, high: Byte)
    ensures Low(Word(low, high)) == low && High(Word(low, high)) == high
  {
  }

  /** How a packet lies in the queue: its length, low byte first, and then its bytes. */
  lemma AacFrameBytes(p: seq<Byte>)
    requires |p| < 0x1_0000
    ensures |AacFrame(p)| == 2 + |p| && AacFrame(p)[2..] == p
    ensures AacFrame(p)[0] == |p| % 256 && AacFrame(p)[1] == |p| / 256
  {
  }

  /** The return codes of the ring's loader, by the bytes there. */
  lemma AacRingCodes(s: seq<Byte>)
    ensures var n: int := if |s| < 2 then 0 else (s[0] as int) + 256 * (s[1] as int);
      && AacFromRing(s).code == (if |s| < 2 then 1 else if n >= 2048 then 2 else if |s| < 2 + n then 3 else 0)
      && (AacFromRing(s).code != 0 ==> AacFromRing(s).rest == s)
  {
  }

  /** Those of the queue's loader, and what each leaves: it is always past the header, if there is one. */
  lemma AacQueueCodes(s: seq<Byte>)
    ensures var n: int := if |s| < 2 then 0 else (s[0] as int) + 256 * (s[1] as int);
      && AacFromQueue(s).code == (if |s| < 2 then 1 else if n >= 2048 then 2 else if |s| < 2 + n then 1 else 0)
      && AacFromQueue(s).rest == (if |s| < 2 then s else if n >= 2048 || |s| < 2 + n then s[2..] else s[2 + n..])
  {
  }

  /** Both loaders give back a stored packet and leave what follows it. */
  lemma AacRoundTrip(p: seq<Byte>, rest: seq<Byte>)
    requires |p| < 2048
    ensures AacFromQueue(AacFrame(p) + rest) == AacFromRing(AacFrame(p) + rest) == Load(0, p, rest)
  {
    AacHeader(|p|);
    var s := AacFrame(p) + rest;
    assert s[2..2 + |p|] == p && s[2 + |p|..] == rest;
  }

  /** The ring's loader succeeds exactly on bytes that start with a whole packet. */
  lemma AacRingAcceptsFrames(s: seq<Byte>)
    ensures AacFromRing(s).code == 0 <==> exists p, rest :: |p| < AAC_MAX && s == AacFrame(p) + rest
  {
    var r := AacFromRing(s);
    if r.code == 0 {
      assert s == AacFrame(r.payload) + r.rest;
    }
    if exists p, rest :: |p| < AAC_MAX && s == AacFrame(p) + rest {
      var p, rest :| |p| < AAC_MAX && s == AacFrame(p) + rest;
      AacRoundTrip(p, rest);
    }
  }

  /** On a packet that has only partly arrived, the ring's loader changes nothing; the queue's has
      already thrown the header away. */
  lemma AacPartial(p: seq<Byte>, got: seq<Byte>)
    requires |p| < AAC_MAX && got < AacFrame(p)
    ensures AacFromRing(got).code in {1, 3} && AacFromRing(got).rest == got
    ensures AacFromQueue(got).code == 1 && AacFromQueue(got).rest == if |got| < 2 then got else got[2..]
  {
    AacHeader(|p|);
    if |got| >= 2 {
      assert got[0] == AacFrame(p)[0] && got[1] == AacFrame(p)[1];
    }
  }

  function AacFrames(ps: seq<seq<Byte>>): seq<Byte>
    decreases |ps|
  {
    if ps == [] then [] else AacFrame(ps[0]) + AacFrames(ps[1..])
  }

  lemma {:induction false} AacFramesSnoc(ps: seq<seq<Byte>>, p: seq<Byte>)
    ensures AacFrames(ps + [p]) == AacFrames(ps) + AacFrame(p)
    decreases |ps|
  {
    if ps == [] {
      assert AacFrames([p]) == AacFrame(p) + AacFrames([]) && [] + [p] == [p];
    } else {
      AacFramesSnoc(ps[1..], p);
      assert (ps + [p])[1..] == ps[1..] + [p];
    }
  }

  /** Of a stream of packets of which the ring holds the start, one load gives the first packet
      once it is all there, and until then nothing. */
  lemma AacRingLoads(live: seq<Byte>, waiting: seq<Byte>, ps: seq<seq<Byte>>)
    requires live + waiting == AacFrames(ps) && ps != [] && |ps[0]| < AAC_MAX
    ensures var r := AacFromRing(live);
      if |live| >= |AacFrame(ps[0])| then r.code == 0 && r.payload == ps[0] && r.rest + waiting == AacFrames(ps[1..])
      else r.code in {1, 3} && r.rest == live
  {
    var f, s := AacFrame(ps[0]), live + waiting;
    if |live| >= |f| {
      assert live[..|f|] == s[..|f|] == f;
      assert live == f + live[|f|..];
      AacRoundTrip(ps[0], live[|f|..]);
      assert live[|f|..] + waiting == s[|f|..] == AacFrames(ps[1..]);
    } else {
      assert live == s[..|live|] == f[..|live|];
      AacPartial(ps[0], live);
    }
  }

  // ----- LHDC: a tag, four bytes of length, low byte first -----

  /** The letters l, h, d, c. */
  const TAG: seq<Byte> := [0x6c, 0x68, 0x64, 0x63]
  const LHDC_HEADER := 8

  function Length32(n: nat): (r: seq<Byte>)
    ensures |r| == 4
  {
    [Low(n), High(n), Low(n / 0x1_0000), High(n / 0x1_0000)]
  }

  function Read32(s: seq<Byte>): nat
    requires |s| == 4
  {
    Word(s[0], s[1]) + 0x1_0000 * Word(s[2], s[3])
  }

  lemma LowWord(n: nat)
    ensures Word(Low(n), High(n)) == n % 0x1_0000
  {
    var q := n / 256;
    assert n == 0x1_0000 * (q / 256) + (256 * (q % 256) + n % 256);
    Remainder(q / 256, 256 * (q % 256) + n % 256);
  }

  lemma Remainder(k: nat, r: nat)
    requires r < 0x1_0000
    ensures (0x1_0000 * k + r) % 0x1_0000 == r
  {
  }

  lemma Length32RoundTrip(n: nat)
    requires n < 0x1_0000_0000
    ensures Read32(Length32(n)) == n
  {
    LowWord(n);
    AacHeader(n / 0x1_0000);
  }

  function LhdcFrame(p: seq<Byte>): seq<Byte> {
    TAG + Length32(|p|) + p
  }

  /** How a packet lies in the queue: the letters lhdc, its length in four bytes, low byte first, and
      then its bytes. */
  lemma LhdcFrameBytes(p: seq<Byte>)
    requires |p| < 0x1_0000_0000
    ensures var f := LhdcFrame(p);
      && |f| == 8 + |p| && f[8..] == p
      && f[0] == 'l' as int && f[1] == 'h' as int && f[2] == 'd' as int && f[3] == 'c' as int
      && (f[4] as int) + 0x100 * (f[5] as int) + 0x1_0000 * (f[6] as int) + 0x100_0000 * (f[7] as int) == |p|
  {
    Length32RoundTrip(|p|);
    var f := LhdcFrame(p);
    assert f[4] == Low(|p|) && f[5] == High(|p|) && f[6] == Low(|p| / 0x1_0000) && f[7] == High(|p| / 0x1_0000);
    AacHeader(|p| / 0x1_0000);
    LowWord(|p|);
  }

  predicate Tagged(s: seq<Byte>, i: nat) {
    i + 4 <= |s| && s[i..i + 4] == TAG
  }

  /** Where the scan stops: at the first tag, or where fewer bytes than a header are left. */
  function FirstTag(s: seq<Byte>, i: nat): (r: nat)
    requires i <= |s|
    ensures i <= r <= |s| && (|s| - r < LHDC_HEADER || Tagged(s, r))
    ensures forall k :: i <= k < r ==> !Tagged(s, k)
    decreases |s| - i
  {
    if |s| - i < LHDC_HEADER || s[i..i + 4] == TAG then i else FirstTag(s, i + 1)
  }

  function LhdcLength(s: seq<Byte>, i: nat): nat
    requires i + LHDC_HEADER <= |s|
  {
    Read32(s[i + 4..i + 8])
  }

  /** A load from the ring: everything before the first tag is skipped, but only together with a
      whole packet after it. */
  function LhdcFromRing(s: seq<Byte>): Load {
    var i := FirstTag(s, 0);
    if |s| - i < LHDC_HEADER || |s| - i < LHDC_HEADER + LhdcLength(s, i) then Load(1, [], s)
    else
      var end := i + LHDC_HEADER + LhdcLength(s, i);
      Load(0, s[i + LHDC_HEADER..end], s[end..])
  }

  predicate TagFree(g: seq<Byte>) {
    forall k :: 0 <= k < |g| ==> !Tagged(g, k)
  }

  lemma FirstTagIs(s: seq<Byte>, i: nat, at: nat)
    requires i <= at && at + LHDC_HEADER <= |s| && Tagged(s, at)
    requires forall k :: i <= k < at ==> !Tagged(s, k)
    ensures FirstTag(s, i) == at
  {
  }

  /** The letters of the tag differ, so no tag starts in the garbage and ends in the tag after it. */
  lemma NoTagAcross(g: seq<Byte>, t: seq<Byte>, k: nat)
    requires TagFree(g) && k < |g| && Tagged(t, 0)
    ensures !Tagged(g + t, k)
  {
    var s := g + t;
    if k + 4 <= |g| {
      assert s[k..k + 4] == g[k..k + 4];
      assert !Tagged(g, k);
    } else if Tagged(s, k) {
      assert t[..4] == TAG && t[0] == t[..4][0];
      assert s[k..k + 4][|g| - k] == s[|g|] == t[0];
    }
  }

  /** Whatever tag-free bytes lie before a whole packet, one load skips exactly them, gives the
      payload and leaves what follows. */
  lemma LhdcResync(garbage: seq<Byte>, p: seq<Byte>, rest: seq<Byte>)
    requires TagFree(garbage) && |p| < 0x1_0000_0000
    ensures LhdcFromRing(garbage + (LhdcFrame(p) + rest)) == Load(0, p, rest)
  {
    var t := LhdcFrame(p) + rest;
    var s, g := garbage + t, |garbage|;
    assert t[0..4] == TAG;
    forall k | 0 <= k < g
      ensures !Tagged(s, k)
    {
      NoTagAcross(garbage, t, k);
    }
    assert s[g..g + 4] == t[0..4];
    FirstTagIs(s, 0, g);
    assert s[g + 4..g + 8] == Length32(|p|);
    Length32RoundTrip(|p|);
    assert s[g + 8..g + 8 + |p|] == p && s[g + 8 + |p|..] == rest;
  }

  /** A load that gives a packet was given tag-free bytes, that packet, and what it leaves; one
      that gives none leaves everything. */
  lemma LhdcLoadIsFrame(s: seq<Byte>)
    ensures var r := LhdcFromRing(s);
      if r.code == 0 then exists i :: 0 <= i <= |s| && SplitAt(s, i, r.payload, r.rest) else r.rest == s
  {
    var r, i := LhdcFromRing(s), FirstTag(s, 0);
    if r.code == 0 {
      PrefixTagFree(s, i);
      FrameAt(s, i);
      assert SplitAt(s, i, r.payload, r.rest);
    }
  }

  lemma PrefixTagFree(s: seq<Byte>, i: nat)
    requires i <= |s| && forall k :: 0 <= k < i ==> !Tagged(s, k)
    ensures TagFree(s[..i])
  {
    forall k | 0 <= k < i
      ensures !Tagged(s[..i], k)
    {
      assert !Tagged(s, k);
      if k + 4 <= i {
        assert s[..i][k..k + 4] == s[k..k + 4];
      }
    }
  }

  lemma FrameAt(s: seq<Byte>, i: nat)
    requires Tagged(s, i) && i + LHDC_HEADER + (if i + LHDC_HEADER <= |s| then LhdcLength(s, i) else 0) <= |s|
    ensures var end := i + LHDC_HEADER + LhdcLength(s, i);
      s[i..] == LhdcFrame(s[i + LHDC_HEADER..end]) + s[end..]
  {
    Read32Inverse(s[i + 4..i + 8]);
    assert s[i..i + 8] == s[i..i + 4] + s[i + 4..i + 8];
    var end := i + LHDC_HEADER + LhdcLength(s, i);
    assert s[i..] == s[i..i + 8] + s[i + 8..end] + s[end..];
  }

  predicate SplitAt(s: seq<Byte>, i: nat, payload: seq<Byte>, rest: seq<Byte>)
    requires i <= |s|
  {
    TagFree(s[..i]) && s[i..] == LhdcFrame(payload) + rest
  }

  lemma Read32Inverse(s: seq<Byte>)
    requires |s| == 4
    ensures Length32(Read32(s)) == s
  {
    var a, b := Word(s[0], s[1]), Word(s[2], s[3]);
    WordInverse(s[0], s[1]);
    WordInverse(s[2], s[3]);
    HighWord(a, b);
  }

  lemma HighWord(a: nat, b: nat)
    requires a < 0x1_0000
    ensures (a + 0x1_0000 * b) / 0x1_0000 == b
    ensures Low(a + 0x1_0000 * b) == Low(a) && High(a + 0x1_0000 * b) == High(a)
  {
    Shift(a, 256 * b);
    Shift(a / 256, b);
  }

  lemma Shift(a: nat, c: nat)
    ensures (a + 256 * c) % 256 == a % 256 && (a + 256 * c) / 256 == a / 256 + c
  {
  }

  function LhdcFrames(ps: seq<seq<Byte>>): seq<Byte>
    decreases |ps|
  {
    if ps == [] then [] else LhdcFrame(ps[0]) + LhdcFrames(ps[1..])
  }

  /** Of a stream of stored packets of which the ring holds the start, one load gives the first
      packet once it is all there, and until then nothing. */
  lemma LhdcRingLoads(live: seq<Byte>, waiting: seq<Byte>, ps: seq<seq<Byte>>)
    requires live + waiting == LhdcFrames(ps) && ps != [] && |ps[0]| < 0x1_0000_0000
    ensures var r := LhdcFromRing(live);
      if |live| >= |LhdcFrame(ps[0])| then r.code == 0 && r.payload == ps[0] && r.rest + waiting == LhdcFrames(ps[1..])
      else r.code == 1 && r.rest == live
  {
    var f, s := LhdcFrame(ps[0]), live + waiting;
    if |live| >= |f| {
      assert live[..|f|] == s[..|f|] == f;
      assert live == [] + (f + live[|f|..]);
      LhdcResync([], ps[0], live[|f|..]);
      assert live[|f|..] + waiting == s[|f|..] == LhdcFrames(ps[1..]);
    } else {
      assert live == s[..|live|] == f[..|live|];
      LhdcPartial(ps[0], live);
    }
  }

  lemma LhdcPartial(p: seq<Byte>, got: seq<Byte>)
    requires |p| < 0x1_0000_0000 && got < LhdcFrame(p)
    ensures LhdcFromRing(got) == Load(1, [], got)
  {
    if |got| >= LHDC_HEADER {
      assert got[0..4] == LhdcFrame(p)[0..4] == TAG;
      FirstTagIs(got, 0, 0);
      assert got[4..8] == LhdcFrame(p)[4..8] == Length32(|p|);
      Length32RoundTrip(|p|);
    }
  }
}
