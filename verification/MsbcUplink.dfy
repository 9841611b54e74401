/** The uplink framer of voicebtpcmplay_sco_dma_snapshot.cpp: each encoded body gets a
    synchronization header and a padding byte, rotated by an offset that the chip prescribes. */
module MsbcUplink {
  import opened Bytes
  import opened PacketLoss
  import Blocks
  import Crc

  const BODY_SIZE := 57
  const PCM_FRAME := 240
  const UINT32 := 0x1_0000_0000

  type Body57 = b: seq<Byte> | |b| == BODY_SIZE witness seq(BODY_SIZE, _ => 0)

  /** The values the build can choose. */
  type Offset = o: nat | o <= 2

  /** One frame on the air: header, body, padding. */
  function Frame(n: nat, body: Body57): Packet
    requires n < 4
  {
    [0x01, SeqByte(n)] + body + [0x00]
  }

  /** The sixty bytes sent for one body: byte i of the frame stands at (60 - offset + i) mod 60. */
  function Rotated(off: Offset, counter: nat, body: Body57): (r: seq<Byte>)
    ensures |r| == PKT_SIZE
  {
    var f := Frame(counter % 4, body);
    f[off..] + f[..off]
  }

  /** The blocks sent for a sequence of bodies, the frame counter starting at counter. */
  function Sending(off: Offset, counter: nat, bodies: seq<Body57>): (bs: seq<seq<Byte>>)
    ensures |bs| == |bodies| && Blocks.Even(bs)
  {
    seq(|bodies|, i requires 0 <= i < |bodies| => Rotated(off, counter + i, bodies[i]))
  }

  function Sent(off: Offset, counter: nat, bodies: seq<Body57>): seq<Byte> {
    Blocks.Flat(Sending(off, counter, bodies))
  }

  /** The number of frames one call makes. */
  function FrameCount(msbcLen: nat, pcmLen: nat): (n: nat)
    ensures PKT_SIZE * n <= msbcLen && PCM_FRAME * n <= pcmLen
    ensures PKT_SIZE * (n + 1) > msbcLen || PCM_FRAME * (n + 1) > pcmLen
  {
    if msbcLen / PKT_SIZE <= pcmLen / PCM_FRAME then msbcLen / PKT_SIZE else pcmLen / PCM_FRAME
  }

  /** Each byte goes out in the high half of a sixteen-bit word. */
  function Word(b: Byte): (w: int)
    ensures 0 <= w < 0x1_0000 && w / 0x100 == b && w % 0x100 == 0
  {
    b * 256
  }

  function Words(s: seq<Byte>): (w: seq<int>)
    ensures |w| == |s| && forall i :: 0 <= i < |s| ==> w[i] == Word(s[i])
  {
    seq(|s|, i requires 0 <= i < |s| => Word(s[i]))
  }

  lemma Assembled(off: Offset, counter: nat, body: Body57, buf: seq<Byte>)
    requires |buf| == PKT_SIZE
    requires forall i :: 0 <= i < BODY_SIZE ==> buf[2 - off + i] == body[i]
    requires buf[59 - off] == 0x00 && buf[(PKT_SIZE - off) % PKT_SIZE] == 0x01
    requires buf[(PKT_SIZE - off + 1) % PKT_SIZE] == SeqByte(counter % 4)
    ensures buf == Rotated(off, counter, body)
  {
    var f := Frame(counter % 4, body);
    assert buf[2 - off..59 - off] == body == f[2..59];
    if off == 1 {
      assert f[1..] + f[..1] == [f[1]] + body + [0x00, 0x01];
    } else if off == 2 {
      assert f[2..] + f[..2] == body + [0x00, 0x01, f[1]];
    }
  }

  class Framer {
    var counter: nat
    const frame: array<Byte>

    ghost predicate Valid()
      reads this
    {
      frame.Length == 2 * PKT_SIZE && counter < UINT32
    }

    constructor ()
      ensures Valid() && counter == 0 && fresh(frame)
    {
      counter := 0;
      frame := new Byte[2 * PKT_SIZE](_ => 0);
    }

    /** Header, body and padding are written where the offset puts them. */
    method Build(off: Offset, body: Body57)
      requires Valid()
      modifies frame
      ensures frame[..PKT_SIZE] == Rotated(off, counter, body)
    {
      forall i | 0 <= i < BODY_SIZE {
        frame[2 - off + i] := body[i];
      }
      frame[59 - off] := 0x00;
      frame[(PKT_SIZE - off) % PKT_SIZE] := 0x01;
      var h := (PKT_SIZE - off + 1) % PKT_SIZE;
      match counter % 4 {
        case 0 => frame[h] := 0x08;
        case 1 => frame[h] := 0x38;
        case 2 => frame[h] := 0xc8;
        case _ => frame[h] := 0xf8;
      }
      Assembled(off, counter, body, frame[..PKT_SIZE]);
    }

    /** One frame: built, then copied out, one byte to a word. */
    method SendOne(off: Offset, body: Body57, dst: array<int>, base: nat)
      requires Valid() && base + PKT_SIZE <= dst.Length
      modifies this`counter, frame, dst
      ensures Valid() && counter == Wrapped(old(counter), 1)
      ensures dst[..] == old(dst[..])[..base] + Words(Rotated(off, old(counter), body)) + old(dst[..])[base + PKT_SIZE..]
    {
      Build(off, body);
      ghost var bytes := frame[..PKT_SIZE];
      forall i | 0 <= i < PKT_SIZE {
        dst[base + i] := Word(frame[i]);
      }
      assert dst[base..base + PKT_SIZE] == Words(bytes);
      counter := Wrapped(counter, 1);
    }

    /** One call: as many frames as both lengths allow. */
    method Process(off: Offset, pcmLen: nat, msbcLen: nat, bodies: seq<Body57>, dst: array<int>)
      requires Valid() && dst.Length >= PKT_SIZE * FrameCount(msbcLen, pcmLen)
      requires |bodies| == FrameCount(msbcLen, pcmLen)
      modifies this`counter, frame, dst
      ensures Valid()
      ensures counter == Wrapped(old(counter), |bodies|)
      ensures Filled(off, old(counter), bodies, old(dst[..]), dst[..])
    {
      var frameCounter := 0;
      ghost var c, before := counter, dst[..];
      NothingSent(off, c, before);
      while frameCounter < msbcLen / PKT_SIZE && frameCounter < pcmLen / PCM_FRAME
        invariant frameCounter <= |bodies| && Valid()
        invariant counter == Wrapped(c, frameCounter)
        invariant |dst[..]| == |before| && Filled(off, c, bodies[..frameCounter], before, dst[..])
      {
        FilledOneMore(off, c, bodies, frameCounter, before, dst[..]);
        SendOne(off, bodies[frameCounter], dst, PKT_SIZE * frameCounter);
        frameCounter := frameCounter + 1;
      }
      assert bodies[..frameCounter] == bodies;
    }
  }

  function Wrapped(counter: nat, k: nat): (c: nat)
    ensures c < UINT32 && c % 4 == (counter + k) % 4
  {
    (counter + k) % UINT32
  }

  lemma WrappedOnce(counter: nat, k: nat)
    ensures Wrapped(Wrapped(counter, k), 1) == Wrapped(counter, k + 1)
    ensures counter < UINT32 ==> Wrapped(counter, 0) == counter
  {
    OneMoreModulo(counter + k);
  }

  lemma OneMoreModulo(x: nat)
    ensures (x % UINT32 + 1) % UINT32 == (x + 1) % UINT32
  {
    var q, r := x / UINT32, x % UINT32;
    assert x + 1 == UINT32 * q + (r + 1);
    MultipleAway(q, r + 1);
  }

  lemma MultipleAway(q: nat, r: nat)
    ensures (UINT32 * q + r) % UINT32 == r % UINT32
  {
  }

  /** The destination holds, from its start, the words sent for bodies, and the rest as before. */
  ghost predicate Filled(off: Offset, counter: nat, bodies: seq<Body57>, before: seq<int>, after: seq<int>)
    requires PKT_SIZE * |bodies| <= |before|
  {
    after == Words(Sent(off, counter, bodies)) + before[PKT_SIZE * |bodies|..]
  }

  lemma NothingSent(off: Offset, counter: nat, before: seq<int>)
    ensures Filled(off, counter, [], before, before)
    ensures counter < UINT32 ==> Wrapped(counter, 0) == counter
  {
    assert Sent(off, counter, []) == [];
  }

  /** The step of the sending loop, on sequences. */
  lemma FilledOneMore(off: Offset, counter: nat, bodies: seq<Body57>, k: nat, o: seq<int>, d: seq<int>)
    requires k < |bodies| && PKT_SIZE * |bodies| <= |o|
    requires Filled(off, counter, bodies[..k], o, d)
    ensures |d| >= PKT_SIZE * (k + 1)
    ensures Filled(off, counter, bodies[..k + 1], o,
      d[..PKT_SIZE * k] + Words(Rotated(off, Wrapped(counter, k), bodies[k])) + d[PKT_SIZE * (k + 1)..])
    ensures Wrapped(Wrapped(counter, k), 1) == Wrapped(counter, k + 1)
  {
    var w, x := Sent(off, counter, bodies[..k]), Rotated(off, Wrapped(counter, k), bodies[k]);
    SentSnoc(off, counter, bodies, k);
    assert Words(w + x) == Words(w) + Words(x);
    Splice(d, Words(w), o, Words(x));
    WrappedOnce(counter, k);
  }

  lemma SentSnoc(off: Offset, counter: nat, bodies: seq<Body57>, k: nat)
    requires k < |bodies|
    ensures |Sent(off, counter, bodies[..k])| == PKT_SIZE * k
    ensures Sent(off, counter, bodies[..k + 1])
      == Sent(off, counter, bodies[..k]) + Rotated(off, Wrapped(counter, k), bodies[k])
  {
    var x := Rotated(off, counter + k, bodies[k]);
    var bs := Sending(off, counter, bodies[..k]);
    assert Sending(off, counter, bodies[..k + 1]) == bs + [x];
    Blocks.FlatConcat(bs, [x]);
    assert Blocks.Flat([x]) == x;
    Blocks.FlatLength(bs);
  }

  lemma Splice<T>(d: seq<T>, w: seq<T>, o: seq<T>, x: seq<T>)
    requires |w| + |x| <= |o| && d == w + o[|w|..]
    ensures d[..|w|] + x + d[|w| + |x|..] == (w + x) + o[|w| + |x|..]
  {
  }

  /** What two calls send, the second with the wrapped counter, is what one call would have sent. */
  lemma SentInCalls(off: Offset, counter: nat, first: seq<Body57>, second: seq<Body57>)
    ensures Sent(off, counter, first + second)
      == Sent(off, counter, first) + Sent(off, Wrapped(counter, |first|), second)
  {
    var c := Wrapped(counter, |first|);
    forall i | 0 <= i < |second|
      ensures Rotated(off, counter + |first| + i, second[i]) == Rotated(off, c + i, second[i])
    {
      SameRotation(off, counter + |first| + i, c + i, second[i]);
    }
    assert Sending(off, counter, first + second) == Sending(off, counter, first) + Sending(off, c, second);
    Blocks.FlatConcat(Sending(off, counter, first), Sending(off, c, second));
  }

  lemma SameRotation(off: Offset, m: nat, n: nat, body: Body57)
    requires m % 4 == n % 4
    ensures Rotated(off, m, body) == Rotated(off, n, body)
  {
  }

  // ----- What the receiver may rely on -----

  /** Where the first whole frame starts. */
  function Start(off: Offset): nat {
    if off == 0 then 0 else PKT_SIZE - off
  }

  /** The number and the body of the j-th whole frame: with an offset, the body comes from the
      next buffer, and with offset one the header's second byte does too. */
  function FrameNumber(off: Offset, n: nat): (r: nat)
    ensures r < 4
  {
    (if off == 1 then n + 1 else n) % 4
  }

  function BodyIndex(off: Offset, j: nat): nat {
    if off == 0 then j else j + 1
  }

  /** From its first whole frame on, the sent stream is a row of well-formed frames with numbers
      that advance by one modulo four, across calls and across a wrap of the counter. */
  lemma SentIsFramed(off: Offset, counter: nat, bodies: seq<Body57>, j: nat)
    requires BodyIndex(off, j) < |bodies|
    ensures Start(off) + PKT_SIZE * j + PKT_SIZE <= |Sent(off, counter, bodies)|
    ensures Sent(off, counter, bodies)[Start(off) + PKT_SIZE * j..Start(off) + PKT_SIZE * j + PKT_SIZE]
        == Frame(FrameNumber(off, counter + j), bodies[BodyIndex(off, j)])
  {
    if off == 0 {
      FramedAligned(counter, bodies, j);
    } else {
      FramedAcross(off, counter, bodies, j);
    }
  }

  lemma FramedAligned(counter: nat, bodies: seq<Body57>, j: nat)
    requires j < |bodies|
    ensures PKT_SIZE * (j + 1) <= |Sent(0, counter, bodies)|
    ensures Sent(0, counter, bodies)[PKT_SIZE * j..PKT_SIZE * (j + 1)] == Frame(FrameNumber(0, counter + j), bodies[j])
  {
    Blocks.FlatAt(Sending(0, counter, bodies), j);
    Unrotated(counter + j, bodies[j]);
  }

  lemma FramedAcross(off: Offset, counter: nat, bodies: seq<Body57>, j: nat)
    requires off != 0 && j + 1 < |bodies|
    ensures PKT_SIZE * (j + 2) <= |Sent(off, counter, bodies)|
    ensures Sent(off, counter, bodies)[PKT_SIZE * (j + 1) - off..PKT_SIZE * (j + 2) - off]
      == Frame(FrameNumber(off, counter + j), bodies[j + 1])
  {
    var bs := Sending(off, counter, bodies);
    Blocks.FlatAcross(bs, j, off);
    RotationsJoin(off, counter + j, bodies[j], bodies[j + 1]);
    assert counter + j + 1 == counter + (j + 1);
    assert bs[j] == Rotated(off, counter + j, bodies[j]);
  }

  lemma Unrotated(n: nat, body: Body57)
    ensures Rotated(0, n, body) == Frame(FrameNumber(0, n), body)
  {
    var f := Frame(n % 4, body);
    assert f[0..] + f[..0] == f;
  }

  lemma RotationsJoin(off: Offset, n: nat, body: Body57, next: Body57)
    requires off != 0
    ensures Rotated(off, n, body)[PKT_SIZE - off..] + Rotated(off, n + 1, next)[..PKT_SIZE - off]
      == Frame(FrameNumber(off, n), next)
  {
    var f, g := Frame(n % 4, body), Frame((n + 1) % 4, next);
    assert Rotated(off, n, body)[PKT_SIZE - off..] == f[..off];
    assert Rotated(off, n + 1, next)[..PKT_SIZE - off] == g[off..];
  }

  /** What the encoder owes: the sync word, two zero bytes, and the checksum. */
  predicate EncodedBody(b: Body57) {
    b[0] == 0xad && b[1] == 0 && b[2] == 0 && b[3] as bv8 == Crc.TableDriven(0x0F, AsBits([b[1], b[2]] + b[4..8]))
  }

  lemma FramedBodyIsValid(n: nat, body: Body57)
    requires n < 4 && EncodedBody(body)
    ensures ValidFrame(Frame(n, body), n) && Frame(n, body)[PKT_SIZE - 1] == 0
  {
    var f := Frame(n, body);
    assert f[2..PKT_SIZE - 1] == body;
    assert f[6..10] == body[4..8];
  }
}
