/** The uplink framer and the downlink reframer joined: what one sends the other receives. */
module MsbcEndToEnd {
  import opened Bytes
  import opened PacketLoss
  import opened PacketRuns
  import opened MsbcUplink
  import opened MsbcDownlink
  import opened DownlinkRuns
  import Blocks

  /** Valid frames whose numbers go on from n, each after the other. */
  predicate Train(frames: seq<Packet>, n: nat)
    decreases |frames|
  {
    n < 4 && (frames == [] || (ValidFrame(frames[0], n) && Train(frames[1..], NextSeq(n))))
  }

  /** From at on, s is the start of the given frames laid end to end. */
  predicate Carries(s: seq<Byte>, at: nat, frames: seq<Packet>) {
    at <= |s| && |s| - at <= |Blocks.Flat(frames)| && s[at..] == Blocks.Flat(frames)[..|s| - at]
  }

  // ----- What is sent is a train of frames -----

  function WholeFrames(off: Offset, counter: nat, bodies: seq<Body57>): (fs: seq<Packet>)
    ensures forall j :: 0 <= j < |fs| ==>
      && BodyIndex(off, j) < |bodies|
      && fs[j] == Frame(FrameNumber(off, counter + j), bodies[BodyIndex(off, j)])
  {
    seq(if off == 0 || bodies == [] then |bodies| else |bodies| - 1,
      j requires 0 <= j && BodyIndex(off, j) < |bodies| => Frame(FrameNumber(off, counter + j), bodies[BodyIndex(off, j)]))
  }

  lemma SentCarriesFrames(off: Offset, counter: nat, bodies: seq<Body57>)
    requires bodies != []
    ensures var fs, s := WholeFrames(off, counter, bodies), Sent(off, counter, bodies);
      && Start(off) + PKT_SIZE * |fs| <= |s|
      && s[Start(off)..Start(off) + PKT_SIZE * |fs|] == Blocks.Flat(fs)
  {
    var fs, s := WholeFrames(off, counter, bodies), Sent(off, counter, bodies);
    Blocks.FlatLength(Sending(off, counter, bodies));
    forall j | 0 <= j < |fs|
      ensures Blocks.Holds(s, Start(off) + PKT_SIZE * j, fs[j])
    {
      SentIsFramed(off, counter, bodies, j);
    }
    Blocks.FlatFrom(s, Start(off), fs);
  }

  lemma NumberedTrain(off: Offset, counter: nat, bodies: seq<Body57>, first: nat)
    requires forall b :: b in bodies ==> EncodedBody(b)
    requires first <= |WholeFrames(off, counter, bodies)|
    ensures Train(WholeFrames(off, counter, bodies)[first..], FrameNumber(off, counter + first))
  {
    var fs := WholeFrames(off, counter, bodies);
    var number := Numbers(off, counter);
    forall j | first <= j < |fs|
      ensures ValidFrame(fs[j], number(j))
    {
      WholeFrameValid(off, counter, bodies, j);
      assert number(j) == FrameNumber(off, counter + j);
    }
    TrainOf(fs, number, first);
  }

  ghost predicate GoesOn(number: nat -> nat) {
    forall k: nat :: number(k) < 4 && number(k + 1) == NextSeq(number(k))
  }

  lemma Numbers(off: Offset, counter: nat) returns (number: nat -> nat)
    ensures GoesOn(number) && forall k: nat :: number(k) == FrameNumber(off, counter + k)
  {
    number := (k: nat) => FrameNumber(off, counter + k);
    forall k: nat
      ensures number(k) < 4 && number(k + 1) == NextSeq(number(k))
    {
      NextNumber(off, counter + k);
    }
  }

  lemma {:induction false} TrainOf(fs: seq<Packet>, number: nat -> nat, j: nat)
    requires GoesOn(number)
    requires j <= |fs| && forall k :: j <= k < |fs| ==> ValidFrame(fs[k], number(k))
    ensures Train(fs[j..], number(j))
    decreases |fs| - j
  {
    if j < |fs| {
      TrainOf(fs, number, j + 1);
      assert fs[j..][1..] == fs[j + 1..];
      assert fs[j..] != [] && fs[j..][0] == fs[j];
    }
  }

  lemma WholeFrameValid(off: Offset, counter: nat, bodies: seq<Body57>, j: nat)
    requires forall b :: b in bodies ==> EncodedBody(b)
    requires j < |WholeFrames(off, counter, bodies)|
    ensures ValidFrame(WholeFrames(off, counter, bodies)[j], FrameNumber(off, counter + j))
  {
    var body := bodies[BodyIndex(off, j)];
    assert body in bodies;
    FramedBodyIsValid(FrameNumber(off, counter + j), body);
  }

  lemma NextNumber(off: Offset, n: nat)
    ensures FrameNumber(off, n + 1) == NextSeq(FrameNumber(off, n))
  {
  }

  // ----- A train keeps the receiver locked, and comes out again -----

  lemma {:induction false} TrainIsSync(frames: seq<Packet>, n: nat, j: nat)
    requires Train(frames, n) && j < |frames|
    ensures SyncAt(frames[j], 0)
    decreases j
  {
    if j > 0 {
      TrainIsSync(frames[1..], NextSeq(n), j - 1);
    } else {
      ValidIsSync(frames[0], n);
    }
  }

  lemma CarriedFrame(s: seq<Byte>, at: nat, frames: seq<Packet>, j: nat, k: nat)
    requires Carries(s, at, frames) && k <= PKT_SIZE && at + PKT_SIZE * j + k <= |s| && 0 < k
    ensures j < |frames| && s[at + PKT_SIZE * j..at + PKT_SIZE * j + k] == frames[j][..k]
  {
    var t := Blocks.Flat(frames);
    assert Blocks.Even(frames);
    Blocks.FlatLength(frames);
    assert PKT_SIZE * j < PKT_SIZE * |frames|;
    Blocks.FlatAt(frames, j);
    Blocks.Within(s, at, |s|, PKT_SIZE * j, PKT_SIZE * j + k);
    Blocks.Within(t, 0, |s| - at, PKT_SIZE * j, PKT_SIZE * j + k);
    Blocks.Within(t, PKT_SIZE * j, PKT_SIZE * (j + 1), 0, k);
    assert s[at..|s|] == s[at..] && t[0..|s| - at] == t[..|s| - at] && frames[j][0..k] == frames[j][..k];
  }

  lemma CarriedIsSynced(s: seq<Byte>, at: nat, frames: seq<Packet>, n: nat)
    requires Carries(s, at, frames) && Train(frames, n)
    ensures Synced(s, at)
  {
    forall j: nat | at + PKT_SIZE * j + 2 < |s|
      ensures SyncAt(s, at + PKT_SIZE * j)
    {
      CarriedSync(s, at, frames, n, j);
    }
  }

  lemma CarriedSync(s: seq<Byte>, at: nat, frames: seq<Packet>, n: nat, j: nat)
    requires Carries(s, at, frames) && Train(frames, n) && at + PKT_SIZE * j + 2 < |s|
    ensures SyncAt(s, at + PKT_SIZE * j)
  {
    CarriedFrame(s, at, frames, j, 3);
    TrainIsSync(frames, n, j);
    SameSync(s, at + PKT_SIZE * j, frames[j], 0);
  }

  lemma ValidIsSync(p: Packet, k: nat)
    requires ValidFrame(p, k)
    ensures SyncAt(p, 0)
  {
  }

  /** Frames that agree but for their last bytes. */
  predicate SameBodies(fs: seq<Packet>, frames: seq<Packet>) {
    |fs| <= |frames| && forall j :: 0 <= j < |fs| ==> Body(fs[j]) == Body(frames[j])
  }

  lemma CarriedTiles(s: seq<Byte>, at: nat, frames: seq<Packet>, fs: seq<Packet>, exact: bool)
    requires Carries(s, at, frames) && Tiles(s, at, fs, exact)
    ensures SameBodies(fs, frames)
    ensures exact ==> fs == frames[..|fs|]
  {
    forall j | 0 <= j < |fs|
      ensures j < |frames| && Body(fs[j]) == Body(frames[j]) && (exact ==> fs[j] == frames[j])
    {
      assert Tile(s, at + PKT_SIZE * j, fs[j], exact);
      CarriedFrame(s, at, frames, j, PKT_SIZE - 1);
      if exact {
        CarriedFrame(s, at, frames, j, PKT_SIZE);
        assert frames[j][..PKT_SIZE] == frames[j];
      }
    }
    if fs != [] {
      assert Body(fs[|fs| - 1]) == Body(frames[|fs| - 1]);
    }
  }

  /** A detector that may hear frame n next: it expects that number, and its last two packets are
      not the frames numbered n and n + 1. */
  predicate Ready(m: Memory, n: nat) {
    && n < 4 && (m.lastSeq == NO_SEQ || NextSeq(m.lastSeq) == n)
    && HeaderOf(m.older) != Ok(n) && HeaderOf(m.newer) != Ok(NextSeq(n))
  }

  lemma FreshIsReady(n: nat)
    requires n < 4
    ensures Ready(Fresh(), n)
  {
  }

  /** After any two frames of a train the detector is ready for the frame that follows. */
  lemma StaysReady(m: Memory, f: Facts, g: Facts, n: nat)
    requires n < 4 && f.header == HeaderOf(f.pkt) && g.header == HeaderOf(g.pkt)
    requires f.header == Ok(n) && g.header == Ok(NextSeq(n))
    requires OutcomeOf(m, f) == Pass && OutcomeOf(Advance(m, f), g) == Pass
    ensures Ready(Advance(Advance(m, f), g), NextSeq(NextSeq(n)))
  {
  }

  lemma SameBodyFacts(p: Packet, q: Packet, n: nat, pattern: Byte, index: Index)
    requires Body(p) == Body(q) && ValidFrame(q, n)
    ensures Inspect(p, pattern, index) == Facts(p, false, OffsetMuted(p, pattern, index), Ok(n))
  {
    ParserAcceptsValidFrames(q, n);
    HeaderInBody(p, q);
    ParserAcceptsValidFrames(p, n);
    FactsOfValidFrame(p, n, pattern, index);
  }

  /** The frames received for a train are numbered like it, unless one is taken for a muted one. */
  lemma {:induction false} ReceivedIsNumbered(fs: seq<Packet>, frames: seq<Packet>, n: nat, pattern: Byte, index: Index)
    requires SameBodies(fs, frames) && Train(frames, n)
    requires forall f :: f in fs ==> !OffsetMuted(f, pattern, index)
    ensures Numbered(InspectAll(fs, pattern, index), n)
    decreases |fs|
  {
    if fs != [] {
      var run := InspectAll(fs, pattern, index);
      assert Body(fs[0]) == Body(frames[0]);
      SameBodyFacts(fs[0], frames[0], n, pattern, index);
      Drop(fs, frames);
      ReceivedIsNumbered(fs[1..], frames[1..], NextSeq(n), pattern, index);
      assert run[1..] == InspectAll(fs[1..], pattern, index);
    }
  }

  lemma Drop(fs: seq<Packet>, frames: seq<Packet>)
    requires SameBodies(fs, frames) && fs != []
    ensures SameBodies(fs[1..], frames[1..])
  {
    forall j | 0 <= j < |fs[1..]|
      ensures Body(fs[1..][j]) == Body(frames[1..][j])
    {
      assert Body(fs[j + 1]) == Body(frames[j + 1]);
    }
  }

  lemma ReadyMayFollow(m: Memory, run: seq<Facts>, n: nat)
    requires Ready(m, n) && Inspected(run) && Numbered(run, n)
    ensures MayFollow(m, run, n)
  {
    if |run| > 0 && Body(m.older) == Body(run[0].pkt) {
      HeaderInBody(m.older, run[0].pkt);
    } else if |run| > 1 && Body(m.newer) == Body(run[1].pkt) {
      HeaderInBody(m.newer, run[1].pkt);
    }
  }

  lemma {:induction false} OffsetMuteNeverPasses(m: Memory, run: seq<Facts>)
    requires forall t :: t in Outcomes(m, run) ==> t == Pass
    ensures forall f :: f in run ==> !f.offsetMuted
    decreases |run|
  {
    if run != [] {
      var ts := Outcomes(Advance(m, run[0]), run[1..]);
      assert Outcomes(m, run)[0] in Outcomes(m, run);
      assert forall t :: t in ts ==> t in Outcomes(m, run);
      OffsetMuteNeverPasses(Advance(m, run[0]), run[1..]);
    }
  }

  lemma ReceivedPass(m: Memory, fs: seq<Packet>, frames: seq<Packet>, n: nat, pattern: Byte, index: Index)
    requires SameBodies(fs, frames) && Train(frames, n) && Ready(m, n)
    requires forall f :: f in fs ==> !OffsetMuted(f, pattern, index)
    ensures AllPass(m, fs, pattern, index)
  {
    var run := InspectAll(fs, pattern, index);
    ReceivedIsNumbered(fs, frames, n, pattern, index);
    assert Inspected(run);
    NumbersMakeStream(run, n);
    ReadyMayFollow(m, run, n);
    StreamPasses(m, run, n);
  }

  lemma PassedIsNotMuted(m: Memory, fs: seq<Packet>, pattern: Byte, index: Index)
    requires AllPass(m, fs, pattern, index)
    ensures forall f :: f in fs ==> !OffsetMuted(f, pattern, index)
  {
    var run := InspectAll(fs, pattern, index);
    OffsetMuteNeverPasses(m, run);
    forall f | f in fs
      ensures !OffsetMuted(f, pattern, index)
    {
      var j :| 0 <= j < |fs| && fs[j] == f;
      assert run[j] in run;
    }
  }

  predicate AllPass(m: Memory, fs: seq<Packet>, pattern: Byte, index: Index) {
    forall t :: t in Outcomes(m, InspectAll(fs, pattern, index)) ==> t == Pass
  }

  /** The received frames of a train all pass exactly when none is taken for a half-muted one. */
  lemma ReceivedPasses(m: Memory, fs: seq<Packet>, frames: seq<Packet>, n: nat, pattern: Byte, index: Index)
    requires SameBodies(fs, frames) && Train(frames, n) && Ready(m, n)
    ensures AllPass(m, fs, pattern, index) <==> forall f :: f in fs ==> !OffsetMuted(f, pattern, index)
  {
    if forall f :: f in fs ==> !OffsetMuted(f, pattern, index) {
      ReceivedPass(m, fs, frames, n, pattern, index);
    } else if AllPass(m, fs, pattern, index) {
      PassedIsNotMuted(m, fs, pattern, index);
    }
  }

  /** When a received frame of a train is taken for a half-muted one: the stream sits off the place
      this chip expects, and the frame, as received, ends in as many bytes of the pattern. */
  lemma OffsetMutedExactly(f: Packet, p: Packet, n: nat, pattern: Byte, index: Index)
    requires ValidFrame(p, n) && Body(f) == Body(p) && (pattern == 0x00 || pattern == 0x55)
    ensures OffsetMuted(f, pattern, index) <==>
      && index > (if pattern == 0 then 1 else 0)
      && forall i :: PKT_SIZE - index <= i < PKT_SIZE ==> f[i] == pattern
  {
    assert f[0] == Body(f)[0] == Body(p)[0];
  }

  /** The locked receiver of a train of valid frames never loses its lock, cuts out exactly the
      frames sent (at offset one, but for the padding byte), and passes them all unless one is
      taken for a half-muted one. */
  lemma TrainReceived(l: Link, calls: seq<Call>, chip: Chip, frames: seq<Packet>, n: nat, m: Memory)
    requires l.lock.locked && chip.expected <= 1
    requires Carries(Heard(l, calls), Low(l.lock.offset), frames) && Train(frames, n) && Ready(m, n)
    ensures RunLink(l, calls, chip.pattern).lock == l.lock
    ensures var fs := RunFrames(l, calls, chip.pattern);
      && PKT_SIZE * |fs| == |Fed(calls)|
      && SameBodies(fs, frames) && (l.lock.offset != 1 ==> fs == frames[..|fs|])
    ensures var fs, index := RunFrames(l, calls, chip.pattern), IndexOf(l.lock, chip.expected);
      AllPass(m, fs, chip.pattern, index) <==> forall f :: f in fs ==> !OffsetMuted(f, chip.pattern, index)
  {
    var s, low := Heard(l, calls), Low(l.lock.offset);
    CarriedIsSynced(s, low, frames, n);
    LockedRunTiles(l, calls, chip.pattern);
    var fs := RunFrames(l, calls, chip.pattern);
    CarriedTiles(s, low, frames, fs, l.lock.offset != 1);
    ReceivedPasses(m, fs, frames, n, chip.pattern, IndexOf(l.lock, chip.expected));
  }

  /** End to end: what the framer sends, from any whole frame on, a receiver locked on that frame
      gets back, frame by frame; all of it passes exactly when no frame is taken for a half-muted one, as
      none is when the stream sits where the chip expects. */
  lemma EndToEnd(off: Offset, counter: nat, bodies: seq<Body57>, first: nat, l: Link, calls: seq<Call>, chip: Chip, m: Memory)
    requires forall b :: b in bodies ==> EncodedBody(b)
    requires l.lock.locked && chip.expected <= 1
    requires Arrives(Sent(off, counter, bodies), Start(off) + PKT_SIZE * first, Heard(l, calls), Low(l.lock.offset))
    requires Covers(off, counter, bodies, first, |Heard(l, calls)| - Low(l.lock.offset))
    requires Ready(m, FrameNumber(off, counter + first))
    ensures RunLink(l, calls, chip.pattern).lock == l.lock
    ensures SameBodies(RunFrames(l, calls, chip.pattern), WholeFrames(off, counter, bodies)[first..])
    ensures PKT_SIZE * |RunFrames(l, calls, chip.pattern)| == |Fed(calls)|
    ensures l.lock.offset != 1 ==>
      RunFrames(l, calls, chip.pattern) <= WholeFrames(off, counter, bodies)[first..]
    ensures AllPass(m, RunFrames(l, calls, chip.pattern), chip.pattern, IndexOf(l.lock, chip.expected)) <==>
      forall f :: f in RunFrames(l, calls, chip.pattern) ==> !OffsetMuted(f, chip.pattern, IndexOf(l.lock, chip.expected))
    ensures l.lock.offset == chip.expected ==> AllPass(m, RunFrames(l, calls, chip.pattern), chip.pattern, 0)
    ensures forall j :: 0 <= j < |RunFrames(l, calls, chip.pattern)| ==>
      && BodyIndex(off, first + j) < |bodies|
      && RunFrames(l, calls, chip.pattern)[j][2..59] == bodies[BodyIndex(off, first + j)]
  {
    var all := WholeFrames(off, counter, bodies);
    NumberedTrain(off, counter, bodies, first);
    ArrivalCarries(off, counter, bodies, first, Heard(l, calls), Low(l.lock.offset));
    TrainReceived(l, calls, chip, all[first..], FrameNumber(off, counter + first), m);
    if l.lock.offset == chip.expected {
      NoIndex(l.lock, chip.expected);
    }
    BodiesComeOut(off, counter, bodies, first, RunFrames(l, calls, chip.pattern));
  }

  /** Received frames hold the bodies sent. */
  lemma BodiesComeOut(off: Offset, counter: nat, bodies: seq<Body57>, first: nat, fs: seq<Packet>)
    requires first <= |WholeFrames(off, counter, bodies)| && SameBodies(fs, WholeFrames(off, counter, bodies)[first..])
    ensures forall j :: 0 <= j < |fs| ==>
      BodyIndex(off, first + j) < |bodies| && fs[j][2..59] == bodies[BodyIndex(off, first + j)]
  {
    var all := WholeFrames(off, counter, bodies);
    forall j | 0 <= j < |fs|
      ensures BodyIndex(off, first + j) < |bodies| && fs[j][2..59] == bodies[BodyIndex(off, first + j)]
    {
      assert Body(fs[j]) == Body(all[first..][j]) && all[first..][j] == all[first + j];
      FrameHolds(fs[j], FrameNumber(off, counter + (first + j)), bodies[BodyIndex(off, first + j)]);
    }
  }

  lemma FrameHolds(f: Packet, n: nat, body: Body57)
    requires n < 4 && Body(f) == Body(Frame(n, body))
    ensures f[2..59] == body
  {
    assert f[2..59] == Body(f)[2..59];
    assert Frame(n, body)[2..59] == Body(Frame(n, body))[2..59] == body;
  }

  /** A receiver locked at offset zero that is fed the unrotated stream as it is sent, in calls of
      any whole number of frames, gets back exactly the frames sent, and passes them all. */
  lemma DirectLink(counter: nat, bodies: seq<Body57>, l: Link, calls: seq<Call>, chip: Chip, m: Memory)
    requires bodies != [] && forall b :: b in bodies ==> EncodedBody(b)
    requires l.lock == Lock(true, 0) && chip.expected == 0 && Fed(calls) == Sent(0, counter, bodies)
    requires Ready(m, FrameNumber(0, counter))
    ensures RunLink(l, calls, chip.pattern).lock == l.lock
    ensures RunFrames(l, calls, chip.pattern) == WholeFrames(0, counter, bodies)
    ensures AllPass(m, RunFrames(l, calls, chip.pattern), chip.pattern, 0)
  {
    var s, sent, all := Heard(l, calls), Sent(0, counter, bodies), WholeFrames(0, counter, bodies);
    Blocks.FlatLength(Sending(0, counter, bodies));
    assert s[PKT_SIZE..] == sent == sent[0..|sent|];
    assert all[0..] == all;
    EndToEnd(0, counter, bodies, 0, l, calls, chip, m);
    assert |RunFrames(l, calls, chip.pattern)| == |all|;
  }

  /** Such bodies exist: the encoder only has to put in the checksum it computes. */
  lemma BodiesExist(rest: seq<Byte>)
    requires |rest| == BODY_SIZE - 4
    ensures exists b: Body57 :: EncodedBody(b) && b[4..] == rest
  {
    var check := Crc.TableDriven(0x0F, AsBits([0, 0] + rest[..4]));
    var b: Body57 := [0xad, 0, 0, check as int] + rest;
    assert b[4..] == rest && b[4..8] == rest[..4];
    assert (check as int) as bv8 == check;
    assert EncodedBody(b);
  }

  lemma NoIndex(k: Lock, expected: nat)
    requires expected <= 1 && k.offset == expected
    ensures IndexOf(k, expected) == 0
    ensures forall f: Packet, pattern: Byte :: !OffsetMuted(f, pattern, 0)
  {
  }

  /** len bytes from the first-th whole frame on lie within the whole frames sent. */
  predicate Covers(off: Offset, counter: nat, bodies: seq<Body57>, first: nat, len: int) {
    first < |WholeFrames(off, counter, bodies)| && len <= PKT_SIZE * (|WholeFrames(off, counter, bodies)| - first)
  }

  /** From at on, s is what the sent bytes are from `from` on. */
  predicate Arrives(sent: seq<Byte>, from: nat, s: seq<Byte>, at: nat) {
    at <= |s| && from + |s| - at <= |sent| && s[at..] == sent[from..from + |s| - at]
  }

  lemma ArrivalCarries(off: Offset, counter: nat, bodies: seq<Body57>, first: nat, s: seq<Byte>, at: nat)
    requires Arrives(Sent(off, counter, bodies), Start(off) + PKT_SIZE * first, s, at)
    requires Covers(off, counter, bodies, first, |s| - at)
    ensures Carries(s, at, WholeFrames(off, counter, bodies)[first..])
  {
    var all := WholeFrames(off, counter, bodies);
    SentCarriesFrames(off, counter, bodies);
    FlatParts(all, first);
    CarriesTail(Sent(off, counter, bodies), Start(off), Blocks.Flat(all[..first]), Blocks.Flat(all[first..]), s, at);
  }

  lemma FlatParts(all: seq<Packet>, first: nat)
    requires first <= |all|
    ensures Blocks.Flat(all) == Blocks.Flat(all[..first]) + Blocks.Flat(all[first..])
    ensures |Blocks.Flat(all)| == PKT_SIZE * |all| && |Blocks.Flat(all[..first])| == PKT_SIZE * first
    ensures |Blocks.Flat(all[first..])| == PKT_SIZE * (|all| - first)
  {
    assert Blocks.Even(all) && Blocks.Even(all[..first]) && Blocks.Even(all[first..]);
    Blocks.FlatLength(all);
    Blocks.FlatLength(all[..first]);
    Blocks.FlatLength(all[first..]);
    Blocks.FlatConcat(all[..first], all[first..]);
    assert all[..first] + all[first..] == all;
  }

  lemma CarriesTail(sent: seq<Byte>, start: nat, head: seq<Byte>, rest: seq<Byte>, s: seq<Byte>, at: nat)
    requires start + |head + rest| <= |sent| && sent[start..start + |head + rest|] == head + rest
    requires Arrives(sent, start + |head|, s, at) && |s| - at <= |rest|
    ensures s[at..] == rest[..|s| - at]
  {
    var k, h := |s| - at, |head|;
    Blocks.Within(sent, start, start + |head + rest|, h, h + k);
    Blocks.Within(head + rest, h, |head + rest|, 0, k);
    assert (head + rest)[h..|head + rest|] == rest && rest[0..k] == rest[..k];
  }

  /** An unlocked receiver that meets a train locks on the first header it meets, and cuts out every
      frame of the train that does not start before its first boundary. */
  lemma FirstHeaderLocks(l: Link, calls: seq<Call>, pattern: Byte, frames: seq<Packet>, n: nat, i: nat)
    requires calls != [] && !l.lock.locked
    requires i == FirstSync(Seen(l, calls[0]), 0, |calls[0].input|) < |calls[0].input|
    requires Carries(Heard(l, calls), i, frames) && Train(frames, n)
    ensures RunLink(l, calls, pattern).lock == Lock(true, i % PKT_SIZE)
    ensures CutsFrames(i, RunFrames(l, calls, pattern), frames)
  {
    CarriedIsSynced(Heard(l, calls), i, frames, n);
    AcquiresAndTiles(l, calls, pattern, i);
    TilesAreFrames(Heard(l, calls), i, frames, RunFrames(l, calls, pattern), i % PKT_SIZE != 1);
  }

  /** The j-th cut after locking on the header at i is a frame of the train that starts at i,
      unless it was cut before the train. */
  predicate CutsFrames(i: nat, fs: seq<Packet>, frames: seq<Packet>) {
    forall j :: 0 <= j < |fs| && Low(i % PKT_SIZE) + PKT_SIZE * j >= i ==>
      && Frames(i, j) < |frames|
      && Body(fs[j]) == Body(frames[Frames(i, j)])
  }

  lemma TilesAreFrames(s: seq<Byte>, i: nat, frames: seq<Packet>, fs: seq<Packet>, exact: bool)
    requires Carries(s, i, frames) && Tiles(s, Low(i % PKT_SIZE), fs, exact)
    ensures CutsFrames(i, fs, frames)
  {
    forall j | 0 <= j < |fs| && Low(i % PKT_SIZE) + PKT_SIZE * j >= i
      ensures Frames(i, j) < |frames| && Body(fs[j]) == Body(frames[Frames(i, j)])
    {
      assert Tile(s, Low(i % PKT_SIZE) + PKT_SIZE * j, fs[j], exact);
      CutIsFrame(s, i, frames, j, fs[j], exact);
    }
  }

  lemma CutIsFrame(s: seq<Byte>, i: nat, frames: seq<Packet>, j: nat, f: Packet, exact: bool)
    requires Low(i % PKT_SIZE) + PKT_SIZE * j >= i && Carries(s, i, frames)
    requires Tile(s, Low(i % PKT_SIZE) + PKT_SIZE * j, f, exact)
    ensures Frames(i, j) < |frames| && Body(f) == Body(frames[Frames(i, j)])
  {
    FramesAt(i, j);
    CarriedFrame(s, i, frames, Frames(i, j), PKT_SIZE - 1);
  }

  /** How many frames after the one at i the j-th cut after locking on i falls. */
  function Frames(i: nat, j: nat): nat
    requires Low(i % PKT_SIZE) + PKT_SIZE * j >= i
  {
    (Low(i % PKT_SIZE) + PKT_SIZE * j - i) / PKT_SIZE
  }

  lemma FramesAt(i: nat, j: nat)
    requires Low(i % PKT_SIZE) + PKT_SIZE * j >= i
    ensures i + PKT_SIZE * Frames(i, j) == Low(i % PKT_SIZE) + PKT_SIZE * j
  {
  }

  // ----- From an unlocked receiver on -----

  /** A detector that has just heard no frame. */
  predicate Idle(m: Memory) {
    m.lastSeq == NO_SEQ && HeaderOf(m.older).Err? && HeaderOf(m.newer).Err?
  }

  lemma IdleIsReady(m: Memory, n: nat)
    requires Idle(m) && n < 4
    ensures Ready(m, n)
  {
  }

  lemma FreshIsIdle()
    ensures Idle(Fresh())
  {
  }

  lemma NoSyncNoHeader(p: Packet)
    requires !SyncAt(p, 0)
    ensures HeaderOf(p).Err?
  {
  }

  /** Packets without a header leave the detector idle. */
  lemma {:induction false} StaysIdle(m: Memory, fs: seq<Packet>, pattern: Byte, index: Index)
    requires Idle(m) && forall f :: f in fs ==> HeaderOf(f).Err?
    ensures Idle(After(m, InspectAll(fs, pattern, index)))
    decreases |fs|
  {
    if fs != [] {
      var run := InspectAll(fs, pattern, index);
      assert fs[0] in fs && run[1..] == InspectAll(fs[1..], pattern, index);
      assert forall f :: f in fs[1..] ==> f in fs;
      StaysIdle(Advance(m, run[0]), fs[1..], pattern, index);
    }
  }

  /** Calls in which an unlocked receiver finds no header. */
  predicate Quiet(l: Link, calls: seq<Call>, pattern: Byte)
    decreases |calls|
  {
    calls == [] || (
      && !l.lock.locked && FirstSync(Seen(l, calls[0]), 0, |calls[0].input|) == |calls[0].input|
      && Quiet(AfterCall(l, calls[0], pattern), calls[1..], pattern))
  }

  lemma QuietCall(l: Link, c: Call, pattern: Byte, j: nat)
    requires !l.lock.locked && FirstSync(Seen(l, c), 0, |c.input|) == |c.input| && j < |FramesOf(l, c, pattern)|
    ensures HeaderOf(FramesOf(l, c, pattern)[j]).Err?
  {
    var v, f := Seen(l, c), FramesOf(l, c, pattern)[j];
    assert f == v[PKT_SIZE * j..PKT_SIZE * j + PKT_SIZE];
    assert !SyncAt(v, PKT_SIZE * j);
    assert f[0..3] == v[PKT_SIZE * j..PKT_SIZE * j + 3];
    SameSync(v, PKT_SIZE * j, f, 0);
    NoSyncNoHeader(f);
  }

  lemma {:induction false} QuietStays(l: Link, calls: seq<Call>, pattern: Byte)
    requires !l.lock.locked && Quiet(l, calls, pattern)
    ensures !RunLink(l, calls, pattern).lock.locked
    ensures forall f :: f in RunFrames(l, calls, pattern) ==> HeaderOf(f).Err?
    decreases |calls|
  {
    if calls != [] {
      var c := calls[0];
      QuietStays(AfterCall(l, c, pattern), calls[1..], pattern);
      forall f | f in FramesOf(l, c, pattern)
        ensures HeaderOf(f).Err?
      {
        var j :| 0 <= j < |FramesOf(l, c, pattern)| && FramesOf(l, c, pattern)[j] == f;
        QuietCall(l, c, pattern, j);
      }
    }
  }

  /** How many frames are cut before the train, in the call that locks on a header at i. */
  function Skipped(i: nat): nat {
    if Low(i % PKT_SIZE) < i then 1 else 0
  }

  lemma SkippedReaches(i: nat)
    requires i < MOST
    ensures Low(i % PKT_SIZE) + PKT_SIZE * Skipped(i) >= i && Frames(i, Skipped(i)) <= 1
    ensures Skipped(i) == 1 ==> i >= PKT_SIZE && Low(i % PKT_SIZE) == i - PKT_SIZE && i % PKT_SIZE != 1
  {
  }

  lemma SkippedAt(i: nat, j: nat)
    requires i < MOST
    ensures Low(i % PKT_SIZE) + PKT_SIZE * (j + Skipped(i)) >= i
    ensures Low(i % PKT_SIZE) + PKT_SIZE * Skipped(i) >= i && Frames(i, j + Skipped(i)) == j + Frames(i, Skipped(i))
  {
    FramesAt(i, j + Skipped(i));
    FramesAt(i, Skipped(i));
  }

  lemma TrainDrops(frames: seq<Packet>, n: nat, k: nat) returns (n': nat)
    requires Train(frames, n) && k <= 1 && k <= |frames|
    ensures n' < 4 && Train(frames[k..], n')
  {
    if k == 0 {
      assert frames[0..] == frames;
      n' := n;
    } else {
      n' := NextSeq(n);
    }
  }

  /** After the frame cut before the train, if any, everything received is the train. */
  lemma RestIsTrain(i: nat, fs: seq<Packet>, frames: seq<Packet>)
    requires i < MOST && CutsFrames(i, fs, frames) && Skipped(i) <= |fs|
    requires Low(i % PKT_SIZE) + PKT_SIZE * Skipped(i) >= i && Frames(i, Skipped(i)) <= |frames|
    ensures SameBodies(fs[Skipped(i)..], frames[Frames(i, Skipped(i))..])
  {
    var skip := Skipped(i);
    SkippedReaches(i);
    var k := Frames(i, skip);
    var gs, hs := fs[skip..], frames[k..];
    forall j | 0 <= j < |gs|
      ensures j < |hs| && Body(gs[j]) == Body(hs[j])
    {
      SkippedAt(i, j);
      assert gs[j] == fs[j + skip];
    }
    if gs != [] {
      assert Body(gs[|gs| - 1]) == Body(hs[|gs| - 1]);
    }
  }

  /** An unlocked receiver with an idle detector that meets a train locks on its first header; the
      frames cut from there on are the train's, and they all pass exactly when none is taken for a
      half-muted one. */
  lemma PassesFromFirstHeader(l: Link, calls: seq<Call>, chip: Chip, frames: seq<Packet>, n: nat, i: nat, m: Memory)
    requires calls != [] && !l.lock.locked && chip.expected <= 1 && Idle(m)
    requires i == FirstSync(Seen(l, calls[0]), 0, |calls[0].input|) < |calls[0].input|
    requires Carries(Heard(l, calls), i, frames) && Train(frames, n)
    ensures RunLink(l, calls, chip.pattern).lock == Lock(true, i % PKT_SIZE)
    ensures Skipped(i) <= |RunFrames(l, calls, chip.pattern)| && FromHeader(l, calls, chip, frames, i, m)
  {
    var s, fs, skip := Heard(l, calls), RunFrames(l, calls, chip.pattern), Skipped(i);
    FirstHeaderLocks(l, calls, chip.pattern, frames, n, i);
    SkippedReaches(i);
    HeardHead(l, calls, chip.pattern);
    CarriedFrame(s, i, frames, 0, 1);
    RestIsTrain(i, fs, frames);
    var n' := TrainDrops(frames, n, Frames(i, skip));
    SkippedHasNoHeader(l, calls, chip.pattern, frames, n, i);
    var index := IndexOf(Lock(true, i % PKT_SIZE), chip.expected);
    StaysIdle(m, fs[..skip], chip.pattern, index);
    var m' := After(m, InspectAll(fs[..skip], chip.pattern, index));
    IdleIsReady(m', n');
    ReceivedPasses(m', fs[skip..], frames[Frames(i, skip)..], n', chip.pattern, index);
  }

  /** What is received from the first boundary at or after the header at i. */
  ghost predicate FromHeader(l: Link, calls: seq<Call>, chip: Chip, frames: seq<Packet>, i: nat, m: Memory)
    requires i < MOST && chip.expected <= 1 && Skipped(i) <= |RunFrames(l, calls, chip.pattern)|
  {
    var fs, skip, index := RunFrames(l, calls, chip.pattern), Skipped(i), IndexOf(Lock(true, i % PKT_SIZE), chip.expected);
    && Low(i % PKT_SIZE) + PKT_SIZE * skip >= i && Frames(i, skip) <= |frames|
    && SameBodies(fs[skip..], frames[Frames(i, skip)..])
    && (AllPass(After(m, InspectAll(fs[..skip], chip.pattern, index)), fs[skip..], chip.pattern, index)
      <==> forall f :: f in fs[skip..] ==> !OffsetMuted(f, chip.pattern, index))
  }

  lemma SkippedHasNoHeader(l: Link, calls: seq<Call>, pattern: Byte, frames: seq<Packet>, n: nat, i: nat)
    requires calls != [] && !l.lock.locked
    requires i == FirstSync(Seen(l, calls[0]), 0, |calls[0].input|) < |calls[0].input|
    requires Carries(Heard(l, calls), i, frames) && Train(frames, n)
    ensures Skipped(i) <= |RunFrames(l, calls, pattern)|
    ensures forall f :: f in RunFrames(l, calls, pattern)[..Skipped(i)] ==> HeaderOf(f).Err?
  {
    var fs := RunFrames(l, calls, pattern);
    assert |FramesOf(l, calls[0], pattern)| >= 1;
    if Skipped(i) == 1 {
      CarriedIsSynced(Heard(l, calls), i, frames, n);
      FirstCutHasNoHeader(l, calls, pattern, i);
      assert forall f :: f in fs[..1] ==> f == fs[0];
    }
  }

  lemma FirstCutHasNoHeader(l: Link, calls: seq<Call>, pattern: Byte, i: nat)
    requires calls != [] && !l.lock.locked && Synced(Heard(l, calls), i)
    requires i == FirstSync(Seen(l, calls[0]), 0, |calls[0].input|) < |calls[0].input|
    requires Skipped(i) == 1 && RunFrames(l, calls, pattern) != []
    ensures HeaderOf(RunFrames(l, calls, pattern)[0]).Err?
  {
    var at := Low(i % PKT_SIZE);
    SkippedReaches(i);
    AcquiresAndTiles(l, calls, pattern, i);
    assert Tile(Heard(l, calls), at + PKT_SIZE * 0, RunFrames(l, calls, pattern)[0], true);
    HeardHead(l, calls, pattern);
    CutBeforeHeader(Seen(l, calls[0]), Heard(l, calls), PKT_SIZE + |calls[0].input|, at, RunFrames(l, calls, pattern)[0]);
  }

  lemma CutBeforeHeader(v: View, s: seq<Byte>, k: nat, at: nat, f: Packet)
    requires at + PKT_SIZE <= k <= |v| && k <= |s| && v[..k] == s[..k] && f == s[at..at + PKT_SIZE] && !SyncAt(v, at)
    ensures HeaderOf(f).Err?
  {
    Agree(v, s, k, at, 3);
    assert f[0..3] == s[at..at + 3];
    SameSync(v, at, f, 0);
    NoSyncNoHeader(f);
  }

  /** From a cold start: a receiver that is unlocked, its detector idle, first hears nothing that looks
      like a header, and then what the framer sends. It locks on the first header it meets, gets back
      every frame from the first boundary on, and passes them all exactly when none is taken for a
      half-muted one. */
  lemma ColdStart(off: Offset, counter: nat, bodies: seq<Body57>, first: nat, l: Link, quiet: seq<Call>, calls: seq<Call>,
      chip: Chip, i: nat, m: Memory)
    requires forall b :: b in bodies ==> EncodedBody(b)
    requires !l.lock.locked && Quiet(l, quiet, chip.pattern) && Idle(m) && chip.expected <= 1 && calls != []
    requires i == FirstSync(Seen(RunLink(l, quiet, chip.pattern), calls[0]), 0, |calls[0].input|) < |calls[0].input|
    requires Arrives(Sent(off, counter, bodies), Start(off) + PKT_SIZE * first, Heard(RunLink(l, quiet, chip.pattern), calls), i)
    requires Covers(off, counter, bodies, first, |Heard(RunLink(l, quiet, chip.pattern), calls)| - i)
    ensures var l', m' := RunLink(l, quiet, chip.pattern), After(m, InspectAll(RunFrames(l, quiet, chip.pattern), chip.pattern, 0));
      && RunLink(l', calls, chip.pattern).lock == Lock(true, i % PKT_SIZE)
      && Skipped(i) <= |RunFrames(l', calls, chip.pattern)|
      && FromHeader(l', calls, chip, WholeFrames(off, counter, bodies)[first..], i, m')
  {
    var l' := RunLink(l, quiet, chip.pattern);
    QuietStays(l, quiet, chip.pattern);
    StaysIdle(m, RunFrames(l, quiet, chip.pattern), chip.pattern, 0);
    NumberedTrain(off, counter, bodies, first);
    ArrivalCarries(off, counter, bodies, first, Heard(l', calls), i);
    PassesFromFirstHeader(l', calls, chip, WholeFrames(off, counter, bodies)[first..], FrameNumber(off, counter + first), i,
      After(m, InspectAll(RunFrames(l, quiet, chip.pattern), chip.pattern, 0)));
  }

  // ----- Where the padding byte matters -----

  /** At offset one, on a chip that expects offset zero and mutes with 0x55, the last frame of
      every two-frame call is taken for a half-muted one: its padding byte is the buffer's spare
      byte, which holds the mute pattern and which no call changes. */
  lemma OffByOneLosesFrames(l: Link, c: Call, m: Memory, frame: Packet, n: nat)
    requires l.lock == Lock(true, 1) && l.buf[ALL - 1] == 0x55 && |c.input| == MOST
    requires SyncAt(Seen(l, c), Boundary(1, 0)) && SyncAt(Seen(l, c), Boundary(1, 1))
    requires Body(FramesOf(l, c, 0x55)[1]) == Body(frame) && ValidFrame(frame, n)
    ensures OutcomeOf(m, Inspect(FramesOf(l, c, 0x55)[1], 0x55, IndexOf(l.lock, 0))) == TransmitterOffset
    ensures AfterCall(l, c, 0x55).buf[ALL - 1] == 0x55 && AfterCall(l, c, 0x55).lock == l.lock
  {
    SecondFrame(l, c);
    LastByte(Seen(l, c), FramesOf(l, c, 0x55)[1]);
    SpareByteStays(l, c, 0x55);
    OneByteOff();
    PaddedWithPattern(FramesOf(l, c, 0x55)[1], frame, n, m);
  }

  lemma SecondFrame(l: Link, c: Call)
    requires l.lock == Lock(true, 1) && |c.input| == MOST
    requires SyncAt(Seen(l, c), Boundary(1, 0)) && SyncAt(Seen(l, c), Boundary(1, 1))
    ensures AfterCall(l, c, 0x55).lock == l.lock
    ensures FramesOf(l, c, 0x55)[1] == Seen(l, c)[Boundary(1, 1)..Boundary(1, 1) + PKT_SIZE]
  {
    var v := Seen(l, c);
    assert Steady(v, 1, 0, 0) && Steady(v, 1, 1, 0);
    SteadyPlan(l.lock, v, MOST, 0x55);
  }

  lemma OneByteOff()
    ensures IndexOf(Lock(true, 1), 0) == 1
  {
  }

  lemma SpareByteStays(l: Link, c: Call, pattern: Byte)
    ensures Seen(l, c)[ALL - 1] == AfterCall(l, c, pattern).buf[ALL - 1] == l.buf[ALL - 1]
  {
    var s := Stored(l.buf, c.input);
    assert s[ALL - 1] == l.buf[PKT_SIZE + |c.input|..][ALL - 1 - PKT_SIZE - |c.input|];
    assert Kept(s, |c.input|)[ALL - 1] == s[PKT_SIZE..][ALL - 1 - PKT_SIZE];
  }

  lemma LastByte(v: View, f: Packet)
    requires f == v[Boundary(1, 1)..Boundary(1, 1) + PKT_SIZE]
    ensures f[PKT_SIZE - 1] == v[ALL - 1]
  {
  }

  lemma PaddedWithPattern(f: Packet, frame: Packet, n: nat, m: Memory)
    requires Body(f) == Body(frame) && ValidFrame(frame, n) && f[PKT_SIZE - 1] == 0x55
    ensures OutcomeOf(m, Inspect(f, 0x55, 1)) == TransmitterOffset
  {
    OffsetMutedExactly(f, frame, n, 0x55, 1);
    SameBodyFacts(f, frame, n, 0x55, 1);
  }
}
