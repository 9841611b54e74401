/** What the packet-loss detector does over whole runs of packets. */
module PacketRuns {
  import opened Bytes
  import opened PacketLoss

  function After(m: Memory, run: seq<Facts>): Memory
    decreases |run|
  {
    if run == [] then m else After(Advance(m, run[0]), run[1..])
  }

  function Outcomes(m: Memory, run: seq<Facts>): (ts: seq<PlcType>)
    ensures |ts| == |run|
    decreases |run|
  {
    if run == [] then [] else [OutcomeOf(m, run[0])] + Outcomes(Advance(m, run[0]), run[1..])
  }

  // ----- An unbroken stream of valid frames passes -----

  /** The header is read from the body alone. */
  lemma HeaderInBody(p: Packet, q: Packet)
    requires Body(p) == Body(q)
    ensures HeaderOf(p) == HeaderOf(q)
  {
    assert forall i :: 0 <= i < PKT_SIZE - 1 ==> p[i] == Body(p)[i] && q[i] == Body(q)[i];
    assert Covered(p) == Covered(q);
  }

  /** A valid frame is taken for a half-muted one exactly when the mute pattern is zero, the
      stream sits two or more bytes off, and the frame ends in that many zero bytes. */
  lemma FalseOffsetMute(p: Packet, n: nat, pattern: Byte, index: Index)
    requires ValidFrame(p, n) && p[PKT_SIZE - 1] == 0
    requires pattern == 0x00 || pattern == 0x55
    ensures OffsetMuted(p, pattern, index)
      <==> pattern == 0 && index >= 2 && forall i :: PKT_SIZE - index <= i < PKT_SIZE ==> p[i] == 0
  {
  }

  /** What the check is for: a transmitter whose frames start index bytes into the packets on the air.
      When one of those is lost, the pattern takes its place, and both frames that had a part in it are
      recognised. */
  lemma LostOnAir(first: Packet, third: Packet, pattern: Byte, index: Index)
    requires index > (if pattern == 0 then 1 else 0) && first[index] != pattern
    ensures OffsetMuted(first[index..] + seq(index, _ => pattern), pattern, index)
    ensures OffsetMuted(seq(PKT_SIZE - index, _ => pattern) + third[..index], pattern, index)
  {
    var p: Packet := first[index..] + seq(index, _ => pattern);
    assert p[0] == first[index];
    assert forall i :: PKT_SIZE - index <= i < PKT_SIZE ==> p[i] == pattern;
    var q: Packet := seq(PKT_SIZE - index, _ => pattern) + third[..index];
    assert forall i :: 0 <= i < PKT_SIZE - index ==> q[i] == pattern;
  }

  /** What a valid frame shows: no constant pattern fits it, and its header reads back. */
  lemma FactsOfValidFrame(p: Packet, n: nat, pattern: Byte, index: Index)
    requires ValidFrame(p, n)
    ensures Inspect(p, pattern, index) == Facts(p, false, OffsetMuted(p, pattern, index), Ok(n))
  {
    assert p[0] != p[2];
    ParserAcceptsValidFrames(p, n);
  }

  /** Frames numbered onward from n, none taken for a muted one, and no two two apart alike. */
  predicate Stream(run: seq<Facts>, n: nat)
    decreases |run|
  {
    run == [] || (
      && run[0].header == Ok(n) && !run[0].muted && !run[0].offsetMuted
      && (|run| > 2 ==> Body(run[0].pkt) != Body(run[2].pkt))
      && Stream(run[1..], NextSeq(n)))
  }

  /** A stream may follow memory m: m expects its number, and neither of its first two frames
      repeats the packet two before it. */
  predicate MayFollow(m: Memory, run: seq<Facts>, n: nat) {
    && (m.lastSeq == NO_SEQ || NextSeq(m.lastSeq) == n)
    && (|run| > 0 ==> Body(m.older) != Body(run[0].pkt))
    && (|run| > 1 ==> Body(m.newer) != Body(run[1].pkt))
  }

  predicate Inspected(run: seq<Facts>) {
    forall i :: 0 <= i < |run| ==> run[i].header == HeaderOf(run[i].pkt)
  }

  /** Frames numbered onward from n, none taken for a muted one. */
  predicate Numbered(run: seq<Facts>, n: nat)
    decreases |run|
  {
    run == [] || (
      && run[0].header == Ok(n) && !run[0].muted && !run[0].offsetMuted
      && Numbered(run[1..], NextSeq(n)))
  }

  /** Consecutive numbers keep frames two apart from being alike. */
  lemma {:induction false} NumbersMakeStream(run: seq<Facts>, n: nat)
    requires n < 4 && Inspected(run) && Numbered(run, n)
    ensures Stream(run, n)
    decreases |run|
  {
    if run != [] {
      var rest := run[1..];
      assert forall i :: 0 <= i < |rest| ==> rest[i] == run[i + 1];
      NumbersMakeStream(rest, NextSeq(n));
      assert |run| > 2 ==> rest[1..][0] == run[2];
      if |run| > 2 && Body(run[0].pkt) == Body(run[2].pkt) {
        HeaderInBody(run[0].pkt, run[2].pkt);
      }
    }
  }

  lemma {:induction false} StreamPasses(m: Memory, run: seq<Facts>, n: nat)
    requires n < 4 && Stream(run, n) && MayFollow(m, run, n)
    ensures forall t :: t in Outcomes(m, run) ==> t == Pass
    decreases |run|
  {
    if run != [] {
      StreamPasses(Advance(m, run[0]), run[1..], NextSeq(n));
    }
  }

  lemma GapFrom(m: Memory, f: Facts, g: Facts, h: Facts, k: nat, n: nat)
    requires OutcomeOf(m, f) == Pass && OutcomeOf(Advance(m, f), g) == Pass
    requires f.header.sn < 4 && g.header.sn < 4 && n == (g.header.sn + 1 + k) % 4
    requires !h.muted && !h.offsetMuted && h.header == Ok(n)
    requires Body(f.pkt) == Body(h.pkt) ==> f.header == h.header
    ensures OutcomeOf(Advance(Advance(m, f), g), h) == Pass <==> k % 4 == 0
  {
    assert g.header.sn == NextSeq(f.header.sn);
    GapNumber(g.header.sn, k);
  }

  lemma GapNumber(sn: nat, k: nat)
    requires sn < 4
    ensures (sn + 1 + k) % 4 == NextSeq(sn) <==> k % 4 == 0
  {
  }

  lemma HeaderNumber(p: Packet)
    ensures HeaderOf(p).Ok? ==> HeaderOf(p).sn < 4
  {
  }

  /** After two accepted frames f and g, and k frames lost, the next good frame h passes exactly
      when four divides k; otherwise the loss is noticed. */
  lemma GapDetected(m: Memory, f: Facts, g: Facts, h: Facts, k: nat, n: nat)
    requires Inspected([f, g, h])
    requires OutcomeOf(m, f) == Pass && OutcomeOf(Advance(m, f), g) == Pass
    requires n == (g.header.sn + 1 + k) % 4 && h.header == Ok(n) && !h.muted && !h.offsetMuted
    ensures OutcomeOf(Advance(Advance(m, f), g), h) == Pass <==> k % 4 == 0
  {
    var run := [f, g, h];
    assert run[0].header == HeaderOf(f.pkt) && run[1].header == HeaderOf(g.pkt) && run[2].header == HeaderOf(h.pkt);
    HeaderNumber(f.pkt);
    HeaderNumber(g.pkt);
    if Body(f.pkt) == Body(h.pkt) {
      HeaderInBody(f.pkt, h.pkt);
    }
    GapFrom(m, f, g, h, k, n);
  }

  // ----- What each outcome means, and what a rejection leaves behind -----

  /** The header shows number n. */
  predicate Shows(p: Packet, n: nat) {
    n < 4 && p[0] == 0x01 && p[1] == SeqByte(n) && p[2] == 0xad
  }

  lemma HeaderCases(p: Packet)
    ensures HeaderOf(p).Ok? <==> exists n :: 0 <= n < 4 && ValidFrame(p, n)
    ensures HeaderOf(p) == Err(-4) <==> exists n :: 0 <= n < 4 && Shows(p, n) && !ValidFrame(p, n)
    ensures (exists n :: 0 <= n < 4 && Shows(p, n)) <==> HeaderOf(p).Ok? || HeaderOf(p) == Err(-4)
  {
    HeaderNumber(p);
    if HeaderOf(p).Ok? {
      ParserAcceptsValidFrames(p, HeaderOf(p).sn);
      assert Shows(p, HeaderOf(p).sn);
    } else {
      forall n | 0 <= n < 4
        ensures !ValidFrame(p, n)
      {
        ParserAcceptsValidFrames(p, n);
      }
      SyncShows(p);
    }
  }

  lemma SyncShows(p: Packet)
    ensures SyncOf(p).Ok? <==> exists n :: 0 <= n < 4 && Shows(p, n)
  {
    if SyncOf(p).Ok? {
      assert Shows(p, SyncOf(p).sn);
    }
  }

  /** Whether a packet gets as far as the header: no mute pattern in its first 59 bytes, not taken for
      a half-muted one, and not the same 59 bytes as the packet before last, unless the check before
      last reported just that. */
  predicate GetsToHeader(m: Memory, p: Packet, pattern: Byte, index: Index) {
    && (exists i :: 0 <= i < 59 && p[i] != pattern)
    && !OffsetMuted(p, pattern, index)
    && (m.flag1 || exists i :: 0 <= i < 59 && p[i] != m.older[i])
  }

  lemma SameBody(p: Packet, q: Packet)
    ensures Body(p) != Body(q) <==> exists i :: 0 <= i < 59 && p[i] != q[i]
  {
    if forall i :: 0 <= i < 59 ==> p[i] == q[i] {
      assert Body(p) == Body(q);
    } else {
      var i :| 0 <= i < 59 && p[i] != q[i];
      assert Body(p)[i] != Body(q)[i];
    }
  }

  /** What each rejection before the header says of the packet. */
  lemma EarlyOutcomeMeans(m: Memory, p: Packet, pattern: Byte, index: Index)
    ensures var t := OutcomeOf(m, Inspect(p, pattern, index));
      && (t == ControllerMute <==> forall i :: 0 <= i < 59 ==> p[i] == pattern)
      && (t == TransmitterOffset <==> t != ControllerMute && OffsetMuted(p, pattern, index))
      && (t in {ControllerMute, TransmitterOffset, BleConflict} <==> !GetsToHeader(m, p, pattern, index))
  {
    SameBody(p, m.older);
  }

  /** What each outcome says of a packet that gets as far as the header. */
  lemma OutcomeMeans(m: Memory, p: Packet, pattern: Byte, index: Index)
    requires GetsToHeader(m, p, pattern, index)
    ensures var t := OutcomeOf(m, Inspect(p, pattern, index));
      && (t == HeaderError <==> forall n :: 0 <= n < 4 ==> !Shows(p, n))
      && (t == CrcError <==> exists n :: 0 <= n < 4 && Shows(p, n) && !ValidFrame(p, n))
      && (t == Pass <==> exists n :: 0 <= n < 4 && ValidFrame(p, n) && (m.lastSeq == NO_SEQ || n == NextSeq(m.lastSeq)))
      && t in {HeaderError, CrcError, Pass, SequenceDiscontinue}
  {
    HeaderCases(p);
    OnlyNumber(p);
    EarlyOutcomeMeans(m, p, pattern, index);
  }

  lemma OnlyNumber(p: Packet)
    ensures forall n :: 0 <= n < 4 && ValidFrame(p, n) ==> HeaderOf(p) == Ok(n)
    ensures HeaderOf(p).Ok? ==> HeaderOf(p).sn < 4 && ValidFrame(p, HeaderOf(p).sn)
  {
    forall n | 0 <= n < 4 && ValidFrame(p, n)
      ensures HeaderOf(p) == Ok(n)
    {
      ParserAcceptsValidFrames(p, n);
    }
    if HeaderOf(p).Ok? {
      HeaderNumber(p);
      ParserAcceptsValidFrames(p, HeaderOf(p).sn);
    }
  }

  lemma RejectForgets(m: Memory, f: Facts)
    requires OutcomeOf(m, f) != Pass
    ensures Advance(m, f).lastSeq == NO_SEQ
  {
  }

  /** Whatever a packet was rejected for, the next valid frame passes with any number, unless it is
      taken for a muted, a half-muted or a repeated one. */
  lemma PassesAfterReject(m: Memory, f: Facts, p: Packet, n: nat, pattern: Byte, index: Index)
    requires OutcomeOf(m, f) != Pass && ValidFrame(p, n) && GetsToHeader(Advance(m, f), p, pattern, index)
    ensures OutcomeOf(Advance(m, f), Inspect(p, pattern, index)) == Pass
  {
    var m' := Advance(m, f);
    SameBody(p, m'.older);
    FactsOfValidFrame(p, n, pattern, index);
  }

  /** And after an accepted frame only the next number passes. */
  lemma PassesAfterPass(m: Memory, f: Facts, p: Packet, n: nat, pattern: Byte, index: Index)
    requires OutcomeOf(m, f) == Pass && f.header == HeaderOf(f.pkt)
    requires ValidFrame(p, n) && GetsToHeader(Advance(m, f), p, pattern, index)
    ensures OutcomeOf(Advance(m, f), Inspect(p, pattern, index)) == (if n == NextSeq(f.header.sn) then Pass else SequenceDiscontinue)
  {
    var m' := Advance(m, f);
    HeaderNumber(f.pkt);
    SameBody(p, m'.older);
    FactsOfValidFrame(p, n, pattern, index);
  }

  // ----- Memory and conflict checks -----

  /** The detector remembers the last two packets, whatever they were. */
  lemma {:induction false} RemembersLastTwo(m: Memory, run: seq<Facts>)
    ensures |run| >= 1 ==> After(m, run).newer == run[|run| - 1].pkt
    ensures |run| >= 2 ==> After(m, run).older == run[|run| - 2].pkt
    ensures |run| == 1 ==> After(m, run).older == m.newer
    decreases |run|
  {
    if run != [] {
      RemembersLastTwo(Advance(m, run[0]), run[1..]);
    }
  }

  /** The results of the conflict checks a run makes, in order. */
  function Checks(m: Memory, run: seq<Facts>): seq<bool>
    decreases |run|
  {
    if run == [] then [] else
    (if run[0].muted || run[0].offsetMuted then [] else [Repeats(m, run[0].pkt)])
      + Checks(Advance(m, run[0]), run[1..])
  }

  /** The last two of some checks. */
  predicate LastTwo(cs: seq<bool>, flag1: bool, flag0: bool) {
    |cs| >= 2 && cs[|cs| - 2] == flag1 && cs[|cs| - 1] == flag0
  }

  lemma LastTwoGrow(c: bool, cs: seq<bool>, flag1: bool, flag0: bool)
    requires LastTwo(cs, flag1, flag0)
    ensures LastTwo([c] + cs, flag1, flag0)
  {
  }

  /** The flags are the results of the last two checks made; packets that make none leave them. */
  lemma {:induction false} FlagsAreLastChecks(m: Memory, run: seq<Facts>)
    ensures LastTwo([m.flag1, m.flag0] + Checks(m, run), After(m, run).flag1, After(m, run).flag0)
    decreases |run|
  {
    if run != [] {
      var m' := Advance(m, run[0]);
      FlagsAreLastChecks(m', run[1..]);
      var cs := [m.flag1, m.flag0] + Checks(m, run);
      var cs' := [m'.flag1, m'.flag0] + Checks(m', run[1..]);
      if run[0].muted || run[0].offsetMuted {
        assert cs == cs';
      } else {
        assert cs == [m.flag1] + cs';
        LastTwoGrow(m.flag1, cs', After(m, run).flag1, After(m, run).flag0);
      }
    }
  }

  predicate NoneTwoApart(cs: seq<bool>) {
    forall i :: 2 <= i < |cs| ==> !(cs[i] && cs[i - 2])
  }

  /** No two conflict checks two apart both report a conflict: a repeated body is not reported
      a second time because of the first report. */
  lemma {:induction false} ConflictsNotTwoApart(m: Memory, run: seq<Facts>)
    ensures NoneTwoApart([m.flag1, m.flag0] + Checks(m, run))
    decreases |run|
  {
    if run != [] {
      var m' := Advance(m, run[0]);
      ConflictsNotTwoApart(m', run[1..]);
      var cs := [m.flag1, m.flag0] + Checks(m, run);
      var cs' := [m'.flag1, m'.flag0] + Checks(m', run[1..]);
      if run[0].muted || run[0].offsetMuted {
        assert cs == cs';
      } else {
        assert cs == [m.flag1] + cs';
        assert cs[2] == Repeats(m, run[0].pkt);
      }
    }
  }

  // ----- The histogram counts what each packet came to -----

  /** How a packet was classified, and whether the codec then rejected it. */
  datatype Verdict = Verdict(t: PlcType, codecFails: bool) {
    function Final(): PlcType {
      if t == Pass && codecFails then DecoderError else t
    }
  }

  function Verdicts(m: Memory, run: seq<Facts>, codecFails: seq<bool>): (vs: seq<Verdict>)
    requires |codecFails| == |run|
    ensures |vs| == |run|
  {
    seq(|run|, i requires 0 <= i < |run| => Verdict(Outcomes(m, run)[i], codecFails[i]))
  }

  /** A packet is counted when it is classified; a passed packet that the codec rejects is recounted. */
  function Booked(h: seq<int>, v: Verdict): (r: seq<int>)
    requires |h| == 10
    ensures |r| == 10
  {
    if v.t == Pass && v.codecFails then Counted(Counted(h, Pass), DecoderError) else Counted(h, v.t)
  }

  function HistAfter(h: seq<int>, vs: seq<Verdict>): (r: seq<int>)
    requires |h| == 10
    ensures |r| == 10
    decreases |vs|
  {
    if vs == [] then h else HistAfter(Booked(h, vs[0]), vs[1..])
  }

  function CountFinal(vs: seq<Verdict>, t: PlcType): nat
    decreases |vs|
  {
    if vs == [] then 0 else (if vs[0].Final() == t then 1 else 0) + CountFinal(vs[1..], t)
  }

  lemma BookedCounts(h: seq<int>, v: Verdict, t: PlcType)
    requires |h| == 10
    requires v.t != DecoderError
    ensures Booked(h, v)[Slot(t)] == h[Slot(t)] + (if v.Final() == t then 1 else 0)
  {
  }

  lemma {:induction false} ClassifierNeverSaysDecoderError(m: Memory, run: seq<Facts>)
    ensures DecoderError !in Outcomes(m, run)
    decreases |run|
  {
    if run != [] {
      ClassifierNeverSaysDecoderError(Advance(m, run[0]), run[1..]);
    }
  }

  lemma {:induction false} CountsFrom(h: seq<int>, vs: seq<Verdict>, t: PlcType)
    requires |h| == 10 && forall v :: v in vs ==> v.t != DecoderError
    ensures HistAfter(h, vs)[Slot(t)] == h[Slot(t)] + CountFinal(vs, t)
    decreases |vs|
  {
    if vs != [] {
      BookedCounts(h, vs[0], t);
      CountsFrom(Booked(h, vs[0]), vs[1..], t);
    }
  }

  /** Over a whole run each counter grows by the number of packets that came to that outcome, so
      none ever goes down, the pass counter included. */
  lemma HistogramCounts(h: seq<int>, m: Memory, run: seq<Facts>, codecFails: seq<bool>, t: PlcType)
    requires |h| == 10 && |codecFails| == |run|
    ensures var vs := Verdicts(m, run, codecFails); HistAfter(h, vs)[Slot(t)] == h[Slot(t)] + CountFinal(vs, t)
  {
    ClassifierNeverSaysDecoderError(m, run);
    CountsFrom(h, Verdicts(m, run, codecFails), t);
  }

  function Total(h: seq<int>): int
    requires |h| == 10
  {
    h[0] + h[1] + h[2] + h[3] + h[4] + h[5] + h[6] + h[7] + h[8] + h[9]
  }

  lemma {:induction false} TotalFrom(h: seq<int>, vs: seq<Verdict>)
    requires |h| == 10 && forall v :: v in vs ==> v.t != DecoderError
    ensures Total(HistAfter(h, vs)) == Total(h) + |vs|
    decreases |vs|
  {
    if vs != [] {
      TotalFrom(Booked(h, vs[0]), vs[1..]);
    }
  }

  /** Every packet is counted exactly once. */
  lemma HistogramTotal(h: seq<int>, m: Memory, run: seq<Facts>, codecFails: seq<bool>)
    requires |h| == 10 && |codecFails| == |run|
    ensures Total(HistAfter(h, Verdicts(m, run, codecFails))) == Total(h) + |run|
  {
    ClassifierNeverSaysDecoderError(m, run);
    TotalFrom(h, Verdicts(m, run, codecFails));
  }
}
