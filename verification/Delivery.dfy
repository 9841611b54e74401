/** The loaders on top of the ring protocol: in every interleaving, packets come out of the ring as
    they were put into the input queue (a2dpplay.cpp). */
module Deliveries {
  import opened Bytes
  import opened Framing
  import opened RingProtocol

  lemma {:induction false} AacSplit(ps: seq<seq<Byte>>, k: nat)
    requires k <= |ps|
    ensures AacFrames(ps) == AacFrames(ps[..k]) + AacFrames(ps[k..])
    decreases |ps| - k
  {
    if k == |ps| {
      assert ps[..k] == ps;
    } else {
      AacSplit(ps, k + 1);
      AacFramesSnoc(ps[..k], ps[k]);
      assert ps[..k + 1] == ps[..k] + [ps[k]] && ps[k..][1..] == ps[k + 1..];
    }
  }

  lemma {:induction false} LhdcFramesSnoc(ps: seq<seq<Byte>>, p: seq<Byte>)
    ensures LhdcFrames(ps + [p]) == LhdcFrames(ps) + LhdcFrame(p)
    decreases |ps|
  {
    if ps == [] {
      assert [] + [p] == [p] && LhdcFrames([p]) == LhdcFrame(p) + LhdcFrames([]);
    } else {
      LhdcFramesSnoc(ps[1..], p);
      assert (ps + [p])[1..] == ps[1..] + [p];
    }
  }

  lemma {:induction false} LhdcSplit(ps: seq<seq<Byte>>, k: nat)
    requires k <= |ps|
    ensures LhdcFrames(ps) == LhdcFrames(ps[..k]) + LhdcFrames(ps[k..])
    decreases |ps| - k
  {
    if k == |ps| {
      assert ps[..k] == ps;
    } else {
      LhdcSplit(ps, k + 1);
      LhdcFramesSnoc(ps[..k], ps[k]);
      assert ps[..k + 1] == ps[..k] + [ps[k]] && ps[k..][1..] == ps[k + 1..];
    }
  }

  // ----- Either codec -----

  datatype Codec = Aac | Lhdc

  function FrameOf(c: Codec, p: seq<Byte>): seq<Byte> {
    match c case Aac => AacFrame(p) case Lhdc => LhdcFrame(p)
  }

  function FramesOf(c: Codec, ps: seq<seq<Byte>>): seq<Byte> {
    match c case Aac => AacFrames(ps) case Lhdc => LhdcFrames(ps)
  }

  function LoadOf(c: Codec, s: seq<Byte>): Load {
    match c case Aac => AacFromRing(s) case Lhdc => LhdcFromRing(s)
  }

  /** The packets the codec's loader accepts. */
  predicate Accepted(c: Codec, ps: seq<seq<Byte>>) {
    forall i :: 0 <= i < |ps| ==> |ps[i]| < match c case Aac => AAC_MAX case Lhdc => 0x1_0000_0000
  }

  lemma FramesSplit(c: Codec, ps: seq<seq<Byte>>, k: nat)
    requires k <= |ps|
    ensures FramesOf(c, ps) == FramesOf(c, ps[..k]) + FramesOf(c, ps[k..])
  {
    match c
    case Aac => AacSplit(ps, k);
    case Lhdc => LhdcSplit(ps, k);
  }

  lemma FramesNext(c: Codec, ps: seq<seq<Byte>>, k: nat)
    requires k < |ps|
    ensures FramesOf(c, ps[..k + 1]) == FramesOf(c, ps[..k]) + FrameOf(c, ps[k])
    ensures FramesOf(c, ps[k..]) == FrameOf(c, ps[k]) + FramesOf(c, ps[k + 1..])
  {
    assert ps[..k + 1] == ps[..k] + [ps[k]] && ps[k..][0] == ps[k] && ps[k..][1..] == ps[k + 1..];
    match c
    case Aac => AacFramesSnoc(ps[..k], ps[k]);
    case Lhdc => LhdcFramesSnoc(ps[..k], ps[k]);
  }

  /** A load from the start of a stream of packets gives the first, once all of it is there. */
  lemma FirstLoaded(c: Codec, got: seq<Byte>, more: seq<Byte>, ps: seq<seq<Byte>>)
    requires got + more == FramesOf(c, ps) && Accepted(c, ps)
    ensures var r := LoadOf(c, got);
      && (r.code == 0 <==> ps != [] && |got| >= |FrameOf(c, ps[0])|)
      && (r.code == 0 ==> r.payload == ps[0] && got == FrameOf(c, ps[0]) + r.rest)
      && (r.code != 0 ==> r.rest == got)
  {
    if ps == [] {
      assert got == [];
    } else {
      FramesNext(c, ps, 0);
      assert ps[0..] == ps;
      FrontIs(got, more, FrameOf(c, ps[0]), FramesOf(c, ps[1..]));
      match c {
        case Aac => AacRingLoads(got, more, ps);
        case Lhdc => LhdcRingLoads(got, more, ps);
      }
      if LoadOf(c, got).code == 0 {
        CutRight(LoadOf(c, got).rest, got[|FrameOf(c, ps[0])|..], more);
      }
    }
  }

  lemma CutRight<T>(a: seq<T>, b: seq<T>, c: seq<T>)
    requires a + c == b + c
    ensures a == b
  {
    assert |a| == |b|;
    assert a == (a + c)[..|a|] && b == (b + c)[..|b|];
  }

  lemma FrontIs<T>(live: seq<T>, waiting: seq<T>, f: seq<T>, more: seq<T>)
    requires live + waiting == f + more
    ensures |live| >= |f| ==> live == f + live[|f|..] && live[|f|..] + waiting == more
  {
    if |live| >= |f| {
      assert live[..|f|] == (live + waiting)[..|f|] == f;
      assert live[|f|..] + waiting == (live + waiting)[|f|..] == more;
    }
  }

  // ----- Runs in which the coprocessor loads packets -----

  /** Every commit of the trace is that of a load: the bytes read hold a whole packet, and the
      position moves past exactly that. */
  predicate Loads(c: Codec, s: State, trace: seq<Event>)
    requires Possible(s, trace)
    decreases |trace|
  {
    trace == [] || (
      && (trace[0].Commit? ==> var r := LoadOf(c, s.reader.got); r.code == 0 && trace[0].n == |s.reader.got| - |r.rest|)
      && Loads(c, Apply(s, trace[0]), trace[1..]))
  }

  /** The payloads loaded, in order. */
  function Loaded(c: Codec, s: State, trace: seq<Event>): seq<seq<Byte>>
    requires Possible(s, trace)
    decreases |trace|
  {
    if trace == [] then [] else
    (if trace[0].Commit? then [LoadOf(c, s.reader.got).payload] else []) + Loaded(c, Apply(s, trace[0]), trace[1..])
  }

  lemma {:induction false} SentGrows(s: State, trace: seq<Event>)
    requires Possible(s, trace)
    ensures s.sent <= Run(s, trace).sent
    decreases |trace|
  {
    if trace != [] {
      SentGrows(Apply(s, trace[0]), trace[1..]);
    }
  }

  /** What was read goes on from what was consumed. */
  lemma ReadIsNext(s: State, all: seq<Byte>, front: seq<Byte>, rest: seq<Byte>)
    requires Inv(s) && s.reader.Reading? && s.sent <= all && all == front + rest && s.eaten == front
    ensures s.reader.got <= rest && rest == s.reader.got + rest[|s.reader.got|..]
  {
    var got := s.reader.got;
    assert s.sent == (s.eaten + Live(s)[..|got|]) + (Live(s)[|got|..] + Waiting(s));
    assert (front + got) <= all;
    assert rest[..|got|] == all[|front|..|front| + |got|] == got;
  }

  /** Bytes read where the k-th packet is next, as a load sees them. */
  lemma NextLoad(c: Codec, s: State, ps: seq<seq<Byte>>, k: nat)
    requires Inv(s) && s.reader.Reading? && Accepted(c, ps) && k <= |ps|
    requires s.sent <= FramesOf(c, ps) && s.eaten == FramesOf(c, ps[..k])
    ensures var r := LoadOf(c, s.reader.got);
      && (r.code == 0 <==> k < |ps| && |s.reader.got| >= |FrameOf(c, ps[k])|)
      && (r.code == 0 ==> r.payload == ps[k] && s.reader.got == FrameOf(c, ps[k]) + r.rest)
  {
    FramesSplit(c, ps, k);
    var rest := FramesOf(c, ps[k..]);
    ReadIsNext(s, FramesOf(c, ps), s.eaten, rest);
    FirstLoaded(c, s.reader.got, rest[|s.reader.got|..], ps[k..]);
  }

  lemma LoadTakes(c: Codec, s: State, n: nat, ps: seq<seq<Byte>>, k: nat)
    requires Inv(s) && Enabled(s, Commit(n)) && Accepted(c, ps) && k <= |ps|
    requires s.sent <= FramesOf(c, ps) && s.eaten == FramesOf(c, ps[..k])
    requires var r := LoadOf(c, s.reader.got); r.code == 0 && n == |s.reader.got| - |r.rest|
    ensures k < |ps| && LoadOf(c, s.reader.got).payload == ps[k]
    ensures Apply(s, Commit(n)).eaten == FramesOf(c, ps[..k + 1])
  {
    NextLoad(c, s, ps, k);
    FramesNext(c, ps, k);
    assert s.reader.got[..n] == FrameOf(c, ps[k]);
  }

  /** The loads are the packets from the k-th on, and all bytes up to the last of them are consumed. */
  predicate InOrder(c: Codec, loads: seq<seq<Byte>>, eaten: seq<Byte>, ps: seq<seq<Byte>>, k: nat) {
    k + |loads| <= |ps| && loads == ps[k..k + |loads|] && eaten == FramesOf(c, ps[..k + |loads|])
  }

  lemma InOrderCons(c: Codec, loads: seq<seq<Byte>>, eaten: seq<Byte>, ps: seq<seq<Byte>>, k: nat)
    requires k < |ps| && InOrder(c, loads, eaten, ps, k + 1)
    ensures InOrder(c, [ps[k]] + loads, eaten, ps, k)
  {
    assert [ps[k]] + ps[k + 1..k + 1 + |loads|] == ps[k..k + 1 + |loads|];
  }

  lemma {:induction false} LoadedFrom(c: Codec, s: State, trace: seq<Event>, ps: seq<seq<Byte>>, k: nat)
    requires Inv(s) && Possible(s, trace) && Loads(c, s, trace) && Accepted(c, ps) && k <= |ps|
    requires Run(s, trace).sent <= FramesOf(c, ps) && s.eaten == FramesOf(c, ps[..k])
    ensures InOrder(c, Loaded(c, s, trace), Run(s, trace).eaten, ps, k)
    decreases |trace|
  {
    if trace != [] {
      var e, s', rest := trace[0], Apply(s, trace[0]), trace[1..];
      SentGrows(s, trace);
      StepKeeps(s, e);
      if e.Commit? {
        LoadTakes(c, s, e.n, ps, k);
        LoadedFrom(c, s', rest, ps, k + 1);
        InOrderCons(c, Loaded(c, s', rest), Run(s', rest).eaten, ps, k);
      } else {
        OnlyCommitsEat(s, e);
        LoadedFrom(c, s', rest, ps, k);
      }
    }
  }

  lemma OnlyCommitsEat(s: State, e: Event)
    requires Formed(s) && Enabled(s, e) && !e.Commit?
    ensures Apply(s, e).eaten == s.eaten
  {
  }

  /** In every interleaving in which the coprocessor moves the read position only as its loader does,
      on what it read byte by byte with a view of the write position that may be old: the packets
      loaded so far are the first ones queued, in order, and exactly their bytes are consumed. What it
      has read since is a packet to load exactly when it holds all of the next one, and then it is
      that one. The queued bytes may end anywhere, also inside a packet. */
  lemma PacketsDelivered(c: Codec, size: nat, trace: seq<Event>, ps: seq<seq<Byte>>)
    requires size > 0 && Possible(Start(size), trace) && Loads(c, Start(size), trace) && Accepted(c, ps)
    requires Run(Start(size), trace).sent <= FramesOf(c, ps)
    ensures var s, m := Run(Start(size), trace), |Loaded(c, Start(size), trace)|;
      && m <= |ps| && Loaded(c, Start(size), trace) == ps[..m] && s.eaten == FramesOf(c, ps[..m])
      && (s.reader.Reading? ==> var r := LoadOf(c, s.reader.got);
        && (r.code == 0 <==> m < |ps| && |s.reader.got| >= |FrameOf(c, ps[m])|)
        && (r.code == 0 ==> r.payload == ps[m] && s.reader.got == FrameOf(c, ps[m]) + r.rest))
  {
    assert ps[..0] == [] && ps[0..] == ps;
    RunKeeps(Start(size), trace);
    LoadedFrom(c, Start(size), trace, ps, 0);
    var s, m := Run(Start(size), trace), |Loaded(c, Start(size), trace)|;
    assert ps[0..m] == ps[..m];
    if s.reader.Reading? {
      NextLoad(c, s, ps, m);
    }
  }
}
