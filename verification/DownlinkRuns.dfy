/** The reframer over whole runs of calls: it keeps its lock, its frames tile the received bytes,
    and what the uplink framer sent comes out again. */
module DownlinkRuns {
  import opened Bytes
  import opened PacketLoss
  import opened MsbcDownlink

  datatype Link = Link(buf: Buffer, lock: Lock)

  /** A call whose output has room for every frame, with the byte that lies past the buffer. */
  datatype Call = Call(input: Whole, beyond: Byte)

  type Whole = s: seq<Byte> | |s| <= MOST && |s| % PKT_SIZE == 0

  function Seen(l: Link, c: Call): View {
    Stored(l.buf, c.input) + [c.beyond]
  }

  function PlanFor(l: Link, c: Call, pattern: Byte): (p: Plan)
    ensures |p.starts| == |c.input| / PKT_SIZE
  {
    PlanOf(l.lock, Seen(l, c), |c.input|, pattern)
  }

  function FramesOf(l: Link, c: Call, pattern: Byte): (fs: seq<Packet>)
    ensures PKT_SIZE * |fs| == |c.input|
  {
    Cuts(Seen(l, c), PlanFor(l, c, pattern).starts, |c.input| / PKT_SIZE)
  }

  function AfterCall(l: Link, c: Call, pattern: Byte): Link {
    Link(Kept(Stored(l.buf, c.input), |c.input|), PlanFor(l, c, pattern).lock)
  }

  function RunLink(l: Link, calls: seq<Call>, pattern: Byte): Link
    decreases |calls|
  {
    if calls == [] then l else RunLink(AfterCall(l, calls[0], pattern), calls[1..], pattern)
  }

  function RunFrames(l: Link, calls: seq<Call>, pattern: Byte): seq<Packet>
    decreases |calls|
  {
    if calls == [] then [] else
    FramesOf(l, calls[0], pattern) + RunFrames(AfterCall(l, calls[0], pattern), calls[1..], pattern)
  }

  function Fed(calls: seq<Call>): seq<Byte>
    decreases |calls|
  {
    if calls == [] then [] else calls[0].input + Fed(calls[1..])
  }

  /** Everything a run can see: the sixty bytes kept before it, and all its input. */
  function Heard(l: Link, calls: seq<Call>): seq<Byte> {
    l.buf[..PKT_SIZE] + Fed(calls)
  }

  // ----- Locking -----

  /** Headers cannot overlap by one byte, so at most one drift fits. */
  lemma HeadersApart(s: seq<Byte>, i: nat)
    requires i + 3 < |s|
    ensures !(SyncAt(s, i) && SyncAt(s, i + 1))
  {
  }

  /** Boundary j of a call shows a header, or precedes the place where the call found its first one. */
  predicate Steady(v: View, offset: Index, j: nat, total: nat)
    requires j < 2
  {
    var at := Boundary(offset, j);
    SyncAt(v, at) || (at < total && !NearAt(v, at))
  }

  lemma SteadyBoundary(v: View, offset: Index, j: nat, total: nat, pattern: Byte)
    requires j < 2 && Steady(v, offset, j, total)
    ensures DriftAt(v, Boundary(offset, j)) == 0 && !LostAt(v, Boundary(offset, j), total, pattern)
  {
    var at := Boundary(offset, j);
    if SyncAt(v, at) {
      HeadersApart(v, at - 1);
    }
  }

  /** The zero-drift plan. */
  lemma SteadyPlan(k: Lock, v: View, len: nat, pattern: Byte)
    requires len <= MOST
    requires var (a, total) := Acquired(k, v, len);
      a.locked && forall j :: 0 <= j < len / PKT_SIZE ==> Steady(v, a.offset, j, total)
    ensures var p := PlanOf(k, v, len, pattern);
      && p.lock == Acquired(k, v, len).0
      && forall j :: 0 <= j < |p.starts| ==> p.starts[j] == Boundary(p.lock.offset, j)
  {
    var (a, total) := Acquired(k, v, len);
    forall j | 0 <= j < len / PKT_SIZE
      ensures DriftAt(v, Boundary(a.offset, j)) == 0 && !LostAt(v, Boundary(a.offset, j), total, pattern)
    {
      SteadyBoundary(v, a.offset, j, total, pattern);
    }
  }

  /** A lock is kept exactly when every boundary shows a header within a byte of it or the start
      of a muted frame. */
  lemma LockKept(l: Link, c: Call, pattern: Byte)
    requires l.lock.locked
    ensures AfterCall(l, c, pattern).lock.offset == l.lock.offset
    ensures AfterCall(l, c, pattern).lock.locked <==> forall j :: 0 <= j < |c.input| / PKT_SIZE ==>
      var v, at := Seen(l, c), Boundary(l.lock.offset, j);
      || SyncAt(v, at - 1) || SyncAt(v, at) || SyncAt(v, at + 1)
      || (v[at] == pattern && v[at + 1] % 16 == pattern % 16 && v[at + 2] == pattern)
  {
    var v, n := Seen(l, c), |c.input| / PKT_SIZE;
    assert forall j :: 0 <= j < n ==> (LostAt(v, Boundary(l.lock.offset, j), 0, pattern)
      <==> !NearAt(v, Boundary(l.lock.offset, j)) && !MuteAt(v, Boundary(l.lock.offset, j), pattern));
  }

  /** The reframer looks for exactly what the parser of frames takes for a header. */
  lemma SyncIsParsers(p: Packet)
    ensures SyncAt(p, 0) <==> HeaderOf(p) != Err(-1)
  {
  }

  /** The drift leads from the boundary to the header. */
  lemma DriftReaches(v: View, at: nat)
    requires 1 <= at && at + 3 < |v|
    ensures NearAt(v, at) ==> SyncAt(v, at + DriftAt(v, at))
    ensures !NearAt(v, at) ==> DriftAt(v, at) == 0
  {
  }

  /** A drifting frame is cut where its header is: of a locked call, every frame with a header within a
      byte of its boundary begins with that header, and any other is cut at the boundary. */
  lemma CutsAtHeader(l: Link, c: Call, pattern: Byte, j: nat)
    requires l.lock.locked && j < |FramesOf(l, c, pattern)|
    ensures j < 2
    ensures var v, at, f := Seen(l, c), Boundary(l.lock.offset, j), FramesOf(l, c, pattern)[j];
      if NearAt(v, at) then SyncAt(f, 0) && f in {v[at - 1..at - 1 + PKT_SIZE], v[at..at + PKT_SIZE], v[at + 1..at + 1 + PKT_SIZE]}
      else f == v[at..at + PKT_SIZE]
  {
    var v, at, f := Seen(l, c), Boundary(l.lock.offset, j), FramesOf(l, c, pattern)[j];
    var start := PlanFor(l, c, pattern).starts[j];
    assert f == v[start..start + PKT_SIZE] && start == at + DriftAt(v, at);
    DriftReaches(v, at);
    assert v[start..start + 3] == f[0..3];
    SameSync(v, start, f, 0);
  }

  /** So every frame of a locked call with a header near its boundary comes out with its header. */
  lemma NearComesOut(l: Link, c: Call, pattern: Byte, j: nat)
    requires l.lock.locked && j < |FramesOf(l, c, pattern)| && NearAt(Seen(l, c), Boundary(l.lock.offset, j))
    ensures SyncAt(FramesOf(l, c, pattern)[j], 0) && HeaderOf(FramesOf(l, c, pattern)[j]) != Err(-1)
  {
    CutsAtHeader(l, c, pattern, j);
    SyncIsParsers(FramesOf(l, c, pattern)[j]);
  }

  // ----- Tiling -----

  /** Every frame boundary from at on that leaves room for a header shows one. */
  ghost predicate Synced(s: seq<Byte>, at: nat) {
    forall j: nat :: at + PKT_SIZE * j + 2 < |s| ==> SyncAt(s, at + PKT_SIZE * j)
  }

  /** f is the slice of s at `at`, but for its last byte unless exact. */
  predicate Tile(s: seq<Byte>, at: nat, f: Packet, exact: bool) {
    && at + PKT_SIZE - 1 <= |s| && Body(f) == s[at..at + PKT_SIZE - 1]
    && (exact ==> at + PKT_SIZE <= |s| && f == s[at..at + PKT_SIZE])
  }

  /** The frames are consecutive sixty-byte slices of s from at on. */
  predicate Tiles(s: seq<Byte>, at: nat, fs: seq<Packet>, exact: bool) {
    forall j :: 0 <= j < |fs| ==> Tile(s, at + PKT_SIZE * j, fs[j], exact)
  }

  lemma TilesJoin(s: seq<Byte>, at: nat, fs: seq<Packet>, gs: seq<Packet>, exact: bool)
    requires PKT_SIZE * |fs| <= |s|
    requires Tiles(s, at, fs, exact) && Tiles(s[PKT_SIZE * |fs|..], at, gs, exact)
    ensures Tiles(s, at, fs + gs, exact)
  {
    forall j | 0 <= j < |fs + gs|
      ensures Tile(s, at + PKT_SIZE * j, (fs + gs)[j], exact)
    {
      if j >= |fs| {
        var k := j - |fs|;
        assert Tile(s[PKT_SIZE * |fs|..], at + PKT_SIZE * k, gs[k], exact);
        TileMoves(s, PKT_SIZE * |fs|, at + PKT_SIZE * k, gs[k], exact);
        assert PKT_SIZE * |fs| + (at + PKT_SIZE * k) == at + PKT_SIZE * j;
      }
    }
  }

  lemma TileMoves(s: seq<Byte>, shift: nat, at: nat, f: Packet, exact: bool)
    requires shift <= |s| && Tile(s[shift..], at, f, exact)
    ensures Tile(s, shift + at, f, exact)
  {
    assert s[shift..][at..at + PKT_SIZE - 1] == s[shift + at..shift + at + PKT_SIZE - 1];
    if exact {
      assert s[shift..][at..at + PKT_SIZE] == s[shift + at..shift + at + PKT_SIZE];
    }
  }

  lemma SyncedMoves(s: seq<Byte>, at: nat, n: nat)
    requires PKT_SIZE * n <= |s| && Synced(s, at)
    ensures Synced(s[PKT_SIZE * n..], at)
  {
    var t := s[PKT_SIZE * n..];
    forall j: nat | at + PKT_SIZE * j + 2 < |t|
      ensures SyncAt(t, at + PKT_SIZE * j)
    {
      assert SyncAt(s, at + PKT_SIZE * (j + n));
    }
  }

  /** What a call sees is the start of what the run hears, and the rest is heard by the rest. */
  lemma HeardHead(l: Link, calls: seq<Call>, pattern: Byte)
    requires calls != []
    ensures var c, s := calls[0], Heard(l, calls);
      && PKT_SIZE + |c.input| <= |s|
      && Seen(l, c)[..PKT_SIZE + |c.input|] == s[..PKT_SIZE + |c.input|]
      && Heard(AfterCall(l, c, pattern), calls[1..]) == s[|c.input|..]
  {
    var c, s := calls[0], Heard(l, calls);
    var seen := l.buf[..PKT_SIZE] + c.input;
    assert s == seen + Fed(calls[1..]);
    assert Seen(l, c)[..|seen|] == seen;
    assert Stored(l.buf, c.input)[..|seen|] == seen;
    assert Stored(l.buf, c.input)[|c.input|..|seen|] == seen[|c.input|..];
  }

  /** The frames of one zero-drift call are slices of what it sees. */
  lemma CallTiles(l: Link, c: Call, s: seq<Byte>, pattern: Byte)
    requires PKT_SIZE + |c.input| <= |s| && Seen(l, c)[..PKT_SIZE + |c.input|] == s[..PKT_SIZE + |c.input|]
    requires var p := PlanFor(l, c, pattern);
      forall j :: 0 <= j < |p.starts| ==> p.starts[j] == Boundary(p.lock.offset, j)
    ensures var p := PlanFor(l, c, pattern);
      Tiles(s, Low(p.lock.offset), FramesOf(l, c, pattern), p.lock.offset != 1)
  {
    var p, fs := PlanFor(l, c, pattern), FramesOf(l, c, pattern);
    forall j | 0 <= j < |fs|
      ensures Tile(s, Low(p.lock.offset) + PKT_SIZE * j, fs[j], p.lock.offset != 1)
    {
      BoundaryFits(p.lock.offset, j, |c.input|);
      TileSeen(Seen(l, c), s, PKT_SIZE + |c.input|, Boundary(p.lock.offset, j), fs[j], p.lock.offset != 1);
    }
  }

  lemma BoundaryFits(offset: Index, j: nat, len: nat)
    requires len <= MOST && len % PKT_SIZE == 0 && j < len / PKT_SIZE
    ensures Boundary(offset, j) + PKT_SIZE - (if offset == 1 then 1 else 0) <= PKT_SIZE + len
  {
  }

  lemma TileSeen(v: View, s: seq<Byte>, n: nat, at: nat, f: Packet, exact: bool)
    requires n <= |v| && n <= |s| && v[..n] == s[..n]
    requires at + PKT_SIZE <= |v| && f == v[at..at + PKT_SIZE]
    requires at + PKT_SIZE - (if exact then 0 else 1) <= n
    ensures Tile(s, at, f, exact)
  {
    Agree(v, s, n, at, PKT_SIZE - 1);
    assert Body(f) == v[at..at + PKT_SIZE - 1];
    if exact {
      Agree(v, s, n, at, PKT_SIZE);
    }
  }

  lemma Agree<T>(v: seq<T>, s: seq<T>, n: nat, at: nat, k: nat)
    requires at + k <= n <= |v| && n <= |s| && v[..n] == s[..n]
    ensures v[at..at + k] == s[at..at + k]
  {
    assert v[at..at + k] == v[..n][at..at + k];
  }

  /** In a stream whose boundaries show headers, a locked call is steady. */
  lemma SyncedIsSteady(l: Link, c: Call, s: seq<Byte>)
    requires l.lock.locked
    requires PKT_SIZE + |c.input| <= |s| && Seen(l, c)[..PKT_SIZE + |c.input|] == s[..PKT_SIZE + |c.input|]
    requires Synced(s, Low(l.lock.offset))
    ensures forall j :: 0 <= j < |c.input| / PKT_SIZE ==> Steady(Seen(l, c), l.lock.offset, j, 0)
  {
    forall j | 0 <= j < |c.input| / PKT_SIZE
      ensures Steady(Seen(l, c), l.lock.offset, j, 0)
    {
      var at := Boundary(l.lock.offset, j);
      assert SyncAt(s, Low(l.lock.offset) + PKT_SIZE * j);
      Agree(Seen(l, c), s, PKT_SIZE + |c.input|, at, 3);
      SameSync(Seen(l, c), at, s, at);
    }
  }

  lemma SameSync(v: seq<Byte>, i: nat, s: seq<Byte>, k: nat)
    requires i + 3 <= |v| && k + 3 <= |s| && v[i..i + 3] == s[k..k + 3]
    ensures SyncAt(v, i) == SyncAt(s, k)
  {
    var a, b := v[i..i + 3], s[k..k + 3];
    assert a[0] == b[0] && a[1] == b[1] && a[2] == b[2];
  }

  /** While boundaries show headers the reframer stays locked without drift, and its frames, over
      all calls, are consecutive slices of the sixty bytes kept before the run and all its input. */
  lemma {:induction false} LockedRunTiles(l: Link, calls: seq<Call>, pattern: Byte)
    requires l.lock.locked && Synced(Heard(l, calls), Low(l.lock.offset))
    ensures RunLink(l, calls, pattern).lock == l.lock
    ensures Tiles(Heard(l, calls), Low(l.lock.offset), RunFrames(l, calls, pattern), l.lock.offset != 1)
    ensures PKT_SIZE * |RunFrames(l, calls, pattern)| == |Fed(calls)|
    decreases |calls|
  {
    if calls != [] {
      var c, s := calls[0], Heard(l, calls);
      HeardHead(l, calls, pattern);
      SyncedIsSteady(l, c, s);
      SteadyPlan(l.lock, Seen(l, c), |c.input|, pattern);
      CallTiles(l, c, s, pattern);
      var fs, l' := FramesOf(l, c, pattern), AfterCall(l, c, pattern);
      SyncedMoves(s, Low(l.lock.offset), |fs|);
      LockedRunTiles(l', calls[1..], pattern);
      TilesJoin(s, Low(l.lock.offset), fs, RunFrames(l', calls[1..], pattern), l.lock.offset != 1);
    }
  }

  // ----- Acquiring the lock -----

  lemma FirstBoundaries(v: View, i: nat, len: nat, j: nat)
    requires len <= MOST && len % PKT_SIZE == 0 && j < len / PKT_SIZE && i == FirstSync(v, 0, len) < len
    requires forall m: nat :: i + PKT_SIZE * m + 2 < PKT_SIZE + len ==> SyncAt(v, i + PKT_SIZE * m)
    ensures Steady(v, i % PKT_SIZE, j, i)
  {
    var at := Boundary(i % PKT_SIZE, j);
    if at >= i {
      var m := (at - i) / PKT_SIZE;
      assert at == i + PKT_SIZE * m;
    } else {
      assert at + 1 < i;
    }
  }

  /** An unlocked call that meets a true header locks on it, and from that call on the frames
      are again consecutive slices; only a frame cut before the header need not be one. */
  lemma AcquiresAndTiles(l: Link, calls: seq<Call>, pattern: Byte, i: nat)
    requires calls != [] && !l.lock.locked
    requires i == FirstSync(Seen(l, calls[0]), 0, |calls[0].input|) < |calls[0].input|
    requires Synced(Heard(l, calls), i)
    ensures RunLink(l, calls, pattern).lock == Lock(true, i % PKT_SIZE)
    ensures Tiles(Heard(l, calls), Low(i % PKT_SIZE), RunFrames(l, calls, pattern), i % PKT_SIZE != 1)
  {
    var c, s, v, d := calls[0], Heard(l, calls), Seen(l, calls[0]), i % PKT_SIZE;
    var n := PKT_SIZE + |c.input|;
    HeardHead(l, calls, pattern);
    forall m: nat | i + PKT_SIZE * m + 2 < n
      ensures SyncAt(v, i + PKT_SIZE * m)
    {
      Agree(v, s, n, i + PKT_SIZE * m, 3);
      SameSync(v, i + PKT_SIZE * m, s, i + PKT_SIZE * m);
    }
    forall j | 0 <= j < |c.input| / PKT_SIZE
      ensures Steady(v, d, j, i)
    {
      FirstBoundaries(v, i, |c.input|, j);
    }
    SteadyPlan(l.lock, v, |c.input|, pattern);
    CallTiles(l, c, s, pattern);
    var fs, l' := FramesOf(l, c, pattern), AfterCall(l, c, pattern);
    LaterSynced(s, i, |c.input|);
    LockedRunTiles(l', calls[1..], pattern);
    TilesJoin(s, Low(d), fs, RunFrames(l', calls[1..], pattern), d != 1);
  }

  lemma LaterSynced(s: seq<Byte>, i: nat, len: nat)
    requires i < len <= MOST && len % PKT_SIZE == 0 && len <= |s| && Synced(s, i)
    ensures Synced(s[len..], Low(i % PKT_SIZE))
  {
    var low, t := Low(i % PKT_SIZE), s[len..];
    var m := (len + low - i) / PKT_SIZE;
    assert len + low == i + PKT_SIZE * m;
    forall j: nat | low + PKT_SIZE * j + 2 < |t|
      ensures SyncAt(t, low + PKT_SIZE * j)
    {
      assert SyncAt(s, i + PKT_SIZE * (m + j));
    }
  }
}
