/** The main processor loads the byte ring while the coprocessor reads it, without locks: every
    interleaving of their single steps (a2dpplay.cpp). */
module RingProtocol {
  import opened Bytes
  import opened Rings
  import opened InCaches

  /** Where the main processor is in one load: it has read both positions; it is copying what it
      peeked; it has published the write position but not yet taken the bytes off the queue. */
  datatype Loader =
    | Resting
    | Snapped(w: nat, r: nat)
    | Copying(at: nat, chunk: seq<Byte>, copied: nat)
    | Published(size: nat)

  /** The coprocessor has read the write position and some bytes, in order. */
  datatype Reader = Away | Reading(seen: nat, got: seq<Byte>)

  /** The shared memory, where both processors are, all bytes ever put into the queue, and all
      bytes the coprocessor ever consumed. */
  datatype State = State(cache: seq<Byte>, wpos: nat, rpos: nat, queue: seq<Byte>,
    loader: Loader, reader: Reader, sent: seq<Byte>, eaten: seq<Byte>)

  datatype Event =
    | Enqueue(bytes: seq<Byte>)
    | ReadPositions | Peek(n: nat) | CopyByte | Publish | Dequeue
    | ReadWpos | ReadByte | Commit(n: nat) | Leave

  predicate Formed(s: State) {
    && s.wpos < |s.cache| && s.rpos < |s.cache|
    && (s.loader.Snapped? ==> s.loader.w < |s.cache| && s.loader.r < |s.cache|)
    && (s.loader.Copying? ==> s.loader.at < |s.cache| && s.loader.copied <= |s.loader.chunk| < |s.cache|)
    && (s.loader.Published? ==> s.loader.size <= |s.queue|)
    && (s.reader.Reading? ==> s.reader.seen < |s.cache| && |s.reader.got| < |s.cache|)
  }

  predicate Enabled(s: State, e: Event)
    requires Formed(s)
  {
    match e
    case Enqueue(_) => true
    case ReadPositions => s.loader.Resting?
    case Peek(n) => s.loader.Snapped? && n <= |s.queue| && n <= FreeLen(|s.cache|, s.loader.w, s.loader.r)
    case CopyByte => s.loader.Copying? && s.loader.copied < |s.loader.chunk|
    case Publish => s.loader.Copying? && s.loader.copied == |s.loader.chunk|
    case Dequeue => s.loader.Published?
    case ReadWpos => s.reader.Away?
    case ReadByte => s.reader.Reading? && |s.reader.got| < DataLen(|s.cache|, s.reader.seen, s.rpos)
    case Commit(n) => s.reader.Reading? && n <= |s.reader.got|
    case Leave => s.reader.Reading?
  }

  function Apply(s: State, e: Event): (s': State)
    requires Formed(s) && Enabled(s, e)
    ensures |s'.cache| == |s.cache|
  {
    match e
    case Enqueue(bytes) => s.(queue := s.queue + bytes, sent := s.sent + bytes)
    case ReadPositions => s.(loader := Snapped(s.wpos, s.rpos))
    case Peek(n) => s.(loader := Copying(s.loader.w, s.queue[..n], 0))
    case CopyByte =>
      var l := s.loader;
      s.(cache := s.cache[Ahead(|s.cache|, l.at, l.copied) := l.chunk[l.copied]], loader := l.(copied := l.copied + 1))
    case Publish => s.(wpos := UpdatePos(|s.cache|, s.loader.at, |s.loader.chunk|), loader := Published(|s.loader.chunk|))
    case Dequeue => s.(queue := s.queue[s.loader.size..], loader := Resting)
    case ReadWpos => s.(reader := Reading(s.wpos, []))
    case ReadByte => s.(reader := s.reader.(got := s.reader.got + [s.cache[Ahead(|s.cache|, s.rpos, |s.reader.got|)]]))
    case Commit(n) =>
      s.(rpos := UpdatePos(|s.cache|, s.rpos, n), reader := Away, eaten := s.eaten + s.reader.got[..n])
    case Leave => s.(reader := Away)
  }

  function Start(size: nat): State
    requires size > 0
  {
    State(seq(size, _ => 0), 0, 0, [], Resting, Away, [], [])
  }

  /** Every event of the trace is enabled when its turn comes. */
  predicate Possible(s: State, trace: seq<Event>)
    decreases |trace|
  {
    trace == [] || (
      && Formed(s) && Enabled(s, trace[0])
      && Possible(Apply(s, trace[0]), trace[1..]))
  }

  function Run(s: State, trace: seq<Event>): State
    requires Possible(s, trace)
    decreases |trace|
  {
    if trace == [] then s else Run(Apply(s, trace[0]), trace[1..])
  }

  // ----- The invariant -----

  function Live(s: State): seq<Byte>
    requires Formed(s)
  {
    Between(s.cache, s.wpos, s.rpos)
  }

  /** What the queue holds that is not in the ring yet. */
  function Waiting(s: State): seq<Byte>
    requires Formed(s)
  {
    if s.loader.Published? then s.queue[s.loader.size..] else s.queue
  }

  /** The bytes consumed, then those in the ring, then those waiting, are the stream. */
  predicate Conserved(s: State)
    requires Formed(s)
  {
    s.eaten + Live(s) + Waiting(s) == s.sent
  }

  predicate CopyStands(cache: seq<Byte>, live: nat, wpos: nat, l: Loader, queue: seq<Byte>)
    requires wpos < |cache|
  {
    && l.Copying? && l.at == wpos && l.chunk <= queue && l.copied <= |l.chunk| && live + |l.chunk| < |cache|
    && forall j :: 0 <= j < l.copied ==> cache[Ahead(|cache|, wpos, j)] == l.chunk[j]
  }

  predicate LoaderStands(s: State)
    requires Formed(s)
  {
    match s.loader
    case Resting => true
    case Snapped(w, r) => w == s.wpos && FreeLen(|s.cache|, w, r) + |Live(s)| < |s.cache|
    case Copying(_, _, _) => CopyStands(s.cache, |Live(s)|, s.wpos, s.loader, s.queue)
    case Published(size) => true
  }

  predicate ReaderStands(s: State)
    requires Formed(s)
  {
    s.reader.Reading? ==>
      && DataLen(|s.cache|, s.reader.seen, s.rpos) <= |Live(s)|
      && |s.reader.got| <= DataLen(|s.cache|, s.reader.seen, s.rpos)
      && s.reader.got == Live(s)[..|s.reader.got|]
  }

  predicate Inv(s: State) {
    Formed(s) && Conserved(s) && LoaderStands(s) && ReaderStands(s)
  }

  /** A byte stored k places past the live ones, short of the free place, leaves them alone. */
  lemma StoreBeyond(cache: seq<Byte>, wpos: nat, rpos: nat, k: nat, b: Byte)
    requires wpos < |cache| && rpos < |cache| && DataLen(|cache|, wpos, rpos) + k < |cache|
    ensures Ahead(|cache|, wpos, k) < |cache|
    ensures Between(cache[Ahead(|cache|, wpos, k) := b], wpos, rpos) == Between(cache, wpos, rpos)
  {
    var n := DataLen(|cache|, wpos, rpos);
    forall i | 0 <= i < n
      ensures Ahead(|cache|, rpos, i) < |cache| && Ahead(|cache|, rpos, i) != Ahead(|cache|, wpos, k)
    {
      Apart(|cache|, rpos, n, k, i);
    }
  }

  lemma CopiedStays(cache: seq<Byte>, wpos: nat, chunk: seq<Byte>, k: nat)
    requires wpos < |cache| && k < |chunk| < |cache|
    requires forall j :: 0 <= j < k ==> cache[Ahead(|cache|, wpos, j)] == chunk[j]
    ensures Ahead(|cache|, wpos, k) < |cache|
    ensures forall j :: 0 <= j < k + 1 ==> cache[Ahead(|cache|, wpos, k) := chunk[k]][Ahead(|cache|, wpos, j)] == chunk[j]
  {
    forall j | 0 <= j < k + 1
      ensures cache[Ahead(|cache|, wpos, k) := chunk[k]][Ahead(|cache|, wpos, j)] == chunk[j]
    {
      StepsAhead(|cache|, wpos, j);
      StepsAhead(|cache|, wpos, k);
    }
  }

  /** Copying goes on without touching live bytes, and what was copied stays. */
  lemma CopyKeepsLive(s: State)
    requires Inv(s) && s.loader.Copying? && s.loader.copied < |s.loader.chunk|
    ensures Live(Apply(s, CopyByte)) == Live(s)
    ensures CopyStands(Apply(s, CopyByte).cache, |Live(s)|, s.wpos, Apply(s, CopyByte).loader, s.queue)
  {
    var l := s.loader;
    StoreBeyond(s.cache, s.wpos, s.rpos, l.copied, l.chunk[l.copied]);
    CopiedStays(s.cache, s.wpos, l.chunk, l.copied);
  }

  lemma Apart(size: nat, rpos: nat, n: nat, k: nat, i: nat)
    requires rpos < size && n + k < size && i < n
    ensures Ahead(size, rpos, i) < size
    ensures Ahead(size, rpos, i) != Ahead(size, Ahead(size, rpos, n), k)
  {
  }

  /** A whole chunk copied byte by byte is stored. */
  lemma ChunkStored(cache: seq<Byte>, live: nat, wpos: nat, l: Loader, queue: seq<Byte>)
    requires wpos < |cache| && CopyStands(cache, live, wpos, l, queue) && l.copied == |l.chunk|
    ensures cache == Written(cache, wpos, l.chunk)
  {
    forall i | 0 <= i < |cache|
      ensures cache[i] == Written(cache, wpos, l.chunk)[i]
    {
      AheadSteps(|cache|, wpos, i);
    }
  }

  lemma PublishAppends(s: State)
    requires Inv(s) && Enabled(s, Publish)
    ensures Live(Apply(s, Publish)) == Live(s) + s.loader.chunk
  {
    ChunkStored(s.cache, |Live(s)|, s.wpos, s.loader, s.queue);
    Appended(s.cache, s.wpos, s.rpos, s.loader.chunk);
  }

  lemma PublishKeeps(s: State)
    requires Inv(s) && Enabled(s, Publish)
    ensures Inv(Apply(s, Publish))
  {
    var s', chunk := Apply(s, Publish), s.loader.chunk;
    PublishAppends(s);
    Regroup(s.eaten, Live(s), chunk, s.queue[|chunk|..]);
    assert s.queue == chunk + s.queue[|chunk|..];
    ReaderKeeps(s, s');
  }

  lemma Regroup<T>(a: seq<T>, b: seq<T>, c: seq<T>, d: seq<T>)
    ensures a + (b + c) + d == a + b + (c + d)
    ensures (a + b) + c + d == a + (b + c) + d
  {
  }

  /** The reader's view holds as long as the live bytes only grow at their end. */
  lemma ReaderKeeps(s: State, s': State)
    requires Formed(s) && Formed(s') && ReaderStands(s)
    requires s'.reader == s.reader && s'.rpos == s.rpos && |s'.cache| == |s.cache| && Live(s) <= Live(s')
    ensures ReaderStands(s')
  {
    if s.reader.Reading? {
      var k := |s.reader.got|;
      assert Live(s')[..k] == Live(s)[..k];
    }
  }

  lemma CommitTakes(s: State, n: nat)
    requires Inv(s) && Enabled(s, Commit(n))
    ensures var s' := Apply(s, Commit(n));
      Formed(s') && Live(s) == s.reader.got[..n] + Live(s')
  {
    Consumed(s.cache, s.wpos, s.rpos, n);
    assert s.reader.got[..n] == Live(s)[..n];
  }

  lemma CommitKeeps(s: State, n: nat)
    requires Inv(s) && Enabled(s, Commit(n))
    ensures Inv(Apply(s, Commit(n)))
  {
    var s' := Apply(s, Commit(n));
    CommitTakes(s, n);
    Regroup(s.eaten, s.reader.got[..n], Live(s'), Waiting(s));
    assert LoaderStands(s') by {
      if s.loader.Copying? {
        assert CopyStands(s.cache, |Live(s)|, s.wpos, s.loader, s.queue);
      }
    }
  }

  lemma ReadByteKeeps(s: State)
    requires Inv(s) && Enabled(s, ReadByte)
    ensures Inv(Apply(s, ReadByte))
  {
    var s', k := Apply(s, ReadByte), |s.reader.got|;
    assert Live(s)[..k + 1] == Live(s)[..k] + [Live(s)[k]];
  }

  lemma EnqueueKeeps(s: State, bytes: seq<Byte>)
    requires Inv(s)
    ensures Inv(Apply(s, Enqueue(bytes)))
  {
    var s' := Apply(s, Enqueue(bytes));
    assert Waiting(s') == Waiting(s) + bytes;
    assert s.eaten + Live(s) + (Waiting(s) + bytes) == (s.eaten + Live(s) + Waiting(s)) + bytes;
  }

  lemma StepKeeps(s: State, e: Event)
    requires Inv(s) && Enabled(s, e)
    ensures Inv(Apply(s, e))
  {
    match e
    case Enqueue(bytes) => EnqueueKeeps(s, bytes);
    case ReadPositions =>
    case Peek(n) =>
    case CopyByte => CopyKeepsLive(s);
    case Publish => PublishKeeps(s);
    case Dequeue =>
    case ReadWpos =>
    case ReadByte => ReadByteKeeps(s);
    case Commit(n) => CommitKeeps(s, n);
    case Leave =>
  }

  lemma {:induction false} RunKeeps(s: State, trace: seq<Event>)
    requires Inv(s) && Possible(s, trace)
    ensures Inv(Run(s, trace))
    decreases |trace|
  {
    if trace != [] {
      StepKeeps(s, trace[0]);
      RunKeeps(Apply(s, trace[0]), trace[1..]);
    }
  }

  // ----- What holds in every interleaving -----

  /** Whatever the interleaving: the positions stay in the ring; the bytes consumed are the start
      of the stream; those the coprocessor has read but not yet consumed go on from there; and
      between loads the bytes consumed, in the ring and in the queue are exactly the stream. */
  lemma NothingLost(size: nat, trace: seq<Event>)
    requires size > 0 && Possible(Start(size), trace)
    ensures var s := Run(Start(size), trace);
      && s.wpos < |s.cache| && s.rpos < |s.cache|
      && s.eaten <= s.sent
      && (s.reader.Reading? ==> s.eaten + s.reader.got <= s.sent)
      && (s.loader.Resting? ==> s.eaten + Between(s.cache, s.wpos, s.rpos) + s.queue == s.sent)
  {
    RunKeeps(Start(size), trace);
    var s := Run(Start(size), trace);
    if s.reader.Reading? {
      var k := |s.reader.got|;
      assert s.sent == (s.eaten + Live(s)[..k]) + (Live(s)[k..] + Waiting(s));
    }
  }

  /** Whatever the interleaving, and however old its view of the read position, the main
      processor writes only places that hold no live byte. */
  lemma NeverOverwrites(size: nat, trace: seq<Event>, i: nat)
    requires size > 0 && Possible(Start(size), trace)
    requires var s := Run(Start(size), trace); Formed(s) && Enabled(s, CopyByte) && i < |Live(s)|
    ensures var s := Run(Start(size), trace);
      Ahead(|s.cache|, s.loader.at, s.loader.copied) != Ahead(|s.cache|, s.rpos, i)
  {
    RunKeeps(Start(size), trace);
    var s := Run(Start(size), trace);
    Apart(|s.cache|, s.rpos, |Live(s)|, s.loader.copied, i);
  }

  /** The single copy steps of a load, run to the end, store what the two-span copy stores. */
  lemma {:induction false} CopyStepsStore(s: State, n: nat)
    requires Formed(s) && s.loader.Copying? && n == |s.loader.chunk| - s.loader.copied
    ensures Possible(s, seq(n, _ => CopyByte))
    ensures var s' := Run(s, seq(n, _ => CopyByte)); var k := s.loader.copied;
      && s'.loader == s.loader.(copied := |s.loader.chunk|)
      && s'.cache == Written(s.cache, UpdatePos(|s.cache|, s.loader.at, k), s.loader.chunk[k..])
    decreases n
  {
    var l, size := s.loader, |s.cache|;
    var at := UpdatePos(size, l.at, l.copied);
    if n == 0 {
      assert s.cache == Written(s.cache, at, []);
    } else {
      var s1 := Apply(s, CopyByte);
      assert seq(n, _ => CopyByte)[1..] == seq(n - 1, _ => CopyByte);
      CopyStepsStore(s1, n - 1);
      AheadTwice(size, l.at, l.copied, 1);
      OneStored(s.cache, at, l.chunk[l.copied]);
      WrittenTwice(s.cache, at, [l.chunk[l.copied]], l.chunk[l.copied + 1..]);
      assert [l.chunk[l.copied]] + l.chunk[l.copied + 1..] == l.chunk[l.copied..];
    }
  }

  lemma OneStored(cache: seq<Byte>, at: nat, b: Byte)
    requires at < |cache|
    ensures cache[at := b] == Written(cache, at, [b])
  {
  }
}
