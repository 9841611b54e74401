/** The downlink reframer of voicebtpcmplay_sco_dma_snapshot.cpp: it finds the synchronization
    header in the received bytes, cuts them into frames, and keeps sixty bytes between calls. */
module MsbcDownlink {
  import opened Bytes
  import opened PacketLoss
  import opened PacketRuns
  import MsbcUplink

  const ALL := 3 * PKT_SIZE + 1
  const MOST := 2 * PKT_SIZE

  type Buffer = b: seq<Byte> | |b| == ALL witness seq(ALL, _ => 0)

  /** The buffer and the byte that lies just past it in memory: with the stream at offset one and
      a drift of one, the last frame of a call ends there. */
  type View = v: seq<Byte> | |v| == ALL + 1 witness seq(ALL + 1, _ => 0)

  type Input = s: seq<Byte> | |s| <= MOST

  // ----- What one call looks for -----

  predicate SyncAt(v: seq<Byte>, i: nat)
    requires i + 2 < |v|
  {
    v[i] == 0x01 && v[i + 1] % 16 == 0x08 && v[i + 2] == 0xad
  }

  predicate MuteAt(v: View, i: nat, pattern: Byte)
    requires i + 2 < |v|
  {
    v[i] == pattern && v[i + 1] % 16 == pattern % 16 && v[i + 2] == pattern
  }

  /** The first place in [i..len) that shows a header, or len. */
  function FirstSync(v: View, i: nat, len: nat): (r: nat)
    requires i <= len <= MOST
    ensures i <= r <= len && (r < len ==> SyncAt(v, r))
    ensures forall k :: i <= k < r ==> !SyncAt(v, k)
    decreases len - i
  {
    if i == len || SyncAt(v, i) then i else FirstSync(v, i + 1, len)
  }

  datatype Lock = Lock(locked: bool, offset: Index)

  /** Where the first frame of a call is cut: offsets zero and one are cut one frame later. */
  function Low(offset: Index): nat {
    if offset <= 1 then offset + PKT_SIZE else offset
  }

  /** It is the one place on the frame boundary from the third byte on and before the sixty-third. */
  lemma LowIs(offset: Index, at: nat)
    ensures at == Low(offset) <==> 2 <= at < PKT_SIZE + 2 && at % PKT_SIZE == offset
  {
  }

  /** The lock after looking for a header, and the place it was found at in this call. */
  function Acquired(k: Lock, v: View, len: nat): (Lock, nat)
    requires len <= MOST
  {
    if k.locked then (k, 0) else
    var i := FirstSync(v, 0, len);
    if i < len then (Lock(true, i % PKT_SIZE), i) else (k, 0)
  }

  predicate NearAt(v: View, at: nat)
    requires 1 <= at && at + 3 < |v|
  {
    SyncAt(v, at - 1) || SyncAt(v, at) || SyncAt(v, at + 1)
  }

  function DriftAt(v: View, at: nat): (d: int)
    requires 1 <= at && at + 3 < |v|
    ensures -1 <= d <= 1
  {
    if SyncAt(v, at - 1) then -1 else if SyncAt(v, at) then 0 else if SyncAt(v, at + 1) then 1 else 0
  }

  /** A boundary that makes the lock drop: no header within a byte of it, no mute pattern, and not
      before the place where this call found its first header. */
  predicate LostAt(v: View, at: nat, total: nat, pattern: Byte)
    requires 1 <= at && at + 3 < |v|
  {
    !NearAt(v, at) && !MuteAt(v, at, pattern) && at >= total
  }

  /** What a call decides before it cuts frames: the lock it leaves, and where each frame starts. */
  datatype Plan = Plan(lock: Lock, starts: seq<nat>)

  /** Where frame j of a call should start. */
  function Boundary(offset: Index, j: nat): (at: nat)
    requires j < 2
    ensures 1 <= at && at + PKT_SIZE <= ALL
  {
    Low(offset) + PKT_SIZE * j
  }

  function Starts(v: View, offset: Index, n: nat): (s: seq<nat>)
    requires n <= 2
    ensures |s| == n && forall j :: 0 <= j < n ==> s[j] == Boundary(offset, j) + DriftAt(v, Boundary(offset, j))
  {
    seq(n, j requires 0 <= j < n => Boundary(offset, j) + DriftAt(v, Boundary(offset, j)))
  }

  predicate AnyLost(v: View, offset: Index, n: nat, total: nat, pattern: Byte)
    requires n <= 2
  {
    exists j | 0 <= j < n :: LostAt(v, Boundary(offset, j), total, pattern)
  }

  function Unlocked(n: nat): (s: seq<nat>)
    ensures |s| == n && forall j :: 0 <= j < n ==> s[j] == PKT_SIZE * j
  {
    seq(n, j requires 0 <= j < n => PKT_SIZE * j)
  }

  function PlanOf(k: Lock, v: View, len: nat, pattern: Byte): (p: Plan)
    requires len <= MOST
    ensures |p.starts| == len / PKT_SIZE
    ensures forall j :: 0 <= j < |p.starts| ==> p.starts[j] + PKT_SIZE <= |v|
  {
    var n := len / PKT_SIZE;
    var (a, total) := Acquired(k, v, len);
    if !a.locked then Plan(a, Unlocked(n))
    else Plan(Lock(!AnyLost(v, a.offset, n, total, pattern), a.offset), Starts(v, a.offset, n))
  }

  function Cuts(v: View, starts: seq<nat>, count: nat): (fs: seq<Packet>)
    requires count <= |starts| && forall j :: 0 <= j < |starts| ==> starts[j] + PKT_SIZE <= |v|
    ensures |fs| == count && forall j :: 0 <= j < count ==> fs[j] == v[starts[j]..starts[j] + PKT_SIZE]
  {
    seq(count, j requires 0 <= j < count => v[starts[j]..starts[j] + PKT_SIZE])
  }

  /** How far the locked stream is from where this chip expects it. */
  function IndexOf(k: Lock, expected: nat): (index: Index)
    requires expected <= 1
    ensures if k.locked then (expected + index) % PKT_SIZE == k.offset else index == 0
  {
    if k.locked then (k.offset - expected + PKT_SIZE) % PKT_SIZE else 0
  }

  function InspectAll(fs: seq<Packet>, pattern: Byte, index: Index): (run: seq<Facts>)
    ensures |run| == |fs| && forall j :: 0 <= j < |fs| ==> run[j] == Inspect(fs[j], pattern, index)
  {
    seq(|fs|, j requires 0 <= j < |fs| => Inspect(fs[j], pattern, index))
  }

  function Stored(buf: Buffer, input: Input): (r: Buffer)
  {
    buf[..PKT_SIZE] + input + buf[PKT_SIZE + |input|..]
  }

  function Kept(buf: Buffer, len: nat): (r: Buffer)
    requires len <= MOST
  {
    buf[len..len + PKT_SIZE] + buf[PKT_SIZE..]
  }

  /** The build's constants: mute pattern and expected offset. */
  datatype Chip = Chip(pattern: Byte, expected: nat)

  // ----- The reframer as the source runs it -----

  class Downlink {
    const bufAll: array<Byte>
    var findFirstSync: bool
    var offset: Index
    const pld: Detector

    ghost predicate Valid()
      reads this, pld, pld.lastPkt
    {
      bufAll.Length == ALL && pld.Valid() && bufAll != pld.lastPkt
    }

    ghost function Books(): (b: Book)
      requires Valid()
      reads this, pld, pld.lastPkt, pld.hist
      ensures |b.hist| == 10
    {
      Book(pld.Remembered(), pld.hist[..])
    }

    ghost function State(): Lock
      reads this
    {
      Lock(findFirstSync, offset)
    }

    constructor (pattern: Byte)
      ensures Valid() && fresh(bufAll) && fresh(pld) && fresh(pld.lastPkt) && fresh(pld.hist)
      ensures bufAll[..] == seq(ALL, _ => pattern) && State() == Lock(false, 0) && pld.Remembered() == Fresh()
    {
      bufAll := new Byte[ALL](_ => pattern);
      findFirstSync, offset := false, 0;
      pld := new Detector();
    }

    method Store(input: Input)
      requires Valid()
      modifies bufAll
      ensures bufAll[..] == Stored(old(bufAll[..]), input)
    {
      for i := 0 to |input|
        invariant bufAll[..PKT_SIZE] == old(bufAll[..PKT_SIZE])
        invariant bufAll[PKT_SIZE..PKT_SIZE + i] == input[..i]
        invariant forall k :: PKT_SIZE + i <= k < ALL ==> bufAll[k] == old(bufAll[k])
      {
        bufAll[i + PKT_SIZE] := input[i];
      }
    }

    method Keep(len: nat)
      requires Valid() && len <= MOST
      modifies bufAll
      ensures bufAll[..] == Kept(old(bufAll[..]), len)
    {
      for i := 0 to PKT_SIZE
        invariant bufAll[..i] == old(bufAll[len..len + i])
        invariant bufAll[i..] == old(bufAll[i..])
      {
        assert bufAll[i..][len] == bufAll[i + len] && old(bufAll[i..])[len] == old(bufAll[i + len]);
        bufAll[i] := bufAll[i + len];
      }
    }

    method FindSync(len: nat, ghost v: View) returns (i: nat)
      requires Valid() && len <= MOST && bufAll[..] == v[..ALL]
      ensures i == FirstSync(v, 0, len)
    {
      i := 0;
      while i < len
        invariant i <= len && FirstSync(v, i, len) == FirstSync(v, 0, len)
      {
        assert forall k :: 0 <= k < ALL ==> bufAll[k] == bufAll[..][k] == v[k];
        if bufAll[i] == 0x01 && bufAll[i + 1] % 16 == 0x08 && bufAll[i + 2] == 0xad {
          return;
        }
        i := i + 1;
      }
    }

    /** The flag and the drift of one frame. */
    method LookAt(at: nat, total: nat, pattern: Byte, ghost v: View) returns (flag: nat, drift: int)
      requires Valid() && 1 <= at && at + 3 < ALL && bufAll[..] == v[..ALL]
      ensures drift == DriftAt(v, at) && (flag > 1 <==> LostAt(v, at, total, pattern))
    {
      assert forall k :: 0 <= k < ALL ==> bufAll[k] == bufAll[..][k] == v[k];
      var headerm1, header0, header1 := bufAll[at - 1], bufAll[at], bufAll[at + 1];
      var header2, header3 := bufAll[at + 2], bufAll[at + 3];
      if headerm1 == 0x01 && header0 % 16 == 0x08 && header1 == 0xad {
        return 0, -1;
      } else if header0 == 0x01 && header1 % 16 == 0x08 && header2 == 0xad {
        return 0, 0;
      } else if header1 == 0x01 && header2 % 16 == 0x08 && header3 == 0xad {
        return 0, 1;
      } else if header0 == pattern && header1 % 16 == pattern % 16 && header2 == pattern {
        return 1, 0;
      } else if at >= total {
        return 3, 0;
      } else {
        return 1, 0;
      }
    }

    /** Looking for the lock, if there is none. */
    method Acquire(len: nat, ghost v: View) returns (total: nat)
      requires Valid() && len <= MOST && bufAll[..] == v[..ALL]
      modifies this`findFirstSync, this`offset
      ensures Acquired(old(State()), v, len) == (State(), total)
    {
      total := 0;
      if !findFirstSync {
        var i := FindSync(len, v);
        if i < len {
          findFirstSync, offset, total := true, i % PKT_SIZE, i;
        }
      }
    }

    /** Where each frame starts while locked, and whether the lock holds. */
    method Check(n: nat, total: nat, pattern: Byte, ghost v: View) returns (starts: seq<nat>, lost: bool)
      requires Valid() && n <= 2 && bufAll[..] == v[..ALL]
      ensures starts == Starts(v, offset, n) && lost == AnyLost(v, offset, n, total, pattern)
    {
      starts, lost := [], false;
      for j := 0 to n
        invariant starts == Starts(v, offset, j)
        invariant lost == AnyLost(v, offset, j, total, pattern)
      {
        var at := (if offset == 0 || offset == 1 then offset + PKT_SIZE else offset) + PKT_SIZE * j;
        assert at == Boundary(offset, j);
        var flag, drift := LookAt(at, total, pattern, v);
        starts := starts + [at + drift];
        lost := lost || flag > 1;
      }
    }

    /** Finding or checking the lock, and where each frame of the call starts. */
    method Decide(len: nat, pattern: Byte, ghost v: View) returns (starts: seq<nat>)
      requires Valid() && len <= MOST && bufAll[..] == v[..ALL]
      modifies this`findFirstSync, this`offset
      ensures PlanOf(old(State()), v, len, pattern) == Plan(State(), starts)
    {
      var n := len / PKT_SIZE;
      var total := Acquire(len, v);
      if !findFirstSync {
        starts := Unlocked(n);
      } else {
        var lost;
        starts, lost := Check(n, total, pattern, v);
        findFirstSync := !lost;
      }
    }

    method CutFrame(start: nat, beyond: Byte) returns (frame: Packet)
      requires Valid() && start + PKT_SIZE <= ALL + 1
      ensures frame == (bufAll[..] + [beyond])[start..start + PKT_SIZE]
    {
      var dec := new Byte[PKT_SIZE];
      for i := 0 to PKT_SIZE
        invariant dec[..i] == (bufAll[..] + [beyond])[start..start + i]
      {
        dec[i] := if start + i < ALL then bufAll[start + i] else beyond;
      }
      frame := dec[..];
    }

    /** One frame, and the codec's verdict on it. */
    method ClassifyOne(frame: Packet, pattern: Byte, index: Index, codecFails: bool) returns (t: PlcType)
      requires Valid()
      modifies pld, pld.lastPkt, pld.hist
      ensures Valid()
      ensures Books() == old(BookOne(Books(), Inspect(frame, pattern, index), codecFails))
      ensures t == old(OutcomeOf(pld.Remembered(), Inspect(frame, pattern, index)))
    {
      t := pld.Process(frame, pattern, index);
      if t == Pass && codecFails {
        pld.UpdateHistogram(DecoderError);
      }
    }

    /** Cutting and classifying the frames of one call. */
    method Classify(starts: seq<nat>, count: nat, beyond: Byte, pattern: Byte, index: Index, codecFails: seq<bool>)
        returns (frames: seq<Packet>, types: seq<PlcType>)
      requires Valid() && count <= |starts| && |codecFails| == count
      requires forall j :: 0 <= j < |starts| ==> starts[j] + PKT_SIZE <= ALL + 1
      modifies pld, pld.lastPkt, pld.hist
      ensures Valid() && bufAll[..] == old(bufAll[..])
      ensures frames == Cuts(bufAll[..] + [beyond], starts, count)
      ensures Classified(old(Books()), InspectAll(frames, pattern, index), codecFails, types, Books())
    {
      ghost var b := Books();
      frames, types := [], [];
      for j := 0 to count
        invariant Valid() && bufAll[..] == old(bufAll[..])
        invariant frames == Cuts(bufAll[..] + [beyond], starts, j)
        invariant Classified(b, InspectAll(frames, pattern, index), codecFails[..j], types, Books())
      {
        var frame := CutFrame(starts[j], beyond);
        OneMore(b, frames, frame, pattern, index, codecFails, j, types, Books());
        var t := ClassifyOne(frame, pattern, index, codecFails[j]);
        frames, types := frames + [frame], types + [t];
      }
      assert codecFails[..count] == codecFails;
    }

    /** One call. */
    method Process(input: Input, pcmLen: nat, chip: Chip, beyond: Byte, codecFails: seq<bool>)
        returns (frames: seq<Packet>, types: seq<PlcType>)
      requires Valid() && chip.expected <= 1
      requires |codecFails| == MsbcUplink.FrameCount(|input|, pcmLen)
      modifies this`findFirstSync, this`offset, bufAll, pld, pld.lastPkt, pld.hist
      ensures Valid()
      ensures var plan := old(PlanOf(State(), Stored(bufAll[..], input) + [beyond], |input|, chip.pattern));
        State() == plan.lock && frames == Cuts(Stored(old(bufAll[..]), input) + [beyond], plan.starts, |codecFails|)
      ensures Classified(old(Books()), InspectAll(frames, chip.pattern, IndexOf(State(), chip.expected)), codecFails, types, Books())
      ensures bufAll[..] == Kept(Stored(old(bufAll[..]), input), |input|)
    {
      ghost var b := Books();
      Store(input);
      ghost var v := bufAll[..] + [beyond];
      var starts := Decide(|input|, chip.pattern, v);
      assert Books() == b;
      var index := if findFirstSync then (offset - chip.expected + PKT_SIZE) % PKT_SIZE else 0;
      assert index == IndexOf(State(), chip.expected);
      frames, types := Classify(starts, MsbcUplink.FrameCount(|input|, pcmLen), beyond, chip.pattern, index, codecFails);
      ghost var b' := Books();
      Keep(|input|);
      assert Books() == b';
    }
  }

  /** The detector's memory and its histogram. */
  datatype Book = Book(m: Memory, hist: seq<int>)

  ghost function BookOne(b: Book, f: Facts, codecFails: bool): Book
    requires |b.hist| == 10
  {
    Book(Advance(b.m, f), Booked(b.hist, Verdict(OutcomeOf(b.m, f), codecFails)))
  }

  /** Classifying run took the books from b to b' and gave types. */
  ghost predicate Classified(b: Book, run: seq<Facts>, codecFails: seq<bool>, types: seq<PlcType>, b': Book)
    requires |b.hist| == 10
  {
    && |codecFails| == |run|
    && types == Outcomes(b.m, run)
    && b' == Book(After(b.m, run), HistAfter(b.hist, Verdicts(b.m, run, codecFails)))
  }

  lemma ClassifiedOneMore(b: Book, run: seq<Facts>, f: Facts, fails: seq<bool>, fail: bool, types: seq<PlcType>, b': Book)
    requires |b.hist| == 10 && Classified(b, run, fails, types, b')
    ensures Classified(b, run + [f], fails + [fail], types + [OutcomeOf(b'.m, f)], BookOne(b', f, fail))
  {
    RunOneMore(b.m, run, f);
    var v := Verdict(OutcomeOf(b'.m, f), fail);
    assert Verdicts(b.m, run + [f], fails + [fail]) == Verdicts(b.m, run, fails) + [v];
    HistOneMore(b.hist, Verdicts(b.m, run, fails), v);
  }

  lemma OneMore(b: Book, frames: seq<Packet>, frame: Packet, pattern: Byte, index: Index, fails: seq<bool>, j: nat,
      types: seq<PlcType>, b': Book)
    requires j < |fails| && |b.hist| == 10
    requires Classified(b, InspectAll(frames, pattern, index), fails[..j], types, b')
    ensures Classified(b, InspectAll(frames + [frame], pattern, index), fails[..j + 1],
      types + [OutcomeOf(b'.m, Inspect(frame, pattern, index))], BookOne(b', Inspect(frame, pattern, index), fails[j]))
  {
    var run, f := InspectAll(frames, pattern, index), Inspect(frame, pattern, index);
    assert InspectAll(frames + [frame], pattern, index) == run + [f];
    assert fails[..j + 1] == fails[..j] + [fails[j]];
    ClassifiedOneMore(b, run, f, fails[..j], fails[j], types, b');
  }

  lemma {:induction false} RunOneMore(m: Memory, run: seq<Facts>, f: Facts)
    ensures After(m, run + [f]) == Advance(After(m, run), f)
    ensures Outcomes(m, run + [f]) == Outcomes(m, run) + [OutcomeOf(After(m, run), f)]
    decreases |run|
  {
    if run != [] {
      RunOneMore(Advance(m, run[0]), run[1..], f);
      assert (run + [f])[1..] == run[1..] + [f];
    } else {
      assert run + [f] == [f] && [f][1..] == [];
    }
  }

  lemma {:induction false} HistOneMore(h: seq<int>, vs: seq<Verdict>, v: Verdict)
    requires |h| == 10
    ensures HistAfter(h, vs + [v]) == Booked(HistAfter(h, vs), v)
    decreases |vs|
  {
    if vs != [] {
      HistOneMore(Booked(h, vs[0]), vs[1..], v);
      assert (vs + [v])[1..] == vs[1..] + [v];
    } else {
      assert vs + [v] == [v] && [v][1..] == [];
    }
  }
}
