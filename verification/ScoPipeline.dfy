/** The call-audio pipeline over two processors (bt_sco_chain_cp.c): the application processor hands a
    frame over and takes the result of the one before; every interleaving of their single steps. */
module ScoPipelines {
  type Samples = seq<int>

  const PCM_BUF := 512
  const REF_BUF := 256

  /** What the algorithm leaves: its own state, both buffers, and the length of its output. */
  datatype Result<S> = Result(st: S, pcm: Samples, ref: Samples, len: nat)

  /** The algorithm, unknown but for its lengths. */
  type Algo<!S> = (S, Samples, Samples, nat) -> Result<S>

  ghost predicate WellBehaved<S(!new)>(algo: Algo<S>) {
    forall st, pcm, ref, len :: var r := algo(st, pcm, ref, len); |r.pcm| == |pcm| && |r.ref| == |ref| && r.len <= |pcm|
  }

  datatype Ref = NoRef | Ref(samples: Samples)

  /** One call's input: the frame and, possibly, its reference. */
  datatype Frame = Frame(pcm: Samples, ref: Ref)

  predicate Fits(f: Frame) {
    |f.pcm| <= PCM_BUF && (f.ref.Ref? ==> |f.ref.samples| <= REF_BUF)
  }

  function Over(buf: Samples, s: Samples): (r: Samples)
    requires |s| <= |buf|
    ensures |r| == |buf| && r[..|s|] == s
  {
    s + buf[|s|..]
  }

  // ----- One frame after the other -----

  /** What the algorithm works on and remembers. */
  datatype Mem<S> = Mem(st: S, pcm: Samples, ref: Samples)

  predicate Sized<S>(m: Mem<S>) {
    |m.pcm| == PCM_BUF && |m.ref| == REF_BUF
  }

  /** The frame put into the buffers; without a reference the old one stays. */
  function Loaded<S>(m: Mem<S>, f: Frame): (r: Mem<S>)
    requires Sized(m) && Fits(f)
    ensures Sized(r)
  {
    Mem(m.st, Over(m.pcm, f.pcm), if f.ref.Ref? then Over(m.ref, f.ref.samples) else m.ref)
  }

  ghost function Worked<S(!new)>(algo: Algo<S>, m: Mem<S>, len: nat): (r: (Mem<S>, Samples))
    requires Sized(m) && WellBehaved(algo)
    ensures Sized(r.0) && |r.1| <= PCM_BUF
  {
    var r := algo(m.st, m.pcm, m.ref, len);
    (Mem(r.st, r.pcm, r.ref), r.pcm[..r.len])
  }

  /** The memory after some frames. */
  ghost function MemAfter<S(!new)>(algo: Algo<S>, m: Mem<S>, fs: seq<Frame>): (r: Mem<S>)
    requires Sized(m) && WellBehaved(algo) && forall i :: 0 <= i < |fs| ==> Fits(fs[i])
    ensures Sized(r)
  {
    if fs == [] then m else
    Worked(algo, Loaded(MemAfter(algo, m, fs[..|fs| - 1]), fs[|fs| - 1]), |fs[|fs| - 1].pcm|).0
  }

  /** What the algorithm gives for the last of some frames. */
  ghost function Output<S(!new)>(algo: Algo<S>, m: Mem<S>, fs: seq<Frame>): Samples
    requires Sized(m) && WellBehaved(algo) && forall i :: 0 <= i < |fs| ==> Fits(fs[i])
    requires fs != []
  {
    Worked(algo, Loaded(MemAfter(algo, m, fs[..|fs| - 1]), fs[|fs| - 1]), |fs[|fs| - 1].pcm|).1
  }

  // ----- Both processors, step by step -----

  /** The application processor: outside a call; waiting for the other to be idle; after the copy
      in; after the copy out; after counting; after handing over. */
  datatype Ap =
    | Outside | Waiting(f: Frame) | Entered(f: Frame) | Stored(f: Frame) | Fetched(result: Samples)
    | Counted(result: Samples) | Handed(result: Samples)

  datatype Cp = Asleep | Awake | Ran | Copied | CpCounted

  datatype State<S> = State(working: bool, event: bool, mem: Mem<S>, out: Samples, pcmLen: nat,
    requireCnt: nat, runCnt: nat, ap: Ap, cp: Cp, accepted: seq<Frame>, returned: seq<Samples>)

  datatype Event = Call(f: Frame) | Poll | Store | Fetch | Count | Hand | Send | Wake | Work | CopyOut | CountRun | Rest

  predicate Formed<S>(s: State<S>) {
    && Sized(s.mem) && |s.out| == PCM_BUF && s.pcmLen <= PCM_BUF
    && (s.ap.Waiting? || s.ap.Entered? || s.ap.Stored? ==> Fits(s.ap.f))
  }

  predicate Enabled<S>(s: State<S>, e: Event) {
    match e
    case Call(f) => s.ap.Outside? && Fits(f)
    case Poll => s.ap.Waiting? && !s.working
    case Store => s.ap.Entered?
    case Fetch => s.ap.Stored?
    case Count => s.ap.Fetched?
    case Hand => s.ap.Counted?
    case Send => s.ap.Handed?
    case Wake => s.cp == Asleep && s.event
    case Work => s.cp == Awake
    case CopyOut => s.cp == Ran
    case CountRun => s.cp == Copied
    case Rest => s.cp == CpCounted
  }

  ghost function Apply<S(!new)>(algo: Algo<S>, s: State<S>, e: Event): State<S>
    requires WellBehaved(algo) && Formed(s) && Enabled(s, e)
  {
    match e
    case Call(f) => s.(ap := Waiting(f))
    case Poll => s.(ap := Entered(s.ap.f))
    case Store => s.(mem := Loaded(s.mem, s.ap.f), ap := Stored(s.ap.f), accepted := s.accepted + [s.ap.f])
    case Fetch => s.(ap := Fetched(s.out[..s.pcmLen]), pcmLen := |s.ap.f.pcm|)
    case Count => s.(ap := Counted(s.ap.result), requireCnt := s.requireCnt + 1)
    case Hand => s.(ap := Handed(s.ap.result), working := true)
    case Send => s.(ap := Outside, event := true, returned := s.returned + [s.ap.result])
    case Wake => s.(cp := Awake, event := false)
    case Work =>
      var (m, o) := Worked(algo, s.mem, s.pcmLen);
      s.(cp := Ran, mem := m, pcmLen := |o|)
    case CopyOut => s.(cp := Copied, out := Over(s.out, s.mem.pcm[..s.pcmLen]))
    case CountRun => s.(cp := CpCounted, runCnt := s.runCnt + 1)
    case Rest => s.(cp := Asleep, working := false)
  }

  function Zeros(n: nat): (z: Samples)
    ensures |z| == n
  {
    seq(n, _ => 0)
  }

  /** sco_cp_init, with the algorithm's memory as it stands then. */
  function Start<S>(m: Mem<S>, frameLen: nat): State<S> {
    State(false, false, m, Zeros(PCM_BUF), frameLen, 0, 0, Outside, Asleep, [], [])
  }

  ghost predicate Possible<S(!new)>(algo: Algo<S>, s: State<S>, trace: seq<Event>)
    requires WellBehaved(algo)
    decreases |trace|
  {
    trace == [] || (Formed(s) && Enabled(s, trace[0]) && Possible(algo, Apply(algo, s, trace[0]), trace[1..]))
  }

  ghost function Run<S(!new)>(algo: Algo<S>, s: State<S>, trace: seq<Event>): State<S>
    requires WellBehaved(algo) && Possible(algo, s, trace)
    decreases |trace|
  {
    if trace == [] then s else Run(algo, Apply(algo, s, trace[0]), trace[1..])
  }

  // ----- The invariant -----

  /** Where the pipeline is between two frames: nothing under way; a frame being handed over, before
      and after it is stored, and after the result was taken; a frame handed over; the algorithm
      through; its output copied. */
  predicate ApHolds<S>(s: State<S>) { s.ap.Entered? || s.ap.Stored? || s.ap.Fetched? || s.ap.Counted? }

  /** The processors take turns: the application processor is at the buffers only while the other
      sleeps in the idle state, and the other only in the working state. */
  predicate Turns<S>(s: State<S>) {
    && (ApHolds(s) ==> !s.working && s.cp == Asleep && !s.event)
    && (s.cp != Asleep ==> s.working && !s.event && !s.ap.Handed?)
    && (s.ap.Handed? ==> s.working && s.cp == Asleep && !s.event)
    && (s.event ==> s.working && s.cp == Asleep)
    && (s.working ==> s.ap.Handed? || s.event || s.cp != Asleep)
  }

  predicate AllFit(fs: seq<Frame>) {
    forall i :: 0 <= i < |fs| ==> Fits(fs[i])
  }

  /** The number of frames the algorithm has been through. */
  function Through<S>(s: State<S>): int {
    if s.ap.Stored? || s.ap.Fetched? || s.ap.Counted? || (s.working && s.cp in {Asleep, Awake}) then |s.accepted| - 1
    else |s.accepted|
  }

  /** What the output of the first n frames is, the frame before the first giving silence. */
  ghost function Due<S(!new)>(algo: Algo<S>, m: Mem<S>, frameLen: nat, fs: seq<Frame>, n: nat): Samples
    requires Sized(m) && WellBehaved(algo) && AllFit(fs) && n <= |fs|
  {
    if n == 0 then Zeros(frameLen) else Output(algo, m, fs[..n])
  }

  /** The memory follows the sequential run, loaded with the last frame if that is not done yet. */
  ghost predicate MemStands<S(!new)>(algo: Algo<S>, m: Mem<S>, s: State<S>)
    requires Sized(m) && WellBehaved(algo) && AllFit(s.accepted)
  {
    var n := Through(s);
    && 0 <= n <= |s.accepted|
    && s.mem == (if n == |s.accepted| then MemAfter(algo, m, s.accepted)
         else Loaded(MemAfter(algo, m, s.accepted[..n]), s.accepted[n]))
  }

  /** The length is that of the last frame, still to be worked on. */
  predicate LenIsLast<S>(s: State<S>) {
    s.accepted != [] && s.pcmLen == |s.accepted[|s.accepted| - 1].pcm|
  }

  /** The output buffer, or what was taken from it, is the output due. */
  ghost predicate OutStands<S(!new)>(algo: Algo<S>, m: Mem<S>, frameLen: nat, s: State<S>)
    requires Sized(m) && WellBehaved(algo) && AllFit(s.accepted) && 0 <= Through(s) <= |s.accepted| && Formed(s)
  {
    var due := Due(algo, m, frameLen, s.accepted, Through(s));
    if s.ap.Fetched? || s.ap.Counted? || s.ap.Handed? then s.ap.result == due && LenIsLast(s)
    else if s.working && s.cp in {Asleep, Awake} then LenIsLast(s)
    else if s.cp == Ran then s.mem.pcm[..s.pcmLen] == due
    else s.out[..s.pcmLen] == due
  }

  /** Everything returned so far was due one frame late. */
  ghost predicate ReturnsStand<S(!new)>(algo: Algo<S>, m: Mem<S>, frameLen: nat, s: State<S>)
    requires Sized(m) && WellBehaved(algo) && AllFit(s.accepted)
  {
    && |s.returned| == |s.accepted| - (if s.ap.Stored? || s.ap.Fetched? || s.ap.Counted? || s.ap.Handed? then 1 else 0)
    && forall k :: 0 <= k < |s.returned| ==> s.returned[k] == Due(algo, m, frameLen, s.accepted, k)
  }

  predicate StoredLast<S>(s: State<S>) {
    s.ap.Stored? ==> s.accepted != [] && s.accepted[|s.accepted| - 1] == s.ap.f
  }

  predicate CountsStand<S>(s: State<S>) {
    && s.requireCnt == |s.accepted| - (if s.ap.Stored? || s.ap.Fetched? then 1 else 0)
    && s.runCnt == |s.accepted| - (if s.ap.Stored? || s.ap.Fetched? || s.ap.Counted? || (s.working && s.cp != CpCounted) then 1 else 0)
  }

  ghost predicate Inv<S(!new)>(algo: Algo<S>, m: Mem<S>, frameLen: nat, s: State<S>)
    requires Sized(m) && WellBehaved(algo)
  {
    && Formed(s) && Turns(s) && AllFit(s.accepted) && StoredLast(s) && CountsStand(s)
    && MemStands(algo, m, s) && OutStands(algo, m, frameLen, s) && ReturnsStand(algo, m, frameLen, s)
  }

  // ----- Every step keeps it -----

  lemma AfterOneMore<S(!new)>(algo: Algo<S>, m: Mem<S>, frameLen: nat, fs: seq<Frame>, f: Frame)
    requires Sized(m) && WellBehaved(algo) && AllFit(fs) && Fits(f)
    ensures AllFit(fs + [f]) && (fs + [f])[..|fs|] == fs
    ensures forall n: nat :: n <= |fs| ==> Due(algo, m, frameLen, fs + [f], n) == Due(algo, m, frameLen, fs, n)
  {
    forall n: nat | n <= |fs|
      ensures Due(algo, m, frameLen, fs + [f], n) == Due(algo, m, frameLen, fs, n)
    {
      assert (fs + [f])[..n] == fs[..n];
    }
  }

  /** Working on the last frame gives the memory and the output due. */
  lemma WorkedIsDue<S(!new)>(algo: Algo<S>, m: Mem<S>, frameLen: nat, fs: seq<Frame>)
    requires Sized(m) && WellBehaved(algo) && AllFit(fs) && fs != []
    ensures var n := |fs| - 1;
      Worked(algo, Loaded(MemAfter(algo, m, fs[..n]), fs[n]), |fs[n].pcm|)
        == (MemAfter(algo, m, fs), Due(algo, m, frameLen, fs, |fs|))
  {
    assert fs[..|fs|] == fs;
  }

  lemma StoreKeeps<S(!new)>(algo: Algo<S>, m: Mem<S>, frameLen: nat, s: State<S>)
    requires Sized(m) && WellBehaved(algo) && Inv(algo, m, frameLen, s) && s.ap.Entered?
    ensures Inv(algo, m, frameLen, Apply(algo, s, Store))
  {
    AfterOneMore(algo, m, frameLen, s.accepted, s.ap.f);
  }

  lemma WorkKeeps<S(!new)>(algo: Algo<S>, m: Mem<S>, frameLen: nat, s: State<S>)
    requires Sized(m) && WellBehaved(algo) && Inv(algo, m, frameLen, s) && s.cp == Awake
    ensures Inv(algo, m, frameLen, Apply(algo, s, Work))
  {
    WorkedIsDue(algo, m, frameLen, s.accepted);
  }

  lemma ApKeeps<S(!new)>(algo: Algo<S>, m: Mem<S>, frameLen: nat, s: State<S>, e: Event)
    requires Sized(m) && WellBehaved(algo) && Inv(algo, m, frameLen, s) && Enabled(s, e)
    requires e.Call? || e.Poll? || e.Count? || e.Hand?
    ensures Inv(algo, m, frameLen, Apply(algo, s, e))
  {
  }

  lemma FetchKeeps<S(!new)>(algo: Algo<S>, m: Mem<S>, frameLen: nat, s: State<S>)
    requires Sized(m) && WellBehaved(algo) && Inv(algo, m, frameLen, s) && Enabled(s, Fetch)
    ensures Inv(algo, m, frameLen, Apply(algo, s, Fetch))
  {
  }

  lemma SendKeeps<S(!new)>(algo: Algo<S>, m: Mem<S>, frameLen: nat, s: State<S>)
    requires Sized(m) && WellBehaved(algo) && Inv(algo, m, frameLen, s) && Enabled(s, Send)
    ensures Inv(algo, m, frameLen, Apply(algo, s, Send))
  {
    var s' := Apply(algo, s, Send);
    assert MemStands(algo, m, s') && OutStands(algo, m, frameLen, s');
    assert |s.returned| == Through(s);
  }

  lemma CpKeeps<S(!new)>(algo: Algo<S>, m: Mem<S>, frameLen: nat, s: State<S>, e: Event)
    requires Sized(m) && WellBehaved(algo) && Inv(algo, m, frameLen, s) && Enabled(s, e)
    requires e.Wake? || e.CopyOut? || e.CountRun? || e.Rest?
    ensures Inv(algo, m, frameLen, Apply(algo, s, e))
  {
  }

  lemma StepKeeps<S(!new)>(algo: Algo<S>, m: Mem<S>, frameLen: nat, s: State<S>, e: Event)
    requires Sized(m) && WellBehaved(algo) && Inv(algo, m, frameLen, s) && Enabled(s, e)
    ensures Inv(algo, m, frameLen, Apply(algo, s, e))
  {
    if e.Store? {
      StoreKeeps(algo, m, frameLen, s);
    } else if e.Work? {
      WorkKeeps(algo, m, frameLen, s);
    } else if e.Fetch? {
      FetchKeeps(algo, m, frameLen, s);
    } else if e.Send? {
      SendKeeps(algo, m, frameLen, s);
    } else if e.Wake? || e.CopyOut? || e.CountRun? || e.Rest? {
      CpKeeps(algo, m, frameLen, s, e);
    } else {
      ApKeeps(algo, m, frameLen, s, e);
    }
  }

  lemma StartStands<S(!new)>(algo: Algo<S>, m: Mem<S>, frameLen: nat)
    requires Sized(m) && WellBehaved(algo) && frameLen <= PCM_BUF
    ensures Inv(algo, m, frameLen, Start(m, frameLen))
  {
    assert Zeros(PCM_BUF)[..frameLen] == Zeros(frameLen);
  }

  lemma {:induction false} RunKeeps<S(!new)>(algo: Algo<S>, m: Mem<S>, frameLen: nat, s: State<S>, trace: seq<Event>)
    requires Sized(m) && WellBehaved(algo) && Inv(algo, m, frameLen, s) && Possible(algo, s, trace)
    ensures Inv(algo, m, frameLen, Run(algo, s, trace))
    decreases |trace|
  {
    if trace != [] {
      StepKeeps(algo, m, frameLen, s, trace[0]);
      RunKeeps(algo, m, frameLen, Apply(algo, s, trace[0]), trace[1..]);
    }
  }

  // ----- What holds in every interleaving -----

  /** The first call gives silence, and call n + 1 what the algorithm, run on the frames one after
      the other, makes of frame n. */
  lemma OneFrameLate<S(!new)>(algo: Algo<S>, m: Mem<S>, frameLen: nat, trace: seq<Event>, k: nat)
    requires Sized(m) && WellBehaved(algo) && frameLen <= PCM_BUF && Possible(algo, Start(m, frameLen), trace)
    requires k < |Run(algo, Start(m, frameLen), trace).returned|
    ensures var s := Run(algo, Start(m, frameLen), trace);
      && k <= |s.accepted| && AllFit(s.accepted)
      && s.returned[k] == if k == 0 then Zeros(frameLen) else Output(algo, m, s.accepted[..k])
  {
    StartStands(algo, m, frameLen);
    RunKeeps(algo, m, frameLen, Start(m, frameLen), trace);
  }

  /** Never are both processors at the shared buffers; the application processor is there only in the
      idle state and the other only in the working state; and at most one frame is under way. */
  lemma TakeTurns<S(!new)>(algo: Algo<S>, m: Mem<S>, frameLen: nat, trace: seq<Event>)
    requires Sized(m) && WellBehaved(algo) && frameLen <= PCM_BUF && Possible(algo, Start(m, frameLen), trace)
    ensures var s := Run(algo, Start(m, frameLen), trace);
      && (ApHolds(s) ==> !s.working && s.cp == Asleep)
      && (s.cp != Asleep ==> s.working)
      && 0 <= s.requireCnt - s.runCnt <= 1
  {
    StartStands(algo, m, frameLen);
    RunKeeps(algo, m, frameLen, Start(m, frameLen), trace);
  }

  /** What the algorithm is given and what becomes of it: when the coprocessor is about to work, the
      shared buffers begin with the last frame handed over and, if it has one, with its reference; all
      else is as the algorithm left it after the frame before, the reference buffer as a whole if the
      frame has none. What it then leaves is the memory for the next frame, and the first samples of
      what it leaves in the frame buffer are the output due. */
  lemma AlgorithmSees<S(!new)>(algo: Algo<S>, m: Mem<S>, frameLen: nat, trace: seq<Event>)
    requires Sized(m) && WellBehaved(algo) && frameLen <= PCM_BUF && Possible(algo, Start(m, frameLen), trace)
    requires Run(algo, Start(m, frameLen), trace).cp == Awake
    ensures var s := Run(algo, Start(m, frameLen), trace);
      s.accepted != [] && AllFit(s.accepted) && Given(algo, m, s.mem, s.pcmLen, s.accepted)
  {
    StartStands(algo, m, frameLen);
    RunKeeps(algo, m, frameLen, Start(m, frameLen), trace);
    var s := Run(algo, Start(m, frameLen), trace);
    assert s.accepted[..|s.accepted|] == s.accepted;
  }

  /** mem and len are what the algorithm is given for the last of fs. */
  ghost predicate Given<S(!new)>(algo: Algo<S>, m: Mem<S>, mem: Mem<S>, len: nat, fs: seq<Frame>)
    requires Sized(m) && WellBehaved(algo) && AllFit(fs) && fs != []
  {
    var n := |fs| - 1;
    var f, left, r := fs[n], MemAfter(algo, m, fs[..n]), algo(mem.st, mem.pcm, mem.ref, len);
    && Sized(mem) && Fits(f)
    && len == |f.pcm| && mem.pcm[..len] == f.pcm && mem.pcm[len..] == left.pcm[len..] && mem.st == left.st
    && (match f.ref
      case NoRef => mem.ref == left.ref
      case Ref(samples) => mem.ref[..|samples|] == samples && mem.ref[|samples|..] == left.ref[|samples|..])
    && MemAfter(algo, m, fs) == Mem(r.st, r.pcm, r.ref)
    && Output(algo, m, fs) == r.pcm[..r.len]
  }
}
