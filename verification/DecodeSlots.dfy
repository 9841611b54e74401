/** The three output slots that the coprocessor fills and the main processor plays (a2dpplay.cpp):
    every interleaving of their single steps. */
module DecodeSlots {
  const SLOTS := 3

  type Samples = seq<int>

  datatype St = Idle | Working | Done | Failed

  datatype Slot = Slot(st: St, len: nat)

  /** Where the coprocessor is. Decoding: how full the slot was when this pass began, and what the
      pass has produced. Added: the length is updated. Marked: the state is set, the index is not
      moved yet. */
  datatype Cp = Away | Decoding(prior: nat, got: Samples) | Added(prior: nat, got: Samples, retry: bool) | Marked

  /** Where the main processor is in one call: copying a slot it found playable, or about to look
      at the slot's state a second time, with what it copied, if anything. */
  datatype Mcu = Outside | Copying(out: Samples) | Leaving(got: Played)

  datatype Played = Nothing | Got(out: Samples)

  /** How a slot was finished: which one, fully or not, how full it was when the last pass began, and
      what that pass produced. */
  datatype Finish = Finish(slot: nat, done: bool, prior: nat, sound: Samples)

  /** Which slot was released, and what was played of it. */
  datatype Release = Release(slot: nat, got: Played)

  /** finished and released list what happened, in order; spoiled are the numbers of those finishes
      into whose slot a pass wrote before it was released. */
  datatype State = State(loop: nat, slots: seq<Slot>, cache: Samples, cpIdx: nat, mcuIdx: nat, cp: Cp, mcu: Mcu,
    finished: seq<Finish>, released: seq<Release>, spoiled: set<nat>)

  datatype Event =
    | CpBegin | CpProduce(chunk: Samples) | CpEnd(retry: bool) | CpMark | CpLeave | CpAdvance
    | McuLook | McuCopy | McuCopied | McuExit

  function At(i: nat, k: nat): nat {
    if i + k >= SLOTS then i + k - SLOTS else i + k
  }

  function Base(loop: nat, i: nat): nat {
    if i == 0 then 0 else if i == 1 then loop else loop + loop
  }

  /** The slots lie one after the other; what lies past the last one is part of the memory too. */
  predicate Formed(s: State) {
    && s.loop > 0 && |s.slots| == SLOTS && s.cpIdx < SLOTS && s.mcuIdx < SLOTS
    && |s.cache| == 4 * s.loop
    && (s.cp.Decoding? ==> s.cp.prior < s.loop && |s.cp.got| <= s.loop)
    && (s.mcu.Copying? ==> |s.mcu.out| <= s.loop)
  }

  predicate Enabled(s: State, e: Event)
    requires Formed(s)
  {
    match e
    case CpBegin => s.cp.Away?
    case CpProduce(chunk) => s.cp.Decoding? && |s.cp.got| + |chunk| <= s.loop
    case CpEnd(retry) => s.cp.Decoding? && (retry ==> |s.cp.got| < s.loop)
    case CpMark => s.cp.Added? && !s.cp.retry
    case CpLeave => s.cp.Added? && s.cp.retry
    case CpAdvance => s.cp.Marked?
    case McuLook => s.mcu.Outside?
    case McuCopy => s.mcu.Copying? && |s.mcu.out| < s.loop
    case McuCopied => s.mcu.Copying? && |s.mcu.out| == s.loop
    case McuExit => s.mcu.Leaving?
  }

  /** The coprocessor takes an idle slot, or goes on with the one it left; a slot it left full is
      started over. */
  function Begin(s: State): State
    requires Formed(s)
  {
    var slot := s.slots[s.cpIdx];
    if slot.st == Idle then
      s.(slots := s.slots[s.cpIdx := Slot(Working, 0)], cp := Decoding(0, []))
    else if slot.st == Working then
      var prior := if slot.len < s.loop then slot.len else 0;
      s.(slots := s.slots[s.cpIdx := Slot(Working, prior)], cp := Decoding(prior, []))
    else s
  }

  function Store(cache: Samples, at: nat, chunk: Samples): (r: Samples)
    requires at + |chunk| <= |cache|
    ensures |r| == |cache|
  {
    cache[..at] + chunk + cache[at + |chunk|..]
  }

  function Exit(s: State): State
    requires Formed(s) && s.mcu.Leaving?
  {
    var st := s.slots[s.mcuIdx].st;
    if st == Done || st == Failed then
      s.(slots := s.slots[s.mcuIdx := s.slots[s.mcuIdx].(st := Idle)], mcuIdx := At(s.mcuIdx, 1), mcu := Outside,
        released := s.released + [Release(s.mcuIdx, s.mcu.got)])
    else s.(mcu := Outside)
  }

  /** Whether producing chunk goes past the end of the slot: a pass that resumed it may. */
  predicate Overruns(s: State, chunk: Samples) {
    s.cp.Decoding? && s.cp.prior + |s.cp.got| + |chunk| > s.loop
  }

  /** The finish, if any, that waits in the next slot of the memory when a pass runs into it. */
  function Hit(s: State, chunk: Samples): set<nat> {
    if Overruns(s, chunk) then
      set k: nat | k < SLOTS && |s.released| + k < |s.finished| && At(s.mcuIdx, k) == s.cpIdx + 1 :: |s.released| + k
    else {}
  }

  function Apply(s: State, e: Event): (s': State)
    requires Formed(s) && Enabled(s, e)
  {
    match e
    case CpBegin => Begin(s)
    case CpProduce(chunk) =>
      s.(cache := Store(s.cache, Base(s.loop, s.cpIdx) + s.cp.prior + |s.cp.got|, chunk), cp := Decoding(s.cp.prior, s.cp.got + chunk),
        spoiled := s.spoiled + Hit(s, chunk))
    case CpEnd(retry) =>
      var slot := s.slots[s.cpIdx];
      s.(slots := s.slots[s.cpIdx := slot.(len := slot.len + |s.cp.got|)], cp := Added(s.cp.prior, s.cp.got, retry))
    case CpMark =>
      var done := |s.cp.got| == s.loop;
      s.(slots := s.slots[s.cpIdx := s.slots[s.cpIdx].(st := if done then Done else Failed)], cp := Marked,
        finished := s.finished + [Finish(s.cpIdx, done, s.cp.prior, s.cp.got)])
    case CpLeave => s.(cp := Away)
    case CpAdvance => s.(cpIdx := At(s.cpIdx, 1), cp := Away)
    case McuLook =>
      var slot := s.slots[s.mcuIdx];
      s.(mcu := if slot.st == Done && slot.len == s.loop then Copying([]) else Leaving(Nothing))
    case McuCopy => s.(mcu := Copying(s.mcu.out + [s.cache[Base(s.loop, s.mcuIdx) + |s.mcu.out|]]))
    case McuCopied => s.(mcu := Leaving(Got(s.mcu.out)))
    case McuExit => Exit(s)
  }

  /** The main processor starts at slot first; that slot and those after it count as done. */
  function Start(loop: nat, cache: Samples, first: nat): State
    requires loop > 0 && |cache| == 4 * loop && first < SLOTS
  {
    State(loop, seq(SLOTS, i => if i < first then Slot(Idle, 0) else Slot(Done, loop)), cache, 0, first, Away, Outside,
      seq(SLOTS - first, i requires 0 <= i < SLOTS - first =>
        Finish(first + i, true, 0, cache[Base(loop, first + i)..Base(loop, first + i) + loop])),
      [], {})
  }

  predicate Possible(s: State, trace: seq<Event>)
    decreases |trace|
  {
    trace == [] || (Formed(s) && Enabled(s, trace[0]) && Possible(Apply(s, trace[0]), trace[1..]))
  }

  function Run(s: State, trace: seq<Event>): State
    requires Possible(s, trace)
    decreases |trace|
  {
    if trace == [] then s else Run(Apply(s, trace[0]), trace[1..])
  }

  // ----- The invariant -----

  /** How many slots are finished and not yet released. */
  function Pending(s: State): int {
    |s.finished| - |s.released|
  }

  function Region(s: State, i: nat): Samples
    requires Formed(s) && i < SLOTS
  {
    s.cache[Base(s.loop, i)..Base(s.loop, i) + s.loop]
  }

  /** Slot k places after the main processor's holds the finish that is due k releases from now. */
  predicate Holds(s: State, k: nat)
    requires Formed(s) && k < Pending(s) <= SLOTS
  {
    var slot, f := s.slots[At(s.mcuIdx, k)], s.finished[|s.released| + k];
    && slot.st == (if f.done then Done else Failed)
    && (f.done ==> slot.len == f.prior + s.loop && |f.sound| == s.loop)
    && f.slot == At(s.mcuIdx, k)
    && (f.done && f.prior == 0 && |s.released| + k !in s.spoiled ==> Region(s, At(s.mcuIdx, k)) == f.sound)
  }

  /** From the main processor's slot on, the pending ones are finished, in order; the others are
      idle, but the coprocessor's own may be in work. */
  predicate Ordered(s: State)
    requires Formed(s)
  {
    && 0 <= Pending(s) <= SLOTS
    && (forall k :: 0 <= k < Pending(s) ==> Holds(s, k))
    && (forall k :: Pending(s) <= k < SLOTS ==>
      s.slots[At(s.mcuIdx, k)].st == Idle || (s.slots[At(s.mcuIdx, k)].st == Working && k == Pending(s)))
  }

  predicate CpStands(s: State)
    requires Formed(s) && Ordered(s)
  {
    match s.cp
    case Away => s.cpIdx == At(s.mcuIdx, Pending(s))
    case Decoding(prior, got) =>
      && s.cpIdx == At(s.mcuIdx, Pending(s)) && Pending(s) < SLOTS
      && s.slots[s.cpIdx] == Slot(Working, prior)
      && s.cache[Base(s.loop, s.cpIdx) + prior..Base(s.loop, s.cpIdx) + prior + |got|] == got
    case Added(prior, got, retry) =>
      && s.cpIdx == At(s.mcuIdx, Pending(s)) && Pending(s) < SLOTS
      && prior < s.loop && |got| <= s.loop
      && s.slots[s.cpIdx] == Slot(Working, prior + |got|)
      && s.cache[Base(s.loop, s.cpIdx) + prior..Base(s.loop, s.cpIdx) + prior + |got|] == got
    case Marked => At(s.cpIdx, 1) == At(s.mcuIdx, Pending(s)) && forall i :: 0 <= i < SLOTS ==> s.slots[i].st != Working
  }

  /** What the main processor copies is a playable slot's sound. */
  predicate McuStands(s: State)
    requires Formed(s) && 0 <= Pending(s)
  {
    match s.mcu
    case Outside => true
    case Copying(out) => Playable(s) && (|s.released| !in s.spoiled ==> out <= s.finished[|s.released|].sound)
    case Leaving(Nothing) => true
    case Leaving(Got(out)) => Playable(s) && (|s.released| !in s.spoiled ==> out == s.finished[|s.released|].sound)
  }

  predicate Playable(s: State) {
    |s.finished| > |s.released| && s.finished[|s.released|].done && s.finished[|s.released|].prior == 0
  }

  /** Releases go with finishes one to one and slot by slot, and what was played is what was finished. */
  predicate Log(s: State) {
    && |s.released| <= |s.finished|
    && (forall i :: i in s.spoiled ==> i < |s.finished|)
    && forall i :: 0 <= i < |s.released| ==> Matches(s.released[i], s.finished[i], i in s.spoiled)
  }

  predicate Matches(r: Release, f: Finish, spoiled: bool) {
    && r.slot == f.slot
    && (r.got.Got? ==> f.done && f.prior == 0 && (!spoiled ==> r.got.out == f.sound))
  }

  predicate Inv(s: State) {
    Formed(s) && Ordered(s) && CpStands(s) && McuStands(s) && Log(s)
  }

  // ----- Every step keeps it -----

  lemma OneSlot(i: nat, k: nat, n: nat)
    requires i < SLOTS && k < SLOTS && n <= SLOTS
    ensures At(i, k) < SLOTS && (At(i, k) == At(i, n) <==> k == n || (k == 0 && n == SLOTS))
  {
  }

  lemma StoreAt(cache: Samples, at: nat, chunk: Samples, p: nat)
    requires at + |chunk| <= |cache| && p < |cache|
    ensures Store(cache, at, chunk)[p] == if at <= p < at + |chunk| then chunk[p - at] else cache[p]
  {
    if p >= at + |chunk| {
      assert Store(cache, at, chunk)[p] == cache[at + |chunk|..][p - (at + |chunk|)];
    }
  }

  /** A pass writes its own slot, and the next one in memory only past the end of its own. */
  lemma RegionsApart(cache: Samples, loop: nat, i: nat, j: nat, at: nat, chunk: Samples)
    requires |cache| == 4 * loop && i < SLOTS && j < SLOTS && i != j
    requires Base(loop, i) <= at && at + |chunk| <= Base(loop, i) + 2 * loop
    requires j == i + 1 ==> at + |chunk| <= Base(loop, i) + loop
    ensures Store(cache, at, chunk)[Base(loop, j)..Base(loop, j) + loop] == cache[Base(loop, j)..Base(loop, j) + loop]
  {
    var b := Base(loop, j);
    forall k | b <= k < b + loop
      ensures Store(cache, at, chunk)[k] == cache[k]
    {
      StoreAt(cache, at, chunk, k);
    }
  }

  /** Storing after what is there. */
  lemma StoreGrows(cache: Samples, base: nat, got: Samples, chunk: Samples)
    requires base + |got| + |chunk| <= |cache| && cache[base..base + |got|] == got
    ensures Store(cache, base + |got|, chunk)[base..base + |got + chunk|] == got + chunk
  {
    var r := Store(cache, base + |got|, chunk);
    assert r[base..base + |got|] == cache[base..base + |got|];
    assert r[base + |got|..base + |got| + |chunk|] == chunk;
    assert r[base..base + |got + chunk|] == r[base..base + |got|] + r[base + |got|..base + |got| + |chunk|];
  }

  predicate SameBooks(s: State, s': State) {
    s'.mcuIdx == s.mcuIdx && s'.finished == s.finished && s'.released == s.released && s'.loop == s.loop
  }

  /** A step that changes no slot but the coprocessor's own one in work keeps the order. */
  lemma OrderedStill(s: State, s': State)
    requires Formed(s) && Formed(s') && Ordered(s) && SameBooks(s, s')
    requires forall i :: 0 <= i < SLOTS && i != s.cpIdx ==> s'.slots[i] == s.slots[i]
    requires s'.slots[s.cpIdx] == s.slots[s.cpIdx]
      || (Pending(s) < SLOTS && At(s.mcuIdx, Pending(s)) == s.cpIdx && s'.slots[s.cpIdx].st == Working)
    requires s.spoiled <= s'.spoiled
    requires forall k :: 0 <= k < Pending(s) && |s.released| + k !in s'.spoiled ==>
      Region(s', At(s.mcuIdx, k)) == Region(s, At(s.mcuIdx, k))
    ensures Ordered(s')
  {
    forall k | 0 <= k < SLOTS
      ensures k < Pending(s') ==> Holds(s', k)
      ensures k >= Pending(s') ==>
        s'.slots[At(s'.mcuIdx, k)].st == Idle || (s'.slots[At(s'.mcuIdx, k)].st == Working && k == Pending(s'))
    {
      if Pending(s) < SLOTS {
        OneSlot(s.mcuIdx, k, Pending(s));
      }
      assert k < Pending(s) ==> Holds(s, k);
    }
  }

  lemma BeginKeeps(s: State)
    requires Inv(s) && s.cp.Away?
    ensures Inv(Begin(s))
  {
    var s' := Begin(s);
    if s' != s {
      FreeSlot(s);
      OrderedStill(s, s');
      PlayStands(s, s');
    }
  }

  lemma FreeSlot(s: State)
    requires Formed(s) && Ordered(s) && s.cpIdx == At(s.mcuIdx, Pending(s)) && s.slots[s.cpIdx].st in {Idle, Working}
    ensures Pending(s) < SLOTS
  {
    assert Pending(s) == SLOTS ==> Holds(s, 0);
  }

  /** What the main processor is doing goes on as long as the books stay the same. */
  lemma PlayStands(s: State, s': State)
    requires Formed(s) && Formed(s') && 0 <= Pending(s) && McuStands(s) && Log(s)
    requires SameBooks(s, s') && s'.mcu == s.mcu && s.spoiled <= s'.spoiled
    requires forall i :: i in s'.spoiled ==> i < |s.finished|
    ensures McuStands(s') && Log(s')
  {
  }

  lemma ProduceKeeps(s: State, chunk: Samples)
    requires Inv(s) && Enabled(s, CpProduce(chunk))
    ensures Inv(Apply(s, CpProduce(chunk)))
  {
    var s' := Apply(s, CpProduce(chunk));
    StoreGrows(s.cache, Base(s.loop, s.cpIdx) + s.cp.prior, s.cp.got, chunk);
    forall k | 0 <= k < Pending(s) && |s.released| + k !in s'.spoiled
      ensures Region(s', At(s.mcuIdx, k)) == Region(s, At(s.mcuIdx, k))
    {
      PendingStays(s, chunk, k);
    }
    OrderedStill(s, s');
    PlayStands(s, s');
  }

  /** A pass that stays inside its slot writes no other one. */
  lemma OthersStay(s: State, chunk: Samples, j: nat)
    requires Formed(s) && Enabled(s, CpProduce(chunk)) && !Overruns(s, chunk) && j < SLOTS && j != s.cpIdx
    ensures Formed(Apply(s, CpProduce(chunk))) && Region(Apply(s, CpProduce(chunk)), j) == Region(s, j)
  {
    SlotStays(s, chunk, j);
  }

  /** A pending slot keeps its content, unless it is the one hit. */
  lemma PendingStays(s: State, chunk: Samples, k: nat)
    requires Inv(s) && Enabled(s, CpProduce(chunk)) && k < Pending(s) && |s.released| + k !in Hit(s, chunk)
    ensures Formed(Apply(s, CpProduce(chunk))) && At(s.mcuIdx, k) < SLOTS
    ensures Region(Apply(s, CpProduce(chunk)), At(s.mcuIdx, k)) == Region(s, At(s.mcuIdx, k))
  {
    NotHit(s, chunk, k);
    SlotStays(s, chunk, At(s.mcuIdx, k));
  }

  lemma NotHit(s: State, chunk: Samples, k: nat)
    requires Formed(s) && Ordered(s) && CpStands(s) && s.cp.Decoding?
    requires k < Pending(s) && |s.released| + k !in Hit(s, chunk)
    ensures At(s.mcuIdx, k) < SLOTS && At(s.mcuIdx, k) != s.cpIdx
    ensures At(s.mcuIdx, k) == s.cpIdx + 1 ==> !Overruns(s, chunk)
  {
    OneSlot(s.mcuIdx, k, Pending(s));
  }

  lemma SlotStays(s: State, chunk: Samples, j: nat)
    requires Formed(s) && Enabled(s, CpProduce(chunk)) && j < SLOTS && j != s.cpIdx
    requires j == s.cpIdx + 1 ==> !Overruns(s, chunk)
    ensures Formed(Apply(s, CpProduce(chunk))) && Region(Apply(s, CpProduce(chunk)), j) == Region(s, j)
  {
    var at := Base(s.loop, s.cpIdx) + s.cp.prior + |s.cp.got|;
    assert Apply(s, CpProduce(chunk)).cache == Store(s.cache, at, chunk);
    RegionsApart(s.cache, s.loop, s.cpIdx, j, at, chunk);
  }

  /** What a pass that runs past its slot does to the next: exactly the part of the chunk past the end
      replaces the first samples there. */
  lemma OverrunWrites(s: State, chunk: Samples, k: nat)
    requires Formed(s) && Enabled(s, CpProduce(chunk)) && s.cpIdx + 1 < SLOTS && k < s.loop
    ensures Formed(Apply(s, CpProduce(chunk)))
    ensures var off := s.cp.prior + |s.cp.got|; var r := Region(Apply(s, CpProduce(chunk)), s.cpIdx + 1);
      r[k] == if off <= s.loop + k < off + |chunk| then chunk[s.loop + k - off] else Region(s, s.cpIdx + 1)[k]
  {
    StoreAt(s.cache, Base(s.loop, s.cpIdx) + s.cp.prior + |s.cp.got|, chunk, Base(s.loop, s.cpIdx + 1) + k);
  }

  lemma EndKeeps(s: State, retry: bool)
    requires Inv(s) && Enabled(s, CpEnd(retry))
    ensures Inv(Apply(s, CpEnd(retry)))
  {
    OrderedStill(s, Apply(s, CpEnd(retry)));
    PlayStands(s, Apply(s, CpEnd(retry)));
  }

  lemma MarkOrdered(s: State)
    requires Inv(s) && Enabled(s, CpMark)
    ensures Ordered(Apply(s, CpMark))
    ensures forall k :: 0 <= k < SLOTS ==> Apply(s, CpMark).slots[At(s.mcuIdx, k)].st != Working
  {
    var s', n := Apply(s, CpMark), Pending(s);
    forall k | 0 <= k < SLOTS
      ensures k < n + 1 ==> Holds(s', k)
      ensures k > n ==> s'.slots[At(s.mcuIdx, k)].st == Idle
    {
      OneSlot(s.mcuIdx, k, n);
      assert k < n ==> Holds(s, k);
    }
  }

  lemma MarkKeeps(s: State)
    requires Inv(s) && Enabled(s, CpMark)
    ensures Inv(Apply(s, CpMark))
  {
    var s' := Apply(s, CpMark);
    MarkOrdered(s);
    forall i | 0 <= i < SLOTS
      ensures s'.slots[i].st != Working
    {
      Reached(s.mcuIdx, i);
    }
  }

  lemma Reached(m: nat, i: nat)
    requires m < SLOTS && i < SLOTS
    ensures var k := if i >= m then i - m else SLOTS - m + i; k < SLOTS && At(m, k) == i
  {
  }

  lemma AdvanceKeeps(s: State)
    requires Inv(s) && s.cp.Marked?
    ensures Inv(Apply(s, CpAdvance))
  {
    OrderedStill(s, Apply(s, CpAdvance));
    PlayStands(s, Apply(s, CpAdvance));
  }

  /** The next slot due is the main processor's own. */
  lemma NextDue(s: State)
    requires Formed(s) && Ordered(s)
    ensures Pending(s) > 0 ==> Holds(s, 0) && At(s.mcuIdx, 0) == s.mcuIdx
    ensures Pending(s) == 0 ==> s.slots[s.mcuIdx].st in {Idle, Working}
  {
    assert At(s.mcuIdx, 0) == s.mcuIdx;
  }

  /** Only the main processor's own position changes. */
  lemma McuOnly(s: State, mcu: Mcu)
    requires Inv(s) && (mcu.Copying? ==> |mcu.out| <= s.loop)
    ensures var s' := s.(mcu := mcu); Formed(s') && Ordered(s') && CpStands(s') && Log(s')
  {
    OrderedStill(s, s.(mcu := mcu));
  }

  lemma LookKeeps(s: State)
    requires Inv(s) && s.mcu.Outside?
    ensures Inv(Apply(s, McuLook))
  {
    NextDue(s);
    McuOnly(s, Apply(s, McuLook).mcu);
  }

  lemma CopyKeeps(s: State)
    requires Inv(s) && Enabled(s, McuCopy)
    ensures Inv(Apply(s, McuCopy))
  {
    NextDue(s);
    McuOnly(s, Apply(s, McuCopy).mcu);
    if |s.released| !in s.spoiled {
      OneMoreCopied(s.cache, Base(s.loop, s.mcuIdx), s.loop, s.finished[|s.released|].sound, s.mcu.out);
    }
  }

  lemma OneMoreCopied(cache: Samples, base: nat, n: nat, sound: Samples, out: Samples)
    requires base + n <= |cache| && sound == cache[base..base + n] && out <= sound && |out| < n
    ensures out + [cache[base + |out|]] <= sound
  {
    assert sound[..|out| + 1] == out + [sound[|out|]];
  }

  lemma CopiedKeeps(s: State)
    requires Inv(s) && Enabled(s, McuCopied)
    ensures Inv(Apply(s, McuCopied))
  {
    NextDue(s);
    McuOnly(s, Apply(s, McuCopied).mcu);
  }

  lemma ExitOrdered(s: State)
    requires Inv(s) && s.mcu.Leaving? && s.slots[s.mcuIdx].st in {Done, Failed}
    ensures Ordered(Exit(s)) && Pending(Exit(s)) == Pending(s) - 1 >= 0
    ensures At(Exit(s).mcuIdx, Pending(s) - 1) == At(s.mcuIdx, Pending(s))
  {
    var s' := Exit(s);
    NextDue(s);
    forall k | 0 <= k < SLOTS
      ensures k < Pending(s') ==> Holds(s', k)
      ensures k >= Pending(s') ==>
        s'.slots[At(s'.mcuIdx, k)].st == Idle || (s'.slots[At(s'.mcuIdx, k)].st == Working && k == Pending(s'))
    {
      NextPlace(s.mcuIdx, k);
      assert k + 1 < Pending(s) ==> Holds(s, k + 1);
    }
    NextPlace(s.mcuIdx, Pending(s) - 1);
  }

  lemma NextPlace(m: nat, k: nat)
    requires m < SLOTS && k < SLOTS
    ensures At(At(m, 1), k) == At(m, k + 1) < SLOTS
    ensures At(m, k + 1) == m <==> k == SLOTS - 1
  {
  }

  lemma ExitKeeps(s: State)
    requires Inv(s) && s.mcu.Leaving?
    ensures Inv(Exit(s))
  {
    if s.slots[s.mcuIdx].st in {Done, Failed} {
      ExitOrdered(s);
      NextDue(s);
      ExitLogs(s);
      ExitCp(s);
    } else {
      ExitEmpty(s);
    }
  }

  lemma ExitEmpty(s: State)
    requires Inv(s) && s.mcu.Leaving? && s.slots[s.mcuIdx].st !in {Done, Failed}
    ensures Inv(Exit(s))
  {
    OrderedStill(s, Exit(s));
  }

  lemma ExitCp(s: State)
    requires Inv(s) && s.mcu.Leaving? && s.slots[s.mcuIdx].st in {Done, Failed}
    requires Ordered(Exit(s)) && At(Exit(s).mcuIdx, Pending(s) - 1) == At(s.mcuIdx, Pending(s))
    ensures CpStands(Exit(s))
  {
    var s' := Exit(s);
    assert s'.cp == s.cp && s'.cache == s.cache && s'.cpIdx == s.cpIdx;
    if s.cp.Decoding? || s.cp.Added? {
      assert s.cpIdx != s.mcuIdx;
    }
  }

  lemma ExitLogs(s: State)
    requires Formed(s) && Log(s) && 0 < Pending(s) && s.mcu.Leaving? && McuStands(s)
    requires s.slots[s.mcuIdx].st in {Done, Failed} && s.finished[|s.released|].slot == s.mcuIdx
    ensures Log(Exit(s))
  {
    var s', n := Exit(s), |s.released|;
    forall i | 0 <= i < |s'.released|
      ensures Matches(s'.released[i], s'.finished[i], i in s'.spoiled)
    {
      if i < n {
        assert Matches(s.released[i], s.finished[i], i in s.spoiled);
      }
    }
  }

  lemma StepKeeps(s: State, e: Event)
    requires Inv(s) && Enabled(s, e)
    ensures Inv(Apply(s, e))
  {
    match e
    case CpBegin => BeginKeeps(s);
    case CpProduce(chunk) => ProduceKeeps(s, chunk);
    case CpEnd(retry) => EndKeeps(s, retry);
    case CpMark => MarkKeeps(s);
    case CpLeave => LeaveKeeps(s);
    case CpAdvance => AdvanceKeeps(s);
    case McuLook => LookKeeps(s);
    case McuCopy => CopyKeeps(s);
    case McuCopied => CopiedKeeps(s);
    case McuExit => ExitKeeps(s);
  }

  lemma LeaveKeeps(s: State)
    requires Inv(s) && Enabled(s, CpLeave)
    ensures Inv(Apply(s, CpLeave))
  {
    OrderedStill(s, Apply(s, CpLeave));
    PlayStands(s, Apply(s, CpLeave));
  }

  lemma StartStands(loop: nat, cache: Samples, first: nat)
    requires loop > 0 && |cache| == 4 * loop && first < SLOTS
    ensures Inv(Start(loop, cache, first))
  {
    var s := Start(loop, cache, first);
    forall k | 0 <= k < SLOTS
      ensures k < Pending(s) ==> Holds(s, k)
      ensures k >= Pending(s) ==> s.slots[At(s.mcuIdx, k)].st == Idle
    {
      if k < Pending(s) {
        StartHolds(loop, cache, first, k);
      }
    }
  }

  lemma StartHolds(loop: nat, cache: Samples, first: nat, k: nat)
    requires loop > 0 && |cache| == 4 * loop && first + k < SLOTS
    ensures var s := Start(loop, cache, first); Formed(s) && Pending(s) == SLOTS - first && Holds(s, k)
  {
    var s, i := Start(loop, cache, first), first + k;
    assert At(first, k) == i && s.slots[i] == Slot(Done, loop);
    var sound := cache[Base(loop, i)..Base(loop, i) + loop];
    assert s.finished[k] == Finish(i, true, 0, sound) && |sound| == loop;
  }

  lemma {:induction false} RunKeeps(s: State, trace: seq<Event>)
    requires Inv(s) && Possible(s, trace)
    ensures Inv(Run(s, trace))
    decreases |trace|
  {
    if trace != [] {
      StepKeeps(s, trace[0]);
      RunKeeps(Apply(s, trace[0]), trace[1..]);
    }
  }

  // ----- What holds in every interleaving -----

  /** Slots are released in exactly the order in which they were finished (the ones done from the
      start first), each once: the i-th release is of the i-th finish's slot. Only a slot finished in
      full by a pass that began with it empty is ever played, and what is played is what that pass
      decoded, unless a later pass that had resumed the slot before it in memory ran past its end
      and into this one. */
  lemma ReleasedInOrder(loop: nat, cache: Samples, first: nat, trace: seq<Event>)
    requires loop > 0 && |cache| == 4 * loop && first < SLOTS && Possible(Start(loop, cache, first), trace)
    ensures var s := Run(Start(loop, cache, first), trace);
      && |s.released| <= |s.finished| <= |s.released| + SLOTS
      && (forall i :: 0 <= i < |s.released| ==> s.released[i].slot == s.finished[i].slot)
      && forall i :: 0 <= i < |s.released| && s.released[i].got.Got? ==>
        && s.finished[i].done && s.finished[i].prior == 0
        && (i !in s.spoiled ==> s.released[i].got.out == s.finished[i].sound)
  {
    StartStands(loop, cache, first);
    RunKeeps(Start(loop, cache, first), trace);
    var s := Run(Start(loop, cache, first), trace);
    assert forall i :: 0 <= i < |s.released| ==> Matches(s.released[i], s.finished[i], i in s.spoiled);
  }

  /** In every reachable state, from the main processor's slot up to the coprocessor's the slots are
      finished, and all others are idle, but the coprocessor's own may be in work. */
  lemma SlotsInOrder(loop: nat, cache: Samples, first: nat, trace: seq<Event>)
    requires loop > 0 && |cache| == 4 * loop && first < SLOTS && Possible(Start(loop, cache, first), trace)
    ensures var s := Run(Start(loop, cache, first), trace);
      && |s.slots| == SLOTS && s.mcuIdx < SLOTS && 0 <= Pending(s) <= SLOTS
      && (!s.cp.Marked? ==> s.cpIdx == At(s.mcuIdx, Pending(s)))
      && (forall k :: 0 <= k < Pending(s) ==> s.slots[At(s.mcuIdx, k)].st in {Done, Failed})
      && (forall k :: Pending(s) <= k < SLOTS ==> s.slots[At(s.mcuIdx, k)].st in {Idle, Working})
      && (forall k :: Pending(s) < k < SLOTS ==> s.slots[At(s.mcuIdx, k)].st == Idle)
  {
    StartStands(loop, cache, first);
    RunKeeps(Start(loop, cache, first), trace);
    var s := Run(Start(loop, cache, first), trace);
    forall k | 0 <= k < Pending(s)
      ensures s.slots[At(s.mcuIdx, k)].st in {Done, Failed}
    {
      assert Holds(s, k);
    }
  }

  /** A look finds the slot playable exactly when the next finish due was a full one whose last pass
      began with the slot empty. */
  lemma PlayedWhen(s: State)
    requires Inv(s) && s.mcu.Outside?
    ensures Apply(s, McuLook).mcu.Copying? <==> Playable(s)
  {
    NextDue(s);
  }

  /** The state is read twice: a slot that becomes done between a look and the exit after it is
      released without being played. */
  lemma DroppedInBetween(s: State)
    requires Inv(s) && s.mcu.Outside? && s.cp.Added? && !s.cp.retry && Pending(s) == 0
    ensures var s3 := Apply(Apply(Apply(s, McuLook), CpMark), McuExit);
      && s3.finished == s.finished + [Finish(s.cpIdx, |s.cp.got| == s.loop, s.cp.prior, s.cp.got)]
      && s3.released == s.released + [Release(s.mcuIdx, Nothing)]
  {
    assert At(s.mcuIdx, 0) == s.mcuIdx;
  }

  lemma Cons(s: State, e: Event, rest: seq<Event>)
    requires Formed(s) && Enabled(s, e) && Possible(Apply(s, e), rest)
    ensures Possible(s, [e] + rest) && Run(s, [e] + rest) == Run(Apply(s, e), rest)
  {
    assert ([e] + rest)[1..] == rest;
  }

  /** The start with slot 2 done, and the state after that slot is played. */
  function Played1(cache: Samples): State
    requires |cache| == 4
  {
    State(1, [Slot(Idle, 0), Slot(Idle, 0), Slot(Idle, 1)], cache, 0, 0, Away, Outside,
      [Finish(2, true, 0, cache[2..3])], [Release(2, Got([cache[2]]))], {})
  }

  lemma EmptyPlus(x: int)
    ensures var none: Samples := []; none + [x] == [x]
  {
  }

  lemma PlayFirst(cache: Samples, rest: seq<Event>) returns (trace: seq<Event>)
    requires |cache| == 4 && Possible(Played1(cache), rest)
    ensures Possible(Start(1, cache, 2), trace) && Run(Start(1, cache, 2), trace) == Run(Played1(cache), rest)
  {
    var s0 := Start(1, cache, 2);
    var s1 := Apply(s0, McuLook);
    assert s1 == s0.(mcu := Copying([]));
    EmptyPlus(cache[2]);
    var s2 := Apply(s1, McuCopy);
    assert s2 == s0.(mcu := Copying([cache[2]]));
    var s3 := Apply(s2, McuCopied);
    assert Exit(s3) == Played1(cache);
    Cons(s3, McuExit, rest);
    Cons(s2, McuCopied, [McuExit] + rest);
    Cons(s1, McuCopy, [McuCopied] + ([McuExit] + rest));
    Cons(s0, McuLook, [McuCopy] + ([McuCopied] + ([McuExit] + rest)));
    trace := [McuLook] + ([McuCopy] + ([McuCopied] + ([McuExit] + rest)));
  }

  lemma DropNext(s: State) returns (trace: seq<Event>)
    requires Formed(s) && s.loop == 1 && s.spoiled == {} && s.cp.Away? && s.mcu.Outside? && s.cpIdx == s.mcuIdx == 0
    requires s.slots[0].st == Idle
    ensures Possible(s, trace)
    ensures var s' := Run(s, trace);
      s'.spoiled == {} && s'.finished == s.finished + [Finish(0, true, 0, [7])] && s'.released == s.released + [Release(0, Nothing)]
  {
    EmptyPlus(7);
    var s1 := Apply(s, CpBegin);
    var s2 := Apply(s1, CpProduce([7]));
    assert s2.cp == Decoding(0, [7]);
    var s3 := Apply(s2, CpEnd(false));
    var s4 := Apply(s3, McuLook);
    assert s4.mcu == Leaving(Nothing);
    var s5 := Apply(s4, CpMark);
    Cons(s5, McuExit, []);
    Cons(s4, CpMark, [McuExit]);
    Cons(s3, McuLook, [CpMark] + [McuExit]);
    Cons(s2, CpEnd(false), [McuLook] + ([CpMark] + [McuExit]));
    Cons(s1, CpProduce([7]), [CpEnd(false)] + ([McuLook] + ([CpMark] + [McuExit])));
    trace := [CpProduce([7])] + ([CpEnd(false)] + ([McuLook] + ([CpMark] + [McuExit])));
    Cons(s, CpBegin, trace);
    trace := [CpBegin] + trace;
  }

  /** That does happen: a run in which the coprocessor finishes a slot in full and in one pass, and
      the main processor releases it without playing it. */
  lemma DroppedRun(cache: Samples) returns (trace: seq<Event>)
    requires |cache| == 4
    ensures Possible(Start(1, cache, 2), trace)
    ensures var s := Run(Start(1, cache, 2), trace);
      && s.spoiled == {} && |s.released| == |s.finished| == 2
      && s.finished[1] == Finish(0, true, 0, [7]) && s.released[1] == Release(0, Nothing)
  {
    trace := DropNext(Played1(cache));
    trace := PlayFirst(cache, trace);
  }

  // ----- A pass that runs past its slot -----

  /** Slots 1 and 2 done from the start; slot 0 resumed, its pass run one sample into slot 1. */
  function Overrun(c: Samples): State
    requires |c| == 8
  {
    State(2, [Slot(Working, 1), Slot(Done, 2), Slot(Done, 2)], [7, 8, 9] + c[3..], 0, 1, Decoding(1, [8, 9]), Outside,
      [Finish(1, true, 0, c[2..4]), Finish(2, true, 0, c[4..6])], [], {0})
  }

  lemma RunsOver(c: Samples, rest: seq<Event>) returns (trace: seq<Event>)
    requires |c| == 8 && Possible(Overrun(c), rest)
    ensures Possible(Start(2, c, 1), trace) && Run(Start(2, c, 1), trace) == Run(Overrun(c), rest)
  {
    var s0 := Start(2, c, 1);
    EmptyPlus(7);
    var s1 := Apply(s0, CpBegin);
    var s2 := Apply(s1, CpProduce([7]));
    assert s2.cp == Decoding(0, [7]) && s2.cache == [7] + c[1..];
    var s3 := Apply(s2, CpEnd(true));
    var s4 := Apply(s3, CpLeave);
    var s5 := Apply(s4, CpBegin);
    ReachesOverrun(c, s5);
    Cons(s5, CpProduce([8, 9]), rest);
    Cons(s4, CpBegin, [CpProduce([8, 9])] + rest);
    Cons(s3, CpLeave, [CpBegin] + ([CpProduce([8, 9])] + rest));
    trace := [CpLeave] + ([CpBegin] + ([CpProduce([8, 9])] + rest));
    Cons(s2, CpEnd(true), trace);
    Cons(s1, CpProduce([7]), [CpEnd(true)] + trace);
    Cons(s0, CpBegin, [CpProduce([7])] + ([CpEnd(true)] + trace));
    trace := [CpBegin] + ([CpProduce([7])] + ([CpEnd(true)] + trace));
  }

  lemma ReachesOverrun(c: Samples, s: State)
    requires |c| == 8
    requires s == Start(2, c, 1).(slots := [Slot(Working, 1), Slot(Done, 2), Slot(Done, 2)], cache := [7] + c[1..], cp := Decoding(1, []))
    ensures Formed(s) && Apply(s, CpProduce([8, 9])) == Overrun(c)
  {
    var s' := Apply(s, CpProduce([8, 9]));
    var none: Samples := [];
    assert none + [8, 9] == [8, 9];
    assert s'.cache == [7, 8, 9] + c[3..];
    assert Base(2, 1) == 2 && Base(2, 2) == 4 && |s.finished| == 2;
    assert s.finished[0] == Finish(1, true, 0, c[2..4]) && s.finished[1] == Finish(2, true, 0, c[4..6]);
    assert s.finished == [Finish(1, true, 0, c[2..4]), Finish(2, true, 0, c[4..6])];
    assert Hit(s, [8, 9]) == {0} by {
      assert At(1, 0) == 1 && At(1, 1) == 2 && At(1, 2) == 0;
      assert 0 in Hit(s, [8, 9]);
    }
  }

  /** The state after slot 1 is played from there. */
  function Misplayed(c: Samples): State
    requires |c| == 8
  {
    Overrun(c).(slots := [Slot(Working, 1), Slot(Idle, 2), Slot(Done, 2)], mcuIdx := 2, released := [Release(1, Got([9, c[3]]))])
  }

  lemma PlaysSpoiled(c: Samples) returns (trace: seq<Event>)
    requires |c| == 8
    ensures Possible(Overrun(c), trace) && Run(Overrun(c), trace) == Misplayed(c)
  {
    var s0 := Overrun(c);
    var s1 := Apply(s0, McuLook);
    assert s1 == s0.(mcu := Copying([]));
    EmptyPlus(9);
    var s2 := Apply(s1, McuCopy);
    assert s2 == s0.(mcu := Copying([9]));
    var s3 := Apply(s2, McuCopy);
    var nine: Samples := [9];
    assert s0.cache[3] == c[3] && nine + [c[3]] == [9, c[3]];
    assert s3 == s0.(mcu := Copying([9, c[3]]));
    var s4 := Apply(s3, McuCopied);
    assert s4 == s0.(mcu := Leaving(Got([9, c[3]])));
    assert Exit(s4) == Misplayed(c);
    Cons(s4, McuExit, []);
    Cons(s3, McuCopied, [McuExit]);
    Cons(s2, McuCopy, [McuCopied] + [McuExit]);
    Cons(s1, McuCopy, [McuCopy] + ([McuCopied] + [McuExit]));
    Cons(s0, McuLook, [McuCopy] + ([McuCopy] + ([McuCopied] + [McuExit])));
    trace := [McuLook] + ([McuCopy] + ([McuCopy] + ([McuCopied] + [McuExit])));
  }

  /** It happens: slot 1, done from the start, is played with the sample that a resumed pass in slot 0
      wrote past its end in place of its own first one. */
  lemma SpoiledRun(c: Samples) returns (trace: seq<Event>)
    requires |c| == 8
    ensures Possible(Start(2, c, 1), trace)
    ensures var s := Run(Start(2, c, 1), trace);
      && |s.finished| == 2 && s.finished[0] == Finish(1, true, 0, [c[2], c[3]])
      && s.released == [Release(1, Got([9, c[3]]))] && s.spoiled == {0}
  {
    trace := PlaysSpoiled(c);
    trace := RunsOver(c, trace);
    assert c[2..4] == [c[2], c[3]];
  }
}
