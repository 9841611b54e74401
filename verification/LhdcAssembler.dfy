/** Reassembly of LHDC packets from numbered fragments (a2dpplay.cpp). */
module LhdcAssembly {
  import opened Bytes
  import Blocks

  const BUFFER := 4096

  /** One received fragment: two header bytes and a payload. */
  datatype Fragment = Fragment(hdr: Byte, seqno: Byte, payload: seq<Byte>) {
    /** A packet in one fragment: none of the three flags (0x80, 0x40 and 0x20) is set. */
    predicate Single() { hdr / 0x20 == 0 }
    predicate Start() { hdr / 0x40 % 2 == 1 }
    predicate Last() { hdr / 0x20 % 2 == 1 }
    function Latency(): Byte { hdr % 4 }
  }

  function Next(n: Byte): Byte {
    if n == 255 then 0 else n + 1
  }

  /** synced, and the number expected; whether a last fragment is awaited; the bytes collected. */
  datatype Asm = Asm(synced: bool, serial: Byte, waitLast: bool, buf: seq<Byte>)

  datatype Out = None | Some(packet: seq<Byte>)

  /** One fragment: the new state, the return code, and the packet it completes. */
  datatype Result = Result(a: Asm, ret: int, out: Out)

  function Reset(a: Asm): Asm {
    Asm(false, a.serial, false, [])
  }

  /** Waiting for a start: a packet in one fragment, the start of one, or neither. */
  function Begin(a: Asm, f: Fragment): Result {
    var serial := if a.synced then a.serial else Next(f.seqno);
    if f.Single() then Result(Asm(true, serial, false, []), 1, Some(f.payload))
    else if f.Start() then
      if |a.buf| + |f.payload| >= BUFFER then Result(Asm(true, serial, false, []), 0, None)
      else Result(Asm(true, serial, true, f.payload), 0, None)
    else Result(a, -1, None)
  }

  /** Waiting for the last: everything in sequence is appended, until the last or an overflow. */
  function Continue(a: Asm, f: Fragment): Result {
    var buf := a.buf + f.payload;
    if |buf| >= BUFFER then Result(a.(waitLast := false, buf := []), -1, None)
    else if f.Last() then Result(a.(waitLast := false, buf := []), 1, Some(buf))
    else Result(a.(buf := buf), 0, None)
  }

  function Assemble(a: Asm, f: Fragment): Result {
    if a.synced && f.seqno != a.serial then
      if f.Single() || f.Start() then Begin(Reset(a), f) else Result(Reset(a), 0, None)
    else
      var b := if a.synced then a.(serial := Next(f.seqno)) else a;
      if b.waitLast then Continue(b, f) else Begin(b, f)
  }

  // ----- The assembler as the source runs it -----

  class Assembler {
    var serialNo: Byte
    var isSynced: bool
    var waitLast: bool
    const packetBuffer: array<Byte>
    var packetBufLen: nat
    var latencyUpdated: Byte

    ghost predicate Valid()
      reads this
    {
      packetBuffer.Length == BUFFER && packetBufLen <= BUFFER && (!waitLast ==> packetBufLen == 0)
    }

    ghost function View(): Asm
      requires Valid()
      reads this, packetBuffer
    {
      Asm(isSynced, serialNo, waitLast, packetBuffer[..packetBufLen])
    }

    constructor ()
      ensures Valid() && fresh(packetBuffer) && View() == Initial() && latencyUpdated == 0
    {
      packetBuffer := new Byte[BUFFER](_ => 0);
      serialNo, isSynced, waitLast, packetBufLen, latencyUpdated := 0xff, false, false, 0, 0;
    }

    method ResetAssembly()
      requires Valid()
      modifies this`isSynced, this`waitLast, this`packetBufLen
      ensures Valid() && View() == old(Reset(View()))
    {
      isSynced, waitLast, packetBufLen := false, false, 0;
    }

    /** memcpy into the packet buffer. */
    method Append(at: nat, payload: seq<Byte>)
      requires Valid() && at + |payload| <= BUFFER
      modifies packetBuffer
      ensures packetBuffer[..at + |payload|] == old(packetBuffer[..at]) + payload
    {
      forall i | 0 <= i < |payload| {
        packetBuffer[at + i] := payload[i];
      }
    }

    method AtStart(f: Fragment) returns (ret: int, out: Out)
      requires Valid() && !waitLast && |f.payload| <= BUFFER
      modifies this`isSynced, this`serialNo, this`waitLast, this`packetBufLen, packetBuffer
      ensures Valid() && Result(View(), ret, out) == old(Begin(View(), f))
    {
      out := None;
      if f.Single() {
        Append(0, f.payload);
        assert packetBuffer[..|f.payload|] == f.payload;
        out := Some(packetBuffer[..|f.payload|]);
        waitLast, packetBufLen := false, 0;
        ret := 1;
      } else if f.Start() {
        ret := 0;
        if packetBufLen + |f.payload| >= BUFFER {
          packetBufLen, waitLast := 0, false;
        } else {
          Append(0, f.payload);
          assert packetBuffer[..|f.payload|] == f.payload;
          packetBufLen, waitLast := |f.payload|, true;
        }
      } else {
        ret := -1;
      }
      if ret >= 0 {
        if !isSynced {
          isSynced, serialNo := true, Next(f.seqno);
        }
      }
    }

    method AtLast(f: Fragment) returns (ret: int, out: Out)
      requires Valid() && waitLast
      modifies this`waitLast, this`packetBufLen, packetBuffer
      ensures Valid() && Result(View(), ret, out) == old(Continue(View(), f))
    {
      ret, out := -1, None;
      if packetBufLen + |f.payload| >= BUFFER {
        packetBufLen, waitLast := 0, false;
      } else {
        Append(packetBufLen, f.payload);
        packetBufLen := packetBufLen + |f.payload|;
        ret := 0;
        if f.Last() {
          out := Some(packetBuffer[..packetBufLen]);
          packetBufLen, waitLast := 0, false;
          ret := 1;
        }
      }
    }

    /** assemble_lhdc_packet. */
    method Process(f: Fragment) returns (ret: int, out: Out)
      requires Valid() && |f.payload| <= BUFFER
      modifies this`latencyUpdated, this`isSynced, this`serialNo, this`waitLast, this`packetBufLen, packetBuffer
      ensures Valid() && latencyUpdated == f.Latency()
      ensures Result(View(), ret, out) == old(Assemble(View(), f))
    {
      if latencyUpdated != f.Latency() {
        latencyUpdated := f.Latency();
      }
      if isSynced {
        if f.seqno != serialNo {
          ResetAssembly();
          if !(f.Single() || f.Start()) {
            return 0, None;
          }
        } else {
          serialNo := Next(f.seqno);
        }
      }
      if !waitLast {
        ret, out := AtStart(f);
      } else {
        ret, out := AtLast(f);
      }
    }
  }

  function Initial(): Asm {
    Asm(false, 0xff, false, [])
  }

  // ----- Soundness: what is emitted is a row of adjacent, consecutively numbered fragments -----

  function Payloads(fs: seq<Fragment>): seq<Byte>
    decreases |fs|
  {
    if fs == [] then [] else fs[0].payload + Payloads(fs[1..])
  }

  lemma {:induction false} PayloadsConcat(fs: seq<Fragment>, gs: seq<Fragment>)
    ensures Payloads(fs + gs) == Payloads(fs) + Payloads(gs)
    decreases |fs|
  {
    if fs == [] {
      assert fs + gs == gs;
    } else {
      PayloadsConcat(fs[1..], gs);
      assert (fs + gs)[1..] == fs[1..] + gs;
    }
  }

  lemma PayloadsSnoc(fs: seq<Fragment>, f: Fragment)
    ensures Payloads(fs + [f]) == Payloads(fs) + f.payload
  {
    PayloadsConcat(fs, [f]);
    assert [f][1..] == [];
  }

  predicate Consecutive(fs: seq<Fragment>) {
    forall i :: 0 <= i < |fs| - 1 ==> fs[i + 1].seqno == Next(fs[i].seqno)
  }

  predicate NoLastInside(fs: seq<Fragment>) {
    forall i :: 0 < i < |fs| - 1 ==> !fs[i].Last()
  }

  /** fs make up one packet: one single fragment, or a start, others, and a last. */
  predicate Whole(fs: seq<Fragment>, packet: seq<Byte>) {
    && |fs| > 0 && Consecutive(fs) && packet == Payloads(fs)
    && if |fs| == 1 then fs[0].Single()
       else fs[0].Start() && NoLastInside(fs) && fs[|fs| - 1].Last() && |packet| < BUFFER
  }

  /** The packets a run of fragments completes, in order. */
  function Delivered(a: Asm, fs: seq<Fragment>): seq<seq<Byte>>
    decreases |fs|
  {
    if fs == [] then [] else
    var r := Assemble(a, fs[0]);
    (match r.out case None => [] case Some(p) => [p]) + Delivered(r.a, fs[1..])
  }

  function After(a: Asm, fs: seq<Fragment>): Asm
    decreases |fs|
  {
    if fs == [] then a else After(Assemble(a, fs[0]).a, fs[1..])
  }

  /** The fragments of which the buffer holds the payloads. */
  predicate Open(hist: seq<Fragment>, j: nat, buf: seq<Byte>) {
    && j < |hist|
    && Consecutive(hist[j..]) && buf == Payloads(hist[j..]) && |buf| < BUFFER
    && hist[j].Start() && forall i :: j < i < |hist| ==> !hist[i].Last()
  }

  /** Waiting for a start means an empty buffer; waiting for a last means synced, and a start was
      the fragment whose payload opens the buffer; synced means the number expected is the one after
      the last fragment's. */
  ghost predicate Inv(a: Asm, hist: seq<Fragment>) {
    && (!a.waitLast ==> a.buf == [])
    && (a.waitLast ==> a.synced && exists j :: 0 <= j && Open(hist, j, a.buf))
    && (a.synced ==> |hist| > 0 && a.serial == Next(hist[|hist| - 1].seqno))
  }

  lemma OpenGrows(hist: seq<Fragment>, j: nat, buf: seq<Byte>, f: Fragment)
    requires Open(hist, j, buf) && f.seqno == Next(hist[|hist| - 1].seqno)
    ensures Consecutive((hist + [f])[j..]) && Payloads((hist + [f])[j..]) == buf + f.payload
    ensures NoLastInside((hist + [f])[j..])
    ensures !f.Last() && |buf + f.payload| < BUFFER ==> Open(hist + [f], j, buf + f.payload)
  {
    var fs := hist[j..];
    assert (hist + [f])[j..] == fs + [f];
    PayloadsSnoc(fs, f);
    assert fs[|fs| - 1] == hist[|hist| - 1];
    forall i | 0 < i < |fs + [f]| - 1
      ensures !(fs + [f])[i].Last()
    {
      assert fs[i] == hist[j + i];
    }
  }

  lemma OpenStarts(hist: seq<Fragment>, f: Fragment)
    requires f.Start() && |f.payload| < BUFFER
    ensures Open(hist + [f], |hist|, f.payload)
  {
    assert (hist + [f])[|hist|..] == [f] && [f][1..] == [];
    assert Payloads([f]) == f.payload + Payloads([]);
  }

  /** The last fragments of hist, from j on, make up the packet. */
  predicate Closes(hist: seq<Fragment>, j: nat, packet: seq<Byte>) {
    j < |hist| && Whole(hist[j..], packet)
  }

  lemma BeginSound(a: Asm, hist: seq<Fragment>, f: Fragment)
    requires !a.waitLast && a.buf == [] && (a.synced ==> a.serial == Next(f.seqno))
    ensures var r := Begin(a, f);
      && Inv(r.a, hist + [f])
      && (r.out.Some? ==> exists j: nat :: Closes(hist + [f], j, r.out.packet))
  {
    var r := Begin(a, f);
    if f.Single() {
      assert (hist + [f])[|hist|..] == [f] && [f][1..] == [];
      assert Payloads([f]) == f.payload + Payloads([]);
      assert Closes(hist + [f], |hist|, f.payload);
    } else if f.Start() && |f.payload| < BUFFER {
      OpenStarts(hist, f);
    }
  }

  lemma ContinueSound(a: Asm, hist: seq<Fragment>, f: Fragment)
    requires Inv(a, hist) && a.waitLast && f.seqno == a.serial
    ensures var r := Continue(a.(serial := Next(f.seqno)), f);
      && Inv(r.a, hist + [f])
      && (r.out.Some? ==> exists j: nat :: Closes(hist + [f], j, r.out.packet))
  {
    var j :| 0 <= j && Open(hist, j, a.buf);
    OpenGrows(hist, j, a.buf, f);
    var r := Continue(a.(serial := Next(f.seqno)), f);
    if r.out.Some? {
      assert (hist + [f])[j..] == hist[j..] + [f];
      assert Closes(hist + [f], j, r.out.packet);
    }
  }

  lemma StepSound(a: Asm, hist: seq<Fragment>, f: Fragment)
    requires Inv(a, hist)
    ensures var r := Assemble(a, f);
      && Inv(r.a, hist + [f])
      && (r.out.Some? ==> exists j: nat :: Closes(hist + [f], j, r.out.packet))
  {
    if a.synced && f.seqno != a.serial {
      BeginSound(Reset(a), hist, f);
    } else if a.waitLast {
      ContinueSound(a, hist, f);
    } else {
      BeginSound(if a.synced then a.(serial := Next(f.seqno)) else a, hist, f);
    }
  }

  /** A packet is the payload of fragments [j..k] of fs. */
  predicate Within(fs: seq<Fragment>, j: nat, k: nat, packet: seq<Byte>) {
    j <= k < |fs| && Whole(fs[j..k + 1], packet)
  }

  lemma {:induction false} SoundFrom(a: Asm, hist: seq<Fragment>, fs: seq<Fragment>)
    requires Inv(a, hist)
    ensures Inv(After(a, fs), hist + fs)
    ensures forall p :: p in Delivered(a, fs) ==> exists j: nat, k: nat :: Within(hist + fs, j, k, p)
    decreases |fs|
  {
    if fs == [] {
      assert hist + fs == hist;
    } else {
      var r, hist' := Assemble(a, fs[0]), hist + [fs[0]];
      StepSound(a, hist, fs[0]);
      SoundFrom(r.a, hist', fs[1..]);
      assert hist' + fs[1..] == hist + fs;
      if r.out.Some? {
        var j: nat :| Closes(hist', j, r.out.packet);
        assert (hist + fs)[j..|hist'|] == hist'[j..];
        assert Within(hist + fs, j, |hist'| - 1, r.out.packet);
      }
    }
  }

  /** Whatever fragments arrive, every packet delivered is the payload of adjacent received
      fragments with consecutive numbers, opened by a single or start fragment and closed by a
      single or last one. */
  lemma Soundness(fs: seq<Fragment>)
    ensures forall p :: p in Delivered(Initial(), fs) ==> exists j: nat, k: nat :: Within(fs, j, k, p)
    ensures Inv(After(Initial(), fs), fs)
  {
    SoundFrom(Initial(), [], fs);
    assert [] + fs == fs;
  }

  // ----- The return codes -----

  /** A header byte by its parts: three flags, a frame count, and the latency. */
  function Header(flag: bool, start: bool, last: bool, count: nat, latency: nat): Byte
    requires count < 8 && latency < 4
  {
    (if flag then 0x80 else 0) + (if start then 0x40 else 0) + (if last then 0x20 else 0) + 4 * count + latency
  }

  /** What is read out of a header byte is what was put in. */
  lemma HeaderParts(flag: bool, start: bool, last: bool, count: nat, latency: nat, seqno: Byte, payload: seq<Byte>)
    requires count < 8 && latency < 4
    ensures var f := Fragment(Header(flag, start, last, count, latency), seqno, payload);
      f.Start() == start && f.Last() == last && f.Single() == (!flag && !start && !last) && f.Latency() == latency
  {
  }

  /** The fragment is outside any packet and neither starts one nor is one, or it overflows the packet
      being collected. One that breaks the sequence is not counted here. */
  predicate Rejected(a: Asm, f: Fragment) {
    && (a.synced ==> f.seqno == a.serial)
    && if a.waitLast then |a.buf| + |f.payload| >= 4096 else !f.Single() && !f.Start()
  }

  /** The code is 1 exactly when a packet is completed, and -1 exactly for a rejected fragment. */
  lemma CodeMeans(a: Asm, f: Fragment)
    ensures var r := Assemble(a, f);
      && r.ret in {-1, 0, 1}
      && (r.ret == 1 <==> r.out.Some?)
      && (r.ret == -1 <==> Rejected(a, f))
  {
  }

  function Codes(a: Asm, fs: seq<Fragment>): (codes: seq<int>)
    ensures |codes| == |fs|
    decreases |fs|
  {
    if fs == [] then [] else [Assemble(a, fs[0]).ret] + Codes(Assemble(a, fs[0]).a, fs[1..])
  }

  function Outs(a: Asm, fs: seq<Fragment>): (outs: seq<Out>)
    ensures |outs| == |fs|
    decreases |fs|
  {
    if fs == [] then [] else [Assemble(a, fs[0]).out] + Outs(Assemble(a, fs[0]).a, fs[1..])
  }

  /** What a caller stores that looks at the code alone. */
  function Stored(codes: seq<int>, outs: seq<Out>): seq<seq<Byte>>
    requires |codes| == |outs|
    decreases |codes|
  {
    if codes == [] then [] else
    (if codes[0] > 0 then [if outs[0].Some? then outs[0].packet else []] else []) + Stored(codes[1..], outs[1..])
  }

  /** Over every run, what the caller stores by the codes is exactly what is delivered, and the code of
      each fragment says what became of it. */
  lemma {:induction false} StoredIsDelivered(a: Asm, fs: seq<Fragment>)
    ensures Stored(Codes(a, fs), Outs(a, fs)) == Delivered(a, fs)
    ensures forall k :: 0 <= k < |fs| ==>
      && (Codes(a, fs)[k] > 0 <==> Outs(a, fs)[k].Some?)
      && (Codes(a, fs)[k] < 0 <==> Rejected(After(a, fs[..k]), fs[k]))
    decreases |fs|
  {
    if fs != [] {
      var r, rest := Assemble(a, fs[0]), fs[1..];
      CodeMeans(a, fs[0]);
      StoredIsDelivered(r.a, rest);
      assert Codes(a, fs)[1..] == Codes(r.a, rest) && Outs(a, fs)[1..] == Outs(r.a, rest);
      forall k | 0 <= k < |fs|
        ensures (Codes(a, fs)[k] > 0 <==> Outs(a, fs)[k].Some?) && (Codes(a, fs)[k] < 0 <==> Rejected(After(a, fs[..k]), fs[k]))
      {
        if k > 0 {
          assert fs[..k][1..] == rest[..k - 1];
        }
      }
    }
  }

  // ----- Delivery of numbered packets, with and without loss -----

  /** The fragments of a packet after its first: numbered on from n, the final one and no other
      marked as last. */
  predicate Tail(fs: seq<Fragment>, n: Byte)
    decreases |fs|
  {
    && |fs| > 0 && fs[0].seqno == n && !fs[0].Single() && !fs[0].Start()
    && (fs[0].Last() <==> |fs| == 1)
    && (|fs| > 1 ==> Tail(fs[1..], Next(n)))
  }

  /** A packet as the sender cuts it, its fragments numbered from n. */
  predicate Cut(fs: seq<Fragment>, n: Byte) {
    && |fs| > 0 && fs[0].seqno == n
    && (|fs| == 1 ==> fs[0].Single())
    && (|fs| > 1 ==> fs[0].Start() && Tail(fs[1..], Next(n)))
  }

  predicate Fits(fs: seq<Fragment>) {
    |fs| == 1 || |Payloads(fs)| < 4096
  }

  function Plus(n: Byte, k: nat): (m: Byte)
    decreases k
  {
    if k == 0 then n else Next(Plus(n, k - 1))
  }

  /** A stretch of the sender's fragments, of which those marked arrive: the assembler after it, how
      many fragments in a row were lost last, and what was delivered. */
  datatype Passed = Passed(a: Asm, lost: nat, delivered: seq<seq<Byte>>)

  function Pass(a: Asm, lost: nat, fs: seq<Fragment>, arrives: seq<bool>): Passed
    requires |arrives| == |fs|
    decreases |fs|
  {
    if fs == [] then Passed(a, lost, [])
    else if !arrives[0] then Pass(a, lost + 1, fs[1..], arrives[1..])
    else
      var r := Assemble(a, fs[0]);
      var rest := Pass(r.a, 0, fs[1..], arrives[1..]);
      rest.(delivered := (match r.out case None => [] case Some(p) => [p]) + rest.delivered)
  }

  /** Losing a positive multiple of 256 fragments in a row leaves no trace in the numbers. */
  predicate Noticeable(lost: nat) {
    lost == 0 || lost % 256 != 0
  }

  /** No fragment arrives after a loss that leaves no trace while a packet is being collected. */
  predicate Calm(a: Asm, lost: nat, fs: seq<Fragment>, arrives: seq<bool>)
    requires |arrives| == |fs|
    decreases |fs|
  {
    fs == [] || (
      if arrives[0] then (Noticeable(lost) || !a.waitLast) && Calm(Assemble(a, fs[0]).a, 0, fs[1..], arrives[1..])
      else Calm(a, lost + 1, fs[1..], arrives[1..]))
  }

  predicate All(arrives: seq<bool>) {
    forall i :: 0 <= i < |arrives| ==> arrives[i]
  }

  /** Between packets, the next number sent being n: the assembler expects the number after the
      last that arrived, and it waits for a start, unless what it waits for was lost. */
  predicate Placed(a: Asm, lost: nat, n: Byte) {
    && (!a.waitLast ==> a.buf == []) && (a.waitLast ==> a.synced)
    && (a.synced ==> Plus(a.serial, lost) == n)
    && (lost == 0 ==> !a.waitLast)
  }

  lemma {:induction false} PlusModulo(n: Byte, k: nat)
    ensures Plus(n, k) == (n + k) % 256
    decreases k
  {
    if k > 0 {
      PlusModulo(n, k - 1);
      NextModulo(n + (k - 1));
    }
  }

  lemma NextModulo(m: nat)
    ensures Next(m % 256) == (m + 1) % 256
  {
  }

  /** A gap shows in the numbers exactly when it is not a multiple of 256. */
  lemma GapShows(n: Byte, lost: nat)
    ensures Plus(n, lost) == n <==> lost % 256 == 0
  {
    PlusModulo(n, lost);
    SameAfter(n, lost);
  }

  lemma SameAfter(n: Byte, k: nat)
    ensures (n + k) % 256 == n <==> k % 256 == 0
  {
  }

  /** While the assembler is not collecting, the rest of a packet delivers nothing. */
  lemma {:induction false} RestIgnored(a: Asm, lost: nat, fs: seq<Fragment>, n: Byte, arrives: seq<bool>)
    requires Tail(fs, n) && |arrives| == |fs| && Placed(a, lost, n) && Calm(a, lost, fs, arrives)
    ensures Pass(a, lost, fs, arrives).delivered == []
    ensures var r := Pass(a, lost, fs, arrives); Placed(r.a, r.lost, Plus(n, |fs|))
    decreases |fs|
  {
    PlusFirst(n, |fs|);
    if arrives[0] {
      GapShows(a.serial, lost);
      var a' := Assemble(a, fs[0]).a;
      assert Placed(a', 0, Next(n));
      if |fs| > 1 {
        RestIgnored(a', 0, fs[1..], Next(n), arrives[1..]);
      }
    } else if |fs| > 1 {
      RestIgnored(a, lost + 1, fs[1..], Next(n), arrives[1..]);
    }
  }

  lemma PassOne(a: Asm, lost: nat, fs: seq<Fragment>, arrives: seq<bool>)
    requires |fs| == |arrives| == 1 && arrives[0]
    ensures var r := Assemble(a, fs[0]);
      Pass(a, lost, fs, arrives) == Passed(r.a, 0, match r.out case None => [] case Some(p) => [p])
    ensures All(arrives)
  {
    var r := Assemble(a, fs[0]);
    assert Pass(r.a, 0, fs[1..], arrives[1..]) == Passed(r.a, 0, []);
  }

  lemma {:induction false} PlusFirst(n: Byte, k: nat)
    requires k > 0
    ensures Plus(n, k) == Plus(Next(n), k - 1)
    decreases k
  {
    if k > 1 {
      PlusFirst(n, k - 1);
    }
  }

  /** Collecting: everything sent so far of this packet has arrived and is in the buffer. */
  predicate Collecting(a: Asm, n: Byte) {
    a.waitLast && a.synced && a.serial == n && |a.buf| < BUFFER
  }

  /** The rest of a packet being collected delivers it exactly when all of it arrives and fits. */
  lemma {:induction false} RestCollected(a: Asm, fs: seq<Fragment>, n: Byte, arrives: seq<bool>)
    requires Tail(fs, n) && |arrives| == |fs| && Collecting(a, n) && Calm(a, 0, fs, arrives)
    ensures Pass(a, 0, fs, arrives).delivered
      == if All(arrives) && |a.buf + Payloads(fs)| < BUFFER then [a.buf + Payloads(fs)] else []
    ensures var r := Pass(a, 0, fs, arrives); Placed(r.a, r.lost, Plus(n, |fs|))
    decreases |fs|
  {
    PlusFirst(n, |fs|);
    AllCons(arrives);
    var f := fs[0];
    if !arrives[0] {
      if |fs| > 1 {
        RestIgnored(a, 1, fs[1..], Next(n), arrives[1..]);
      }
    } else {
      var a' := Assemble(a, f).a;
      assert a.buf + Payloads(fs) == (a.buf + f.payload) + Payloads(fs[1..]);
      if |fs| > 1 {
        if |a.buf + f.payload| >= BUFFER {
          RestIgnored(a', 0, fs[1..], Next(n), arrives[1..]);
        } else {
          RestCollected(a', fs[1..], Next(n), arrives[1..]);
        }
      } else {
        PassOne(a, 0, fs, arrives);
        PayloadsOfTwo(fs);
      }
    }
  }

  /** Of one sent packet: it is delivered, as it was sent, exactly when all its fragments arrive and
      it fits the buffer; and the assembler is ready for the next one. */
  lemma PacketPasses(a: Asm, lost: nat, fs: seq<Fragment>, n: Byte, arrives: seq<bool>)
    requires Cut(fs, n) && |arrives| == |fs| && Placed(a, lost, n) && Calm(a, lost, fs, arrives)
    ensures Pass(a, lost, fs, arrives).delivered == if All(arrives) && Fits(fs) then [Payloads(fs)] else []
    ensures var r := Pass(a, lost, fs, arrives); Placed(r.a, r.lost, Plus(n, |fs|))
  {
    PlusFirst(n, |fs|);
    AllCons(arrives);
    var f := fs[0];
    if !arrives[0] {
      if |fs| > 1 {
        RestIgnored(a, lost + 1, fs[1..], Next(n), arrives[1..]);
      }
    } else {
      GapShows(a.serial, lost);
      FirstArrives(a, lost, f);
      var a' := Assemble(a, f).a;
      if |fs| == 1 {
        PassOne(a, lost, fs, arrives);
        PayloadsOfTwo(fs);
      } else if |f.payload| >= BUFFER {
        RestIgnored(a', 0, fs[1..], Next(n), arrives[1..]);
      } else {
        RestCollected(a', fs[1..], Next(n), arrives[1..]);
      }
    }
  }

  /** The first fragment of a packet is always taken. */
  lemma FirstArrives(a: Asm, lost: nat, f: Fragment)
    requires Placed(a, lost, f.seqno) && (a.waitLast && lost != 0 ==> a.serial != f.seqno)
    requires f.Single() || f.Start()
    ensures var r := Assemble(a, f);
      && r.out == (if f.Single() then Some(f.payload) else None)
      && (f.Single() || |f.payload| >= BUFFER ==> Placed(r.a, 0, Next(f.seqno)))
      && (!f.Single() && |f.payload| < BUFFER ==> Collecting(r.a, Next(f.seqno)) && r.a.buf == f.payload)
  {
  }

  lemma AllCons(arrives: seq<bool>)
    requires |arrives| > 0
    ensures All(arrives) <==> arrives[0] && All(arrives[1..])
  {
    if arrives[0] && All(arrives[1..]) {
      forall i | 0 <= i < |arrives|
        ensures arrives[i]
      {
        assert i > 0 ==> arrives[1..][i - 1];
      }
    }
    if All(arrives) {
      forall i | 0 <= i < |arrives[1..]|
        ensures arrives[1..][i]
      {
        assert arrives[i + 1];
      }
    }
  }

  // ----- Whole streams -----

  /** The fragments that arrive. */
  function Received(fs: seq<Fragment>, arrives: seq<bool>): seq<Fragment>
    requires |arrives| == |fs|
    decreases |fs|
  {
    if fs == [] then [] else (if arrives[0] then [fs[0]] else []) + Received(fs[1..], arrives[1..])
  }

  /** Packets cut one after another, their fragments numbered on from n without a gap. */
  predicate SentFrom(packets: seq<seq<Fragment>>, n: Byte)
    decreases |packets|
  {
    packets == [] || (Cut(packets[0], n) && SentFrom(packets[1..], Plus(n, |packets[0]|)))
  }

  predicate Marked(packets: seq<seq<Fragment>>, marks: seq<seq<bool>>) {
    |marks| == |packets| && forall i :: 0 <= i < |packets| ==> |marks[i]| == |packets[i]|
  }

  /** The packets that arrive whole and fit, in order. */
  function Surviving(packets: seq<seq<Fragment>>, marks: seq<seq<bool>>): seq<seq<Byte>>
    requires Marked(packets, marks)
    decreases |packets|
  {
    if packets == [] then [] else
    (if All(marks[0]) && Fits(packets[0]) then [Payloads(packets[0])] else []) + Surviving(packets[1..], marks[1..])
  }

  lemma {:induction false} SameLength(packets: seq<seq<Fragment>>, marks: seq<seq<bool>>)
    requires Marked(packets, marks)
    ensures |Blocks.Flat(marks)| == |Blocks.Flat(packets)|
    decreases |packets|
  {
    if packets != [] {
      MarkedRest(packets, marks);
      SameLength(packets[1..], marks[1..]);
    }
  }

  lemma MarkedRest(packets: seq<seq<Fragment>>, marks: seq<seq<bool>>)
    requires Marked(packets, marks) && packets != []
    ensures Marked(packets[1..], marks[1..]) && |marks[0]| == |packets[0]|
  {
    forall i | 0 <= i < |packets[1..]|
      ensures |marks[1..][i]| == |packets[1..][i]|
    {
      assert |marks[i + 1]| == |packets[i + 1]|;
    }
  }

  lemma {:induction false} PassIsDelivered(a: Asm, lost: nat, fs: seq<Fragment>, arrives: seq<bool>)
    requires |arrives| == |fs|
    ensures Pass(a, lost, fs, arrives).delivered == Delivered(a, Received(fs, arrives))
    ensures Pass(a, lost, fs, arrives).a == After(a, Received(fs, arrives))
    decreases |fs|
  {
    if fs != [] {
      if arrives[0] {
        PassIsDelivered(Assemble(a, fs[0]).a, 0, fs[1..], arrives[1..]);
        assert Received(fs, arrives)[1..] == Received(fs[1..], arrives[1..]);
      } else {
        PassIsDelivered(a, lost + 1, fs[1..], arrives[1..]);
        assert Received(fs, arrives) == Received(fs[1..], arrives[1..]);
      }
    }
  }

  lemma {:induction false} PassConcat(a: Asm, lost: nat, fs: seq<Fragment>, gs: seq<Fragment>, x: seq<bool>, y: seq<bool>)
    requires |x| == |fs| && |y| == |gs|
    ensures var p := Pass(a, lost, fs, x); var q := Pass(p.a, p.lost, gs, y);
      Pass(a, lost, fs + gs, x + y) == q.(delivered := p.delivered + q.delivered)
    ensures var p := Pass(a, lost, fs, x); Calm(a, lost, fs + gs, x + y) <==> Calm(a, lost, fs, x) && Calm(p.a, p.lost, gs, y)
    decreases |fs|
  {
    if fs == [] {
      assert fs + gs == gs && x + y == y;
    } else {
      assert (fs + gs)[1..] == fs[1..] + gs && (x + y)[1..] == x[1..] + y;
      if x[0] {
        PassConcat(Assemble(a, fs[0]).a, 0, fs[1..], gs, x[1..], y);
      } else {
        PassConcat(a, lost + 1, fs[1..], gs, x[1..], y);
      }
    }
  }

  /** The number after some packets. */
  function NumberAfter(packets: seq<seq<Fragment>>, n: Byte): Byte
    decreases |packets|
  {
    if packets == [] then n else NumberAfter(packets[1..], Plus(n, |packets[0]|))
  }

  /** As long as the stream is calm, what is delivered is exactly the packets that arrived whole and
      fit, in the order they were sent. */
  lemma {:induction false} StreamPasses(a: Asm, lost: nat, packets: seq<seq<Fragment>>, n: Byte, marks: seq<seq<bool>>)
    requires SentFrom(packets, n) && Marked(packets, marks) && |Blocks.Flat(marks)| == |Blocks.Flat(packets)|
    requires Placed(a, lost, n) && Calm(a, lost, Blocks.Flat(packets), Blocks.Flat(marks))
    ensures var r := Pass(a, lost, Blocks.Flat(packets), Blocks.Flat(marks));
      r.delivered == Surviving(packets, marks) && Placed(r.a, r.lost, NumberAfter(packets, n))
    decreases |packets|
  {
    if packets != [] {
      MarkedRest(packets, marks);
      SameLength(packets[1..], marks[1..]);
      PassConcat(a, lost, packets[0], Blocks.Flat(packets[1..]), marks[0], Blocks.Flat(marks[1..]));
      PacketPasses(a, lost, packets[0], n, marks[0]);
      var r := Pass(a, lost, packets[0], marks[0]);
      StreamPasses(r.a, r.lost, packets[1..], Plus(n, |packets[0]|), marks[1..]);
    }
  }

  /** Without loss every packet that fits is delivered, in order. */
  lemma {:induction false} GaplessDelivery(a: Asm, packets: seq<seq<Fragment>>, n: Byte)
    requires SentFrom(packets, n) && Placed(a, 0, n)
    ensures Delivered(a, Blocks.Flat(packets)) == Fitting(packets)
    decreases |packets|
  {
    if packets != [] {
      var p, rest := packets[0], Blocks.Flat(packets[1..]);
      var marks := seq(|p|, _ => true);
      AllTrue(|p|);
      NothingLost(a, p, marks);
      PacketPasses(a, 0, p, n, marks);
      DeliveredConcat(a, p, rest);
      GaplessDelivery(After(a, p), packets[1..], Plus(n, |p|));
    }
  }

  function Fitting(packets: seq<seq<Fragment>>): seq<seq<Byte>>
    decreases |packets|
  {
    if packets == [] then [] else (if Fits(packets[0]) then [Payloads(packets[0])] else []) + Fitting(packets[1..])
  }

  lemma {:induction false} AllTrue(k: nat)
    ensures All(seq(k, _ => true))
    decreases k
  {
    if k > 0 {
      AllTrue(k - 1);
      assert seq(k, _ => true)[1..] == seq(k - 1, _ => true);
    }
  }

  lemma {:induction false} NothingLost(a: Asm, fs: seq<Fragment>, arrives: seq<bool>)
    requires |arrives| == |fs| && All(arrives)
    ensures Pass(a, 0, fs, arrives) == Passed(After(a, fs), 0, Delivered(a, fs)) && Calm(a, 0, fs, arrives)
    decreases |fs|
  {
    if fs != [] {
      AllCons(arrives);
      NothingLost(Assemble(a, fs[0]).a, fs[1..], arrives[1..]);
    }
  }

  lemma {:induction false} DeliveredConcat(a: Asm, fs: seq<Fragment>, gs: seq<Fragment>)
    ensures Delivered(a, fs + gs) == Delivered(a, fs) + Delivered(After(a, fs), gs)
    decreases |fs|
  {
    if fs == [] {
      assert fs + gs == gs;
    } else {
      assert (fs + gs)[1..] == fs[1..] + gs;
      DeliveredConcat(Assemble(a, fs[0]).a, fs[1..], gs);
    }
  }

  // ----- A loss that does not show -----

  /** Two packets in two fragments each, and 254 single ones between them. */
  function Unlucky(): (packets: seq<seq<Fragment>>)
    ensures |packets| == 256
  {
    [[Fragment(0xC0, 0, [1]), Fragment(0xA0, 1, [2])]]
      + Singles(254, [[Fragment(0xC0, 0, [3]), Fragment(0xA0, 1, [4])]])
  }

  /** The last k of the single packets, and more after them. */
  function Singles(k: nat, more: seq<seq<Fragment>>): (packets: seq<seq<Fragment>>)
    requires k <= 254
    ensures |packets| == k + |more|
    ensures forall i :: 0 <= i < k ==> packets[i] == [Fragment(0, 256 - k + i, [9])]
    ensures packets[k..] == more
    decreases k
  {
    if k == 0 then more else
    var rest := Singles(k - 1, more);
    [[Fragment(0, 256 - k, [9])]] + rest
  }

  lemma {:induction false} SinglesSent(k: nat, more: seq<seq<Fragment>>)
    requires k <= 254 && SentFrom(more, 0)
    ensures SentFrom(Singles(k, more), if k == 0 then 0 else 256 - k)
    decreases k
  {
    if k > 0 {
      SinglesSent(k - 1, more);
      assert Singles(k, more)[1..] == Singles(k - 1, more);
      assert Plus(256 - k, 1) == Next(Plus(256 - k, 0));
    }
  }

  lemma UnluckySent()
    ensures SentFrom(Unlucky(), 0)
  {
    var last := [Fragment(0xC0, 0, [3]), Fragment(0xA0, 1, [4])];
    TwoSent(3, 4);
    SinglesSent(254, [last]);
    TwoSent(1, 2);
    assert Unlucky()[1..] == Singles(254, [last]);
    assert Plus(0, 2) == Next(Plus(0, 1)) && Plus(0, 1) == Next(Plus(0, 0));
  }

  /** Of the unlucky stream, let only the first and the very last fragment arrive: 256 are lost
      in between, the numbers agree, and a packet is delivered that nobody sent. */
  lemma UnluckyLoss()
    ensures SentFrom(Unlucky(), 0)
    ensures |Unlucky()[0]| == |Unlucky()[255]| == 2
    ensures Delivered(Initial(), [Unlucky()[0][0], Unlucky()[255][1]]) == [[1, 4]]
    ensures forall p :: p in Unlucky() ==> Payloads(p) != [1, 4]
  {
    UnluckySent();
    UnluckyEnds();
    MixedDelivery();
    NobodySent();
  }

  lemma NobodySent()
    ensures forall p :: p in Unlucky() ==> Payloads(p) != [1, 4]
  {
    var packets := Unlucky();
    forall i | 0 <= i < |packets|
      ensures Payloads(packets[i]) != [1, 4]
    {
      NotMixed(i);
    }
  }

  lemma UnluckyEnds()
    ensures Unlucky()[0] == [Fragment(0xC0, 0, [1]), Fragment(0xA0, 1, [2])]
    ensures Unlucky()[255] == [Fragment(0xC0, 0, [3]), Fragment(0xA0, 1, [4])]
  {
    var last := [Fragment(0xC0, 0, [3]), Fragment(0xA0, 1, [4])];
    assert Unlucky()[255] == Singles(254, [last])[254] == Singles(254, [last])[254..][0];
  }

  lemma NotMixed(i: nat)
    requires i < 256
    ensures Payloads(Unlucky()[i]) != [1, 4]
  {
    var p := Unlucky()[i];
    PayloadsOfTwo(p);
    UnluckyEnds();
    if 0 < i < 255 {
      SingleBetween(i);
      assert |Payloads(p)| == 1;
    } else {
      assert Payloads(p)[1] != 4 || Payloads(p)[0] != 1;
    }
  }

  lemma SingleBetween(i: nat)
    requires 0 < i < 255
    ensures Unlucky()[i] == [Fragment(0, i + 1, [9])]
  {
    var rest := Singles(254, [[Fragment(0xC0, 0, [3]), Fragment(0xA0, 1, [4])]]);
    assert Unlucky()[i] == rest[i - 1];
  }

  lemma TwoSent(x: Byte, y: Byte)
    ensures Cut([Fragment(0xC0, 0, [x]), Fragment(0xA0, 1, [y])], 0)
    ensures SentFrom([[Fragment(0xC0, 0, [x]), Fragment(0xA0, 1, [y])]], 0)
  {
    var fs := [Fragment(0xC0, 0, [x]), Fragment(0xA0, 1, [y])];
    assert fs[1..] == [Fragment(0xA0, 1, [y])];
    assert Tail(fs[1..], 1);
    var one: seq<seq<Fragment>> := [fs];
    assert one[1..] == [];
  }

  lemma MixedDelivery()
    ensures Delivered(Initial(), [Fragment(0xC0, 0, [1]), Fragment(0xA0, 1, [4])]) == [[1, 4]]
  {
    var f, g := Fragment(0xC0, 0, [1]), Fragment(0xA0, 1, [4]);
    var a := Assemble(Initial(), f).a;
    assert a == Asm(true, 1, true, [1]);
    assert Assemble(a, g) == Result(Asm(true, 2, false, []), 1, Some([1] + [4]));
    assert [f, g][1..] == [g] && [g][1..] == [];
    var mixed: seq<Byte> := [1] + [4];
    assert mixed == [1, 4];
    assert Delivered(a, [g]) == [[1] + [4]] + Delivered(Asm(true, 2, false, []), []);
  }

  lemma PayloadsOfTwo(p: seq<Fragment>)
    ensures |p| == 1 ==> Payloads(p) == p[0].payload
    ensures |p| == 2 ==> Payloads(p) == p[0].payload + p[1].payload
  {
    if |p| == 1 {
      assert p[1..] == [];
    } else if |p| == 2 {
      assert p[1..][1..] == [];
    }
  }
}
