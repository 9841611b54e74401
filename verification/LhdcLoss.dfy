/** What a loss of LHDC fragments does (a2dpplay.cpp): it harms only when it hides, and then it does. */
module LhdcLosses {
  import opened Bytes
  import opened LhdcAssembly
  import Blocks

  /** Fragments numbered on from n. */
  predicate Numbers(fs: seq<Fragment>, n: Byte)
    decreases |fs|
  {
    fs == [] || (fs[0].seqno == n && Numbers(fs[1..], Next(n)))
  }

  lemma {:induction false} NumbersConcat(fs: seq<Fragment>, gs: seq<Fragment>, n: Byte)
    ensures Numbers(fs + gs, n) <==> Numbers(fs, n) && Numbers(gs, Plus(n, |fs|))
    decreases |fs|
  {
    if fs == [] {
      assert fs + gs == gs;
    } else {
      assert (fs + gs)[1..] == fs[1..] + gs;
      PlusFirst(n, |fs|);
      NumbersConcat(fs[1..], gs, Next(n));
    }
  }

  lemma {:induction false} TailNumbers(fs: seq<Fragment>, n: Byte)
    requires Tail(fs, n)
    ensures Numbers(fs, n)
    decreases |fs|
  {
    if |fs| > 1 {
      TailNumbers(fs[1..], Next(n));
    }
  }

  lemma CutNumbers(fs: seq<Fragment>, n: Byte)
    requires Cut(fs, n)
    ensures Numbers(fs, n)
  {
    if |fs| > 1 {
      TailNumbers(fs[1..], Next(n));
    }
  }

  lemma {:induction false} SentNumbers(packets: seq<seq<Fragment>>, n: Byte)
    requires SentFrom(packets, n)
    ensures Numbers(Blocks.Flat(packets), n)
    decreases |packets|
  {
    if packets != [] {
      CutNumbers(packets[0], n);
      SentNumbers(packets[1..], Plus(n, |packets[0]|));
      NumbersConcat(packets[0], Blocks.Flat(packets[1..]), n);
    }
  }

  /** The assembler expects the number after the last that arrived, lost fragments ago. */
  predicate Follows(a: Asm, lost: nat, n: Byte) {
    && (!a.waitLast ==> a.buf == []) && (a.waitLast ==> a.synced)
    && (a.synced ==> Plus(a.serial, lost) == n)
  }

  // ----- The condition, read off the fragments and the marks alone -----

  /** Whether a packet is open, with how many bytes: its start and all its fragments so far came
      without a gap, and they fit. */
  datatype Mark = Mark(open: bool, size: nat)

  function OpenAfter(m: Mark, lost: nat, f: Fragment): Mark {
    var size := |f.payload|;
    if m.open && lost == 0 then
      if m.size + size >= BUFFER || f.Last() then Mark(false, 0) else Mark(true, m.size + size)
    else if f.Start() && size < BUFFER then Mark(true, size)
    else Mark(false, 0)
  }

  /** No fragment arrives after a gap of a positive multiple of 256 that began inside an open packet. */
  predicate NoHiddenGap(m: Mark, lost: nat, fs: seq<Fragment>, arrives: seq<bool>)
    requires |arrives| == |fs|
    decreases |fs|
  {
    fs == [] || (
      if arrives[0] then
        !(m.open && lost > 0 && lost % 256 == 0) && NoHiddenGap(OpenAfter(m, lost, fs[0]), 0, fs[1..], arrives[1..])
      else NoHiddenGap(m, lost + 1, fs[1..], arrives[1..]))
  }

  lemma OpenIsWaiting(a: Asm, lost: nat, f: Fragment)
    requires Follows(a, lost, f.seqno) && (Noticeable(lost) || !a.waitLast)
    ensures var a' := Assemble(a, f).a;
      && OpenAfter(Mark(a.waitLast, |a.buf|), lost, f) == Mark(a'.waitLast, |a'.buf|)
      && Follows(a', 0, Next(f.seqno))
  {
    GapShows(a.serial, lost);
  }

  /** The marks tell what the assembler does. */
  lemma {:induction false} CalmOnMarks(a: Asm, lost: nat, fs: seq<Fragment>, n: Byte, arrives: seq<bool>)
    requires |arrives| == |fs| && Numbers(fs, n) && Follows(a, lost, n)
    ensures Calm(a, lost, fs, arrives) <==> NoHiddenGap(Mark(a.waitLast, |a.buf|), lost, fs, arrives)
    decreases |fs|
  {
    if fs != [] {
      if !arrives[0] {
        CalmOnMarks(a, lost + 1, fs[1..], Next(n), arrives[1..]);
      } else if Noticeable(lost) || !a.waitLast {
        OpenIsWaiting(a, lost, fs[0]);
        CalmOnMarks(Assemble(a, fs[0]).a, 0, fs[1..], Next(n), arrives[1..]);
      }
    }
  }

  // ----- Exactly then nothing is mixed -----

  /** The assembler takes f for the next fragment of the packet it collects. */
  predicate TakesOn(a: Asm, f: Fragment) {
    a.waitLast && a.synced && f.seqno == a.serial
  }

  /** Whatever is added to a packet was sent right after what was added before it. last is the place
      of the fragment that arrived last, place that of the first of fs. */
  predicate Unmixed(a: Asm, last: int, fs: seq<Fragment>, arrives: seq<bool>, place: int)
    requires |arrives| == |fs|
    decreases |fs|
  {
    fs == [] || (
      if arrives[0] then
        (TakesOn(a, fs[0]) ==> place == last + 1) && Unmixed(Assemble(a, fs[0]).a, place, fs[1..], arrives[1..], place + 1)
      else Unmixed(a, last, fs[1..], arrives[1..], place + 1))
  }

  lemma {:induction false} UnmixedIsCalm(a: Asm, last: int, lost: nat, fs: seq<Fragment>, n: Byte, arrives: seq<bool>, place: int)
    requires |arrives| == |fs| && Numbers(fs, n) && Follows(a, lost, n) && place == last + 1 + lost
    ensures Unmixed(a, last, fs, arrives, place) <==> Calm(a, lost, fs, arrives)
    decreases |fs|
  {
    if fs != [] {
      if !arrives[0] {
        UnmixedIsCalm(a, last, lost + 1, fs[1..], Next(n), arrives[1..], place + 1);
      } else {
        GapShows(a.serial, lost);
        if Noticeable(lost) || !a.waitLast {
          OpenIsWaiting(a, lost, fs[0]);
          UnmixedIsCalm(Assemble(a, fs[0]).a, place, 0, fs[1..], Next(n), arrives[1..], place + 1);
        }
      }
    }
  }

  /** Of numbered fragments, the assembler never adds one to a packet that was not sent right after
      the one added before it, if and only if no hidden gap occurs. */
  lemma MixesExactly(fs: seq<Fragment>, n: Byte, arrives: seq<bool>)
    requires |arrives| == |fs| && Numbers(fs, n)
    ensures Unmixed(Initial(), -1, fs, arrives, 0) <==> NoHiddenGap(Mark(false, 0), 0, fs, arrives)
  {
    UnmixedIsCalm(Initial(), -1, 0, fs, n, arrives, 0);
    CalmOnMarks(Initial(), 0, fs, n, arrives);
  }

  /** Whatever is lost without a hidden gap, what is delivered is exactly the packets that arrived
      whole and fit, in the order they were sent. */
  lemma SurvivorsDelivered(packets: seq<seq<Fragment>>, n: Byte, marks: seq<seq<bool>>)
    requires SentFrom(packets, n) && Marked(packets, marks) && |Blocks.Flat(marks)| == |Blocks.Flat(packets)|
    requires NoHiddenGap(Mark(false, 0), 0, Blocks.Flat(packets), Blocks.Flat(marks))
    ensures Delivered(Initial(), Received(Blocks.Flat(packets), Blocks.Flat(marks))) == Surviving(packets, marks)
  {
    SentNumbers(packets, n);
    CalmOnMarks(Initial(), 0, Blocks.Flat(packets), n, Blocks.Flat(marks));
    StreamPasses(Initial(), 0, packets, n, marks);
    PassIsDelivered(Initial(), 0, Blocks.Flat(packets), Blocks.Flat(marks));
  }

  // ----- What a hidden gap does -----

  predicate NoLast(fs: seq<Fragment>) {
    forall i :: 0 <= i < |fs| ==> !fs[i].Last()
  }

  /** Fragments in sequence are collected, whatever their flags, up to a last one. */
  lemma {:induction false} Collects(a: Asm, fs: seq<Fragment>, n: Byte)
    requires a.waitLast && a.synced && a.serial == n && Numbers(fs, n) && NoLast(fs)
    requires |a.buf + Payloads(fs)| < BUFFER
    ensures Delivered(a, fs) == []
    ensures After(a, fs) == a.(serial := Plus(n, |fs|), buf := a.buf + Payloads(fs))
    decreases |fs|
  {
    if fs == [] {
      assert a.buf + Payloads(fs) == a.buf;
    } else {
      var f, rest := fs[0], fs[1..];
      assert a.buf + Payloads(fs) == (a.buf + f.payload) + Payloads(rest);
      assert forall i :: 0 <= i < |rest| ==> rest[i] == fs[i + 1];
      Collects(Assemble(a, f).a, rest, Next(n));
      PlusFirst(n, |fs|);
    }
  }

  lemma Closes(a: Asm, fs: seq<Fragment>, f: Fragment, n: Byte)
    requires a.waitLast && a.synced && a.serial == n && Numbers(fs + [f], n) && NoLast(fs) && f.Last()
    requires |a.buf + Payloads(fs + [f])| < BUFFER
    ensures Delivered(a, fs + [f]) == [a.buf + Payloads(fs + [f])]
  {
    NumbersConcat(fs, [f], n);
    PayloadsSnoc(fs, f);
    Collects(a, fs, n);
    DeliveredConcat(a, fs, [f]);
    var b := After(a, fs);
    var r := Assemble(b, f);
    assert [f][1..] == [];
    assert Delivered(b, [f]) == [b.buf + f.payload] + Delivered(r.a, []);
    assert a.buf + Payloads(fs + [f]) == b.buf + f.payload;
  }

  /** A hidden gap: a packet is being collected, and the number after the gap is the one expected. */
  predicate Hidden(a: Asm, lost: nat) {
    a.waitLast && a.synced && lost > 0 && lost % 256 == 0
  }

  /** A row of fragments up to the first that is marked as last. */
  predicate ToLast(fs: seq<Fragment>) {
    fs != [] && NoLast(fs[..|fs| - 1]) && fs[|fs| - 1].Last()
  }

  /** After a hidden gap, what arrives without further loss up to the next last fragment is delivered
      as the end of the packet that was open before the gap, if it fits. */
  lemma HiddenGapDelivers(a: Asm, lost: nat, fs: seq<Fragment>, n: Byte)
    requires Follows(a, lost, n) && Hidden(a, lost) && Numbers(fs, n) && ToLast(fs)
    requires |a.buf + Payloads(fs)| < BUFFER
    ensures Delivered(a, fs) == [a.buf + Payloads(fs)]
  {
    GapShows(a.serial, lost);
    var k := |fs| - 1;
    assert fs == fs[..k] + [fs[k]];
    Closes(a, fs[..k], fs[k], n);
  }

  lemma {:induction false} TailToLast(fs: seq<Fragment>, n: Byte)
    requires Tail(fs, n)
    ensures ToLast(fs)
    decreases |fs|
  {
    if |fs| > 1 {
      TailToLast(fs[1..], Next(n));
      var m := fs[..|fs| - 1];
      forall i | 0 <= i < |m|
        ensures !m[i].Last()
      {
        if i > 0 {
          assert fs[1..][..|fs| - 2][i - 1] == m[i];
        }
      }
    }
  }

  /** Packets in one fragment each, and then one in several. */
  predicate SinglesAndOne(packets: seq<seq<Fragment>>) {
    && packets != [] && |packets[|packets| - 1]| > 1 && !packets[|packets| - 1][0].Last()
    && forall i :: 0 <= i < |packets| - 1 ==> |packets[i]| == 1
  }

  lemma {:induction false} PacketsToLast(packets: seq<seq<Fragment>>, n: Byte)
    requires SentFrom(packets, n) && SinglesAndOne(packets)
    ensures ToLast(Blocks.Flat(packets))
    decreases |packets|
  {
    var p := packets[0];
    if |packets| == 1 {
      assert Blocks.Flat(packets) == p + Blocks.Flat(packets[1..]) == p;
      TailToLast(p[1..], Next(n));
      StartBefore(p);
    } else {
      assert forall i :: 0 <= i < |packets[1..]| ==> packets[1..][i] == packets[i + 1];
      PacketsToLast(packets[1..], Plus(n, 1));
      StartBefore(p + Blocks.Flat(packets[1..]));
    }
  }

  lemma StartBefore(fs: seq<Fragment>)
    requires |fs| > 1 && !fs[0].Last() && ToLast(fs[1..])
    ensures ToLast(fs)
  {
    var m := fs[..|fs| - 1];
    forall i | 0 <= i < |m|
      ensures !m[i].Last()
    {
      if i > 0 {
        assert fs[1..][..|fs| - 2][i - 1] == m[i];
      }
    }
  }

  lemma {:induction false} PlusPlus(n: Byte, j: nat, k: nat)
    ensures Plus(Plus(n, j), k) == Plus(n, j + k)
    decreases k
  {
    if k > 0 {
      PlusPlus(n, j, k - 1);
    }
  }

  lemma {:induction false} SentConcat(packets: seq<seq<Fragment>>, more: seq<seq<Fragment>>, n: Byte)
    ensures SentFrom(packets + more, n) <==> SentFrom(packets, n) && SentFrom(more, NumberAfter(packets, n))
    decreases |packets|
  {
    if packets == [] {
      assert packets + more == more;
    } else {
      assert (packets + more)[1..] == packets[1..] + more;
      SentConcat(packets[1..], more, Plus(n, |packets[0]|));
    }
  }

  /** A stream without a hidden gap, as far as it went. */
  predicate Before(packets: seq<seq<Fragment>>, n: Byte, marks: seq<seq<bool>>) {
    && SentFrom(packets, n) && Marked(packets, marks) && |Blocks.Flat(marks)| == |Blocks.Flat(packets)|
    && NoHiddenGap(Mark(false, 0), 0, Blocks.Flat(packets), Blocks.Flat(marks))
  }

  function Reached(packets: seq<seq<Fragment>>, marks: seq<seq<bool>>): Passed
    requires |Blocks.Flat(marks)| == |Blocks.Flat(packets)|
  {
    Pass(Initial(), 0, Blocks.Flat(packets), Blocks.Flat(marks))
  }

  lemma ReachedBefore(packets: seq<seq<Fragment>>, n: Byte, marks: seq<seq<bool>>, more: seq<Fragment>)
    requires Before(packets, n, marks)
    ensures var r := Reached(packets, marks);
      && Placed(r.a, r.lost, NumberAfter(packets, n))
      && Delivered(Initial(), Received(Blocks.Flat(packets), Blocks.Flat(marks)) + more)
        == Surviving(packets, marks) + Delivered(r.a, more)
  {
    SentNumbers(packets, n);
    CalmOnMarks(Initial(), 0, Blocks.Flat(packets), n, Blocks.Flat(marks));
    StreamPasses(Initial(), 0, packets, n, marks);
    PassIsDelivered(Initial(), 0, Blocks.Flat(packets), Blocks.Flat(marks));
    DeliveredConcat(Initial(), Received(Blocks.Flat(packets), Blocks.Flat(marks)), more);
  }

  lemma {:induction false} AllFitting(packets: seq<seq<Fragment>>)
    requires |Payloads(Blocks.Flat(packets))| < BUFFER
    ensures |Fitting(packets)| == |packets|
    decreases |packets|
  {
    if packets != [] {
      PayloadsConcat(packets[0], Blocks.Flat(packets[1..]));
      AllFitting(packets[1..]);
    }
  }

  lemma OneFitting(p: seq<Fragment>)
    requires |Payloads(p)| < BUFFER
    ensures Blocks.Flat([p]) == p && Fitting([p]) == [Payloads(p)]
  {
    assert [p][1..] == [];
    assert Fitting([p]) == [Payloads(p)] + Fitting([]);
  }

  lemma SamePrefix<T>(a: seq<T>, b: seq<T>, c: seq<T>)
    ensures a + b == a + c <==> b == c
  {
    if a + b == a + c {
      assert b == (a + b)[|a|..] && c == (a + c)[|a|..];
    }
  }

  /** The other way round: after a hidden gap between packets, packets that all arrive and fit, single
      ones and one in several fragments, come out as one packet that nobody sent. What is delivered is
      right only in one case: there are no single ones, and nothing but empty payloads was collected
      before the gap. */
  lemma HiddenGapSpoils(packets: seq<seq<Fragment>>, n: Byte, marks: seq<seq<bool>>, more: seq<seq<Fragment>>)
    requires Before(packets, n, marks) && SentFrom(packets + more, n) && SinglesAndOne(more)
    requires Hidden(Reached(packets, marks).a, Reached(packets, marks).lost)
    requires |Reached(packets, marks).a.buf + Payloads(Blocks.Flat(more))| < BUFFER
    ensures var buf := Reached(packets, marks).a.buf;
      var got := Delivered(Initial(), Received(Blocks.Flat(packets), Blocks.Flat(marks)) + Blocks.Flat(more));
      && got == Surviving(packets, marks) + [buf + Payloads(Blocks.Flat(more))]
      && (got == Surviving(packets, marks) + Fitting(more) <==> |more| == 1 && buf == [])
  {
    var r, fs, m := Reached(packets, marks), Blocks.Flat(more), NumberAfter(packets, n);
    ReachedBefore(packets, n, marks, fs);
    SentConcat(packets, more, n);
    SentNumbers(more, m);
    PacketsToLast(more, m);
    HiddenGapDelivers(r.a, r.lost, fs, m);
    SamePrefix(Surviving(packets, marks), [r.a.buf + Payloads(fs)], Fitting(more));
    MixedOrNot(r.a.buf, more);
  }

  lemma MixedOrNot(buf: seq<Byte>, more: seq<seq<Fragment>>)
    requires more != [] && |buf + Payloads(Blocks.Flat(more))| < BUFFER
    ensures [buf + Payloads(Blocks.Flat(more))] == Fitting(more) <==> |more| == 1 && buf == []
  {
    var x := buf + Payloads(Blocks.Flat(more));
    AllFitting(more);
    if |more| == 1 {
      assert more == [more[0]];
      OneFitting(more[0]);
      assert Fitting(more)[0] == Payloads(more[0]);
      if buf == [] {
        assert x == Payloads(more[0]);
      } else {
        assert |x| > |Payloads(more[0])|;
      }
    }
  }

  /** And after a hidden gap inside a packet, its last part is delivered with its first one. */
  lemma HiddenGapInsideSpoils(packets: seq<seq<Fragment>>, n: Byte, marks: seq<seq<bool>>,
      head: seq<Fragment>, gone: seq<Fragment>, tail: seq<Fragment>)
    requires Before(packets, n, marks) && !Hidden(Reached(packets, marks).a, Reached(packets, marks).lost)
    requires SentFrom(packets + [head + (gone + tail)], n)
    requires head != [] && !head[0].Last() && tail != [] && |gone| > 0 && |gone| % 256 == 0
    requires |Payloads(head) + Payloads(tail)| < BUFFER
    ensures Delivered(Initial(), Received(Blocks.Flat(packets), Blocks.Flat(marks)) + (head + tail))
      == Surviving(packets, marks) + [Payloads(head) + Payloads(tail)]
  {
    var r, m := Reached(packets, marks), NumberAfter(packets, n);
    ReachedBefore(packets, n, marks, head + tail);
    SentConcat(packets, [head + (gone + tail)], n);
    FirstSent(head + (gone + tail), m);
    GapInside(r.a, r.lost, head, gone, tail, m);
  }

  lemma GapInside(a: Asm, lost: nat, head: seq<Fragment>, gone: seq<Fragment>, tail: seq<Fragment>, m: Byte)
    requires Placed(a, lost, m) && !Hidden(a, lost) && Cut(head + (gone + tail), m)
    requires head != [] && !head[0].Last() && tail != [] && |gone| > 0 && |gone| % 256 == 0
    requires |Payloads(head) + Payloads(tail)| < BUFFER
    ensures Delivered(a, head + tail) == [Payloads(head) + Payloads(tail)]
  {
    HeadCollected(a, lost, head, gone + tail, m);
    TailPart(head, gone, tail, m);
    HiddenGapDelivers(After(a, head), |gone|, tail, Plus(Plus(m, |head|), |gone|));
    DeliveredConcat(a, head, tail);
  }

  lemma FirstSent(g: seq<Fragment>, m: Byte)
    requires SentFrom([g], m)
    ensures Cut(g, m)
  {
  }

  lemma TailPart(head: seq<Fragment>, gone: seq<Fragment>, tail: seq<Fragment>, m: Byte)
    requires Cut(head + (gone + tail), m) && head != [] && tail != []
    ensures Numbers(tail, Plus(Plus(m, |head|), |gone|)) && ToLast(tail)
  {
    var g := head + (gone + tail);
    CutNumbers(g, m);
    NumbersConcat(head, gone + tail, m);
    NumbersConcat(gone, tail, Plus(m, |head|));
    TailToLast(g[1..], Next(m));
    var k := |g| - 1 - |tail|;
    RestToLast(g[1..], k);
    assert g[1..][k..] == tail;
  }

  lemma RestToLast(fs: seq<Fragment>, k: nat)
    requires ToLast(fs) && k < |fs|
    ensures ToLast(fs[k..])
  {
    var rest := fs[k..];
    var m := rest[..|rest| - 1];
    forall i | 0 <= i < |m|
      ensures !m[i].Last()
    {
      assert m[i] == fs[..|fs| - 1][k + i];
    }
  }

  /** The first part of a packet of several fragments is collected. */
  lemma HeadCollected(a: Asm, lost: nat, head: seq<Fragment>, rest: seq<Fragment>, n: Byte)
    requires Placed(a, lost, n) && !Hidden(a, lost) && Cut(head + rest, n) && head != [] && rest != []
    requires !head[0].Last() && |Payloads(head)| < BUFFER
    ensures Delivered(a, head) == []
    ensures var b := After(a, head); b.waitLast && b.synced && b.buf == Payloads(head) && b.serial == Plus(n, |head|)
  {
    HeadParts(head, rest, n);
    GapShows(a.serial, lost);
    FirstArrives(a, lost, head[0]);
    Collects(Assemble(a, head[0]).a, head[1..], Next(n));
    assert Payloads(head) == head[0].payload + Payloads(head[1..]);
    PlusFirst(n, |head|);
  }

  lemma HeadParts(head: seq<Fragment>, rest: seq<Fragment>, n: Byte)
    requires Cut(head + rest, n) && head != [] && rest != []
    ensures head[0].seqno == n && head[0].Start() && Numbers(head[1..], Next(n)) && NoLast(head[1..])
  {
    var mids, g := head[1..], head + rest;
    assert g[0] == head[0] && g[1..] == mids + rest;
    CutNumbers(g, n);
    NumbersConcat(mids, rest, Next(n));
    TailToLast(g[1..], Next(n));
    forall i | 0 <= i < |mids|
      ensures !mids[i].Last()
    {
      assert mids[i] == g[1..][..|g| - 2][i];
    }
  }
}
