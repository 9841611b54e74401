/** The polyphase filter that raises the call sample rate to 48 kHz (voicebtpcmplay.cpp), with the
    history it carries from one buffer to the next. */
module UpFir {
  const COEFS := 24
  const HISTORY := 23

  type Sample = x: int | -0x8000 <= x < 0x8000

  /** Output samples for each input sample: from 8 kHz and from 16 kHz. */
  type Ratio = r: nat | r == 6 || r == 3 witness 6

  function From8k0(k: nat): int {
    match k
    case 0 => 64 case 1 => -311 case 2 => 210 case 3 => -320 case 4 => 363 case 5 => -407 case 6 => 410 case 7 => -356
    case 8 => 196 case 9 => 191 case 10 => -1369 case 11 => 30721 case 12 => 3861 case 13 => -2265 case 14 => 1680 case 15 => -1321
    case 16 => 1049 case 17 => -823 case 18 => 625 case 19 => -471 case 20 => 297 case 21 => -327 case 22 => 34 case _ => 19
  }

  function From8k1(k: nat): int {
    match k
    case 0 => 72 case 1 => -254 case 2 => 75 case 3 => -117 case 4 => 46 case 5 => 58 case 6 => -256 case 7 => 583
    case 8 => -1141 case 9 => 2197 case 10 => -4866 case 11 => 28131 case 12 => 10285 case 13 => -4611 case 14 => 2935 case 15 => -2061
    case 16 => 1489 case 17 => -1075 case 18 => 755 case 19 => -523 case 20 => 310 case 21 => -291 case 22 => -19 case _ => 31
  }

  function From8k2(k: nat): int {
    match k
    case 0 => 65 case 1 => -175 case 2 => -73 case 3 => 84 case 4 => -245 case 5 => 457 case 6 => -786 case 7 => 1276
    case 8 => -2040 case 9 => 3377 case 10 => -6428 case 11 => 23348 case 12 => 17094 case 13 => -6200 case 14 => 3592 case 15 => -2347
    case 16 => 1588 case 17 => -1073 case 18 => 703 case 19 => -447 case 20 => 236 case 21 => -203 case 22 => -92 case _ => 49
  }

  function From8k3(k: nat): int {
    match k
    case 0 => 49 case 1 => -92 case 2 => -203 case 3 => 236 case 4 => -447 case 5 => 703 case 6 => -1073 case 7 => 1588
    case 8 => -2347 case 9 => 3592 case 10 => -6200 case 11 => 17094 case 12 => 23348 case 13 => -6428 case 14 => 3377 case 15 => -2040
    case 16 => 1276 case 17 => -786 case 18 => 457 case 19 => -245 case 20 => 84 case 21 => -73 case 22 => -175 case _ => 65
  }

  function From8k4(k: nat): int {
    match k
    case 0 => 31 case 1 => -19 case 2 => -291 case 3 => 310 case 4 => -523 case 5 => 755 case 6 => -1075 case 7 => 1489
    case 8 => -2061 case 9 => 2935 case 10 => -4611 case 11 => 10285 case 12 => 28131 case 13 => -4866 case 14 => 2197 case 15 => -1141
    case 16 => 583 case 17 => -256 case 18 => 58 case 19 => 46 case 20 => -117 case 21 => 75 case 22 => -254 case _ => 72
  }

  function From8k5(k: nat): int {
    match k
    case 0 => 19 case 1 => 34 case 2 => -327 case 3 => 297 case 4 => -471 case 5 => 625 case 6 => -823 case 7 => 1049
    case 8 => -1321 case 9 => 1680 case 10 => -2265 case 11 => 3861 case 12 => 30721 case 13 => -1369 case 14 => 191 case 15 => 196
    case 16 => -356 case 17 => 410 case 18 => -407 case 19 => 363 case 20 => -320 case 21 => 210 case 22 => -311 case _ => 64
  }

  function From16k0(k: nat): int {
    match k
    case 0 => 1 case 1 => -291 case 2 => 248 case 3 => -327 case 4 => 383 case 5 => -405 case 6 => 362 case 7 => -212
    case 8 => -129 case 9 => 875 case 10 => -2948 case 11 => 29344 case 12 => 7324 case 13 => -3795 case 14 => 2603 case 15 => -1913
    case 16 => 1418 case 17 => -1031 case 18 => 722 case 19 => -478 case 20 => 292 case 21 => -220 case 22 => -86 case _ => 16
  }

  function From16k1(k: nat): int {
    match k
    case 0 => 26 case 1 => -212 case 2 => 6 case 3 => 45 case 4 => -185 case 5 => 414 case 6 => -764 case 7 => 1290
    case 8 => -2099 case 9 => 3470 case 10 => -6431 case 11 => 20320 case 12 => 20320 case 13 => -6431 case 14 => 3470 case 15 => -2099
    case 16 => 1290 case 17 => -764 case 18 => 414 case 19 => -185 case 20 => 45 case 21 => 6 case 22 => -212 case _ => 26
  }

  function From16k2(k: nat): int {
    match k
    case 0 => 16 case 1 => -86 case 2 => -220 case 3 => 292 case 4 => -478 case 5 => 722 case 6 => -1031 case 7 => 1418
    case 8 => -1913 case 9 => 2603 case 10 => -3795 case 11 => 7324 case 12 => 29344 case 13 => -2948 case 14 => 875 case 15 => -129
    case 16 => -212 case 17 => 362 case 18 => -405 case 19 => 383 case 20 => -327 case 21 => 248 case 22 => -291 case _ => 1
  }

  type Row = nat -> int

  /** The coefficients of a phase, by the ratio. */
  function Coefs(ratio: Ratio, phase: nat): Row
    requires phase < ratio
  {
    if ratio == 6 then
      match phase
      case 0 => From8k0 case 1 => From8k1 case 2 => From8k2 case 3 => From8k3 case 4 => From8k4 case _ => From8k5
    else
      match phase case 0 => From16k0 case 1 => From16k1 case _ => From16k2
  }

  function Wrap32(x: int): (r: int)
    ensures -0x8000_0000 <= r < 0x8000_0000 && (r - x) % 0x1_0000_0000 == 0
  {
    (x + 0x8000_0000) % 0x1_0000_0000 - 0x8000_0000
  }

  function Wrap16(x: int): (r: Sample) {
    (x + 0x8000) % 0x1_0000 - 0x8000
  }

  /** The accumulator after n products, in 32 bits. */
  function Acc(row: Row, w: seq<Sample>, n: nat): int
    requires n <= |w|
  {
    if n == 0 then 0 else Wrap32(Acc(row, w, n - 1) + w[n - 1] * row(n - 1))
  }

  /** One output sample: the high half of the accumulator. */
  function Out(row: Row, w: seq<Sample>): Sample
    requires |w| == COEFS
  {
    Wrap16(Acc(row, w, COEFS) / 0x1_0000)
  }

  /** The outputs for one window, one per phase. */
  function Phases(ratio: Ratio, w: seq<Sample>): (r: seq<Sample>)
    requires |w| == COEFS
    ensures |r| == ratio
  {
    seq(ratio, p requires 0 <= p < ratio => Out(Coefs(ratio, p), w))
  }

  /** One-shot convolution of x with every phase. */
  function Convolved(ratio: Ratio, x: seq<Sample>): seq<Sample>
    decreases |x|
  {
    if |x| < COEFS then [] else Phases(ratio, x[..COEFS]) + Convolved(ratio, x[1..])
  }

  function OutLen(ratio: Ratio, n: nat): nat {
    if ratio == 6 then 6 * n else 3 * n
  }

  lemma {:induction false} ConvolvedLength(ratio: Ratio, x: seq<Sample>)
    requires |x| >= HISTORY
    ensures |Convolved(ratio, x)| == OutLen(ratio, |x| - HISTORY)
    decreases |x|
  {
    if |x| >= COEFS {
      ConvolvedLength(ratio, x[1..]);
    }
  }

  function Recent(x: seq<Sample>): (r: seq<Sample>)
    requires |x| >= HISTORY
    ensures |r| == HISTORY
  {
    x[|x| - HISTORY..]
  }

  class Fir {
    const ratio: Ratio
    const history: array<Sample>

    ghost predicate Valid() {
      history.Length == HISTORY
    }

    constructor (ratio: Ratio)
      ensures Valid() && this.ratio == ratio && fresh(history) && history[..] == seq(HISTORY, _ => 0)
    {
      this.ratio := ratio;
      history := new Sample[HISTORY](_ => 0);
    }

    /** One output sample: 24 products, the first from the history as long as it lasts. */
    method Accumulate(src: array<Sample>, inIdx: nat, phase: nat) returns (out: int)
      requires Valid() && inIdx < src.Length && phase < ratio
      ensures out == Acc(Coefs(ratio, phase), (history[..] + src[..])[inIdx..inIdx + COEFS], COEFS)
    {
      ghost var w := (history[..] + src[..])[inIdx..inIdx + COEFS];
      var row := Coefs(ratio, phase);
      out := 0;
      for coefIdx := 0 to COEFS
        invariant out == Acc(row, w, coefIdx)
      {
        var realIdx := coefIdx + inIdx;
        var para := if realIdx < HISTORY then history[realIdx] else src[realIdx - HISTORY];
        WindowAt(history[..], src[..], inIdx, coefIdx);
        out := Wrap32(out + para * row(coefIdx));
      }
    }

    /** All phases of one input sample. */
    method Upsample(src: array<Sample>, dst: array<Sample>, inIdx: nat, outIdx: nat)
      requires Valid() && inIdx < src.Length && outIdx + ratio <= dst.Length && dst != history && dst != src
      modifies dst
      ensures dst[..outIdx + ratio] == old(dst[..outIdx]) + Phases(ratio, (history[..] + src[..])[inIdx..inIdx + COEFS])
    {
      ghost var w := (history[..] + src[..])[inIdx..inIdx + COEFS];
      for p := 0 to ratio
        invariant dst[..outIdx] == old(dst[..outIdx])
        invariant dst[outIdx..outIdx + p] == Phases(ratio, w)[..p]
      {
        var out := Accumulate(src, inIdx, p);
        dst[outIdx + p] := Wrap16(out / 0x1_0000);
      }
    }

    /** One buffer: its outputs, and then the history moved on, in place. */
    method Run(src: array<Sample>, dst: array<Sample>) returns (count: nat)
      requires Valid() && dst != history && dst != src && src != history && dst.Length >= OutLen(ratio, src.Length)
      modifies dst, history
      ensures count == OutLen(ratio, src.Length)
      ensures dst[..count] == Convolved(ratio, old(history[..]) + src[..])
      ensures history[..] == Recent(old(history[..]) + src[..])
    {
      ghost var x := history[..] + src[..];
      count := 0;
      for inIdx := 0 to src.Length
        invariant count == OutLen(ratio, inIdx) && history[..] + src[..] == x
        invariant Convolved(ratio, x) == dst[..count] + Convolved(ratio, x[inIdx..])
      {
        Upsample(src, dst, inIdx, count);
        Unfold(ratio, x, inIdx);
        count := count + ratio;
      }
      MoveHistory(src);
    }

    method MoveHistory(src: array<Sample>)
      requires Valid() && src != history
      modifies history
      ensures history[..] == Recent(old(history[..]) + src[..])
    {
      var n := src.Length;
      ghost var was := history[..];
      if n >= HISTORY {
        for i := 0 to HISTORY
          invariant history[..i] == src[n - HISTORY..n - HISTORY + i]
        {
          history[i] := src[n - HISTORY + i];
        }
        RecentOfLong(was, src[..]);
        assert history[..] == history[..HISTORY] && src[n - HISTORY..] == src[..][n - HISTORY..];
      } else {
        Slide(n);
        Fill(src, HISTORY - n);
        RecentOfShort(was, src[..]);
      }
    }

    /** The overlapping move to the left. */
    method Slide(n: nat)
      requires Valid() && n < HISTORY
      modifies history
      ensures history[..HISTORY - n] == old(history[n..])
    {
      for i := 0 to HISTORY - n
        invariant history[..i] == old(history[n..n + i])
        invariant forall k :: i <= k < HISTORY ==> history[k] == old(history[k])
      {
        history[i] := history[i + n];
      }
    }

    method Fill(src: array<Sample>, startIdx: nat)
      requires Valid() && src != history && startIdx + src.Length == HISTORY
      modifies history
      ensures history[..] == old(history[..startIdx]) + src[..]
    {
      for i := 0 to src.Length
        invariant history[..startIdx] == old(history[..startIdx])
        invariant history[startIdx..startIdx + i] == src[..i]
      {
        history[startIdx + i] := src[i];
      }
    }
  }

  lemma RecentOfLong(h: seq<Sample>, s: seq<Sample>)
    requires |h| == HISTORY && |s| >= HISTORY
    ensures Recent(h + s) == s[|s| - HISTORY..]
  {
  }

  lemma RecentOfShort(h: seq<Sample>, s: seq<Sample>)
    requires |h| == HISTORY && |s| < HISTORY
    ensures Recent(h + s) == h[|s|..] + s
  {
  }

  lemma WindowAt(h: seq<Sample>, s: seq<Sample>, i: nat, c: nat)
    requires |h| == HISTORY && i < |s| && c < COEFS
    ensures (h + s)[i..i + COEFS][c] == if c + i < HISTORY then h[c + i] else s[c + i - HISTORY]
  {
  }

  lemma Unfold(ratio: Ratio, x: seq<Sample>, i: nat)
    requires i + COEFS <= |x|
    ensures Convolved(ratio, x[i..]) == Phases(ratio, x[i..i + COEFS]) + Convolved(ratio, x[i + 1..])
  {
    assert x[i..][..COEFS] == x[i..i + COEFS] && x[i..][1..] == x[i + 1..];
  }

  // ----- Streaming -----

  /** Filtering in two buffers, the history carried over, is filtering in one. */
  lemma {:induction false} ConvolvedInTwo(ratio: Ratio, x: seq<Sample>, y: seq<Sample>)
    requires |x| >= HISTORY
    ensures Convolved(ratio, x + y) == Convolved(ratio, x) + Convolved(ratio, Recent(x) + y)
    ensures Recent(Recent(x) + y) == Recent(x + y)
    decreases |x|
  {
    if |x| == HISTORY {
      assert Recent(x) == x;
    } else {
      ConvolvedInTwo(ratio, x[1..], y);
      OneOff(x, y);
      FirstWindow(ratio, x + y, x[..COEFS], x[1..] + y);
      FirstWindow(ratio, x, x[..COEFS], x[1..]);
      Regroup(Phases(ratio, x[..COEFS]), Convolved(ratio, x[1..]), Convolved(ratio, Recent(x) + y));
    }
  }

  lemma FirstWindow(ratio: Ratio, x: seq<Sample>, w: seq<Sample>, rest: seq<Sample>)
    requires |x| >= COEFS && x[..COEFS] == w && x[1..] == rest
    ensures Convolved(ratio, x) == Phases(ratio, w) + Convolved(ratio, rest)
  {
  }

  lemma Regroup<T>(a: seq<T>, b: seq<T>, c: seq<T>)
    ensures a + (b + c) == (a + b) + c
  {
  }

  lemma OneOff(x: seq<Sample>, y: seq<Sample>)
    requires |x| >= COEFS
    ensures (x + y)[1..] == x[1..] + y && (x + y)[..COEFS] == x[..COEFS]
    ensures Recent(x[1..]) == Recent(x) && Recent(x[1..] + y) == Recent(x + y)
  {
  }

  function Joined(chunks: seq<seq<Sample>>): seq<Sample>
    decreases |chunks|
  {
    if chunks == [] then [] else chunks[0] + Joined(chunks[1..])
  }

  /** What the filter puts out for a sequence of buffers, and the history it is left with. */
  function Streamed(ratio: Ratio, history: seq<Sample>, chunks: seq<seq<Sample>>): (seq<Sample>, seq<Sample>)
    requires |history| == HISTORY
    decreases |chunks|
  {
    if chunks == [] then ([], history) else
    var x := history + chunks[0];
    var (out, last) := Streamed(ratio, Recent(x), chunks[1..]);
    (Convolved(ratio, x) + out, last)
  }

  /** However an input is cut into buffers, empty and short ones included, the outputs together are
      the one-shot convolution of the whole, and the history is its last 23 samples. */
  lemma {:induction false} StreamingIsOneShot(ratio: Ratio, history: seq<Sample>, chunks: seq<seq<Sample>>)
    requires |history| == HISTORY
    ensures Streamed(ratio, history, chunks)
      == (Convolved(ratio, history + Joined(chunks)), Recent(history + Joined(chunks)))
    decreases |chunks|
  {
    if chunks == [] {
      assert history + Joined(chunks) == history && Recent(history) == history;
    } else {
      var x, rest := history + chunks[0], Joined(chunks[1..]);
      StreamingIsOneShot(ratio, Recent(x), chunks[1..]);
      ConvolvedInTwo(ratio, x, rest);
      assert x + rest == history + Joined(chunks);
    }
  }

  // ----- The accumulator -----

  function Abs(x: int): nat {
    if x < 0 then -x else x
  }

  /** f(0) + ... + f(n - 1). */
  function Total(f: nat -> nat, n: nat): nat {
    if n == 0 then 0 else Total(f, n - 1) + f(n - 1)
  }

  function Sizes(row: Row): nat -> nat {
    k => Abs(row(k))
  }

  /** The exact sum of the first n products. */
  function Dot(row: Row, w: seq<Sample>, n: nat): int
    requires n <= |w|
  {
    if n == 0 then 0 else Dot(row, w, n - 1) + w[n - 1] * row(n - 1)
  }

  /** The largest magnitude for which no sum can leave 32 bits. */
  const LIMIT := 29835

  /** The largest sum of absolute coefficients of a phase. */
  const WORST := 71978

  predicate Moderate(w: seq<Sample>) {
    forall i :: 0 <= i < |w| ==> Abs(w[i]) <= LIMIT
  }

  lemma ProductBound(x: int, c: int, b: int)
    requires Abs(x) <= b
    ensures -(b * Abs(c)) <= x * c <= b * Abs(c)
  {
    if c >= 0 {
      Scale(x, b, c);
      Scale(-b, x, c);
    } else {
      Scale(-x, b, -c);
      Scale(-b, -x, -c);
    }
  }

  lemma Scale(x: int, y: int, c: nat)
    requires x <= y
    ensures x * c <= y * c
  {
  }

  lemma {:induction false} DotBound(row: Row, w: seq<Sample>, n: nat)
    requires n <= |w| && Moderate(w)
    ensures -(LIMIT * Total(Sizes(row), n)) <= Dot(row, w, n) <= LIMIT * Total(Sizes(row), n)
  {
    if n > 0 {
      DotBound(row, w, n - 1);
      ProductBound(w[n - 1], row(n - 1), LIMIT);
    }
  }

  lemma {:induction false} TotalGrows(f: nat -> nat, m: nat, n: nat)
    requires m <= n
    ensures Total(f, m) <= Total(f, n)
    decreases n - m
  {
    if m < n {
      TotalGrows(f, m + 1, n);
    }
  }

  function Six(f: nat -> nat, n: nat): nat {
    f(n) + f(n + 1) + f(n + 2) + f(n + 3) + f(n + 4) + f(n + 5)
  }

  lemma NextSix(f: nat -> nat, n: nat)
    ensures Total(f, n + 6) == Total(f, n) + Six(f, n)
  {
    assert Total(f, n + 2) == Total(f, n) + f(n) + f(n + 1);
    assert Total(f, n + 4) == Total(f, n + 2) + f(n + 2) + f(n + 3);
  }

  function Quarters(row: Row): nat {
    Six(Sizes(row), 0) + Six(Sizes(row), 6) + Six(Sizes(row), 12) + Six(Sizes(row), 18)
  }

  lemma InQuarters(row: Row, n: nat)
    requires n == COEFS
    ensures Total(Sizes(row), n) == Quarters(row)
  {
    FourSixes(Sizes(row), 0, n);
  }

  lemma FourSixes(f: nat -> nat, m: nat, n: nat)
    requires n == m + 24
    ensures Total(f, n) == Total(f, m) + Six(f, m) + Six(f, m + 6) + Six(f, m + 12) + Six(f, m + 18)
  {
    NextSix(f, m);
    NextSix(f, m + 6);
    NextSix(f, m + 12);
    NextSix(f, m + 18);
  }

  lemma Sum8k0()
    ensures Quarters(From8k0) == 47690
  {
    var f := Sizes(From8k0);
    assert forall k: nat :: f(k) == Abs(From8k0(k));
  }

  lemma Sum8k1()
    ensures Quarters(From8k1) == 62181
  {
    var f := Sizes(From8k1);
    assert forall k: nat :: f(k) == Abs(From8k1(k));
  }

  lemma Sum8k2()
    ensures Quarters(From8k2) == 71978
  {
    var f := Sizes(From8k2);
    assert forall k: nat :: f(k) == Abs(From8k2(k));
  }

  lemma Sum8k3()
    ensures Quarters(From8k3) == 71978
  {
    var f := Sizes(From8k3);
    assert forall k: nat :: f(k) == Abs(From8k3(k));
  }

  lemma Sum8k4()
    ensures Quarters(From8k4) == 62181
  {
    var f := Sizes(From8k4);
    assert forall k: nat :: f(k) == Abs(From8k4(k));
  }

  lemma Sum8k5()
    ensures Quarters(From8k5) == 47690
  {
    var f := Sizes(From8k5);
    assert forall k: nat :: f(k) == Abs(From8k5(k));
  }

  lemma Sum16k0()
    ensures Quarters(From16k0) == 55423
  {
    var f := Sizes(From16k0);
    assert forall k: nat :: f(k) == Abs(From16k0(k));
  }

  lemma Sum16k1()
    ensures Quarters(From16k1) == 70524
  {
    var f := Sizes(From16k1);
    assert forall k: nat :: f(k) == Abs(From16k1(k));
  }

  lemma Sum16k2()
    ensures Quarters(From16k2) == 55423
  {
    var f := Sizes(From16k2);
    assert forall k: nat :: f(k) == Abs(From16k2(k));
  }

  lemma QuartersBound(ratio: Ratio, phase: nat)
    requires phase < ratio
    ensures Quarters(Coefs(ratio, phase)) <= WORST
  {
    if ratio == 6 {
      match phase {
        case 0 => Sum8k0();
        case 1 => Sum8k1();
        case 2 => Sum8k2();
        case 3 => Sum8k3();
        case 4 => Sum8k4();
        case _ => Sum8k5();
      }
    } else {
      match phase {
        case 0 => Sum16k0();
        case 1 => Sum16k1();
        case _ => Sum16k2();
      }
    }
  }

  lemma RowBound(row: Row, n: nat)
    requires Quarters(row) <= WORST && n <= COEFS
    ensures Total(Sizes(row), n) <= WORST
  {
    var all := COEFS;
    InQuarters(row, all);
    TotalGrows(Sizes(row), n, all);
  }

  lemma WorstPhase(ratio: Ratio, phase: nat, n: nat)
    requires phase < ratio && n <= COEFS
    ensures Total(Sizes(Coefs(ratio, phase)), n) <= WORST
  {
    QuartersBound(ratio, phase);
    RowBound(Coefs(ratio, phase), n);
  }

  lemma NoWrap(x: int)
    requires -0x8000_0000 <= x < 0x8000_0000
    ensures Wrap32(x) == x && Wrap16(x / 0x1_0000) == x / 0x1_0000
  {
  }

  lemma DotFits(row: Row, w: seq<Sample>, n: nat)
    requires n <= |w| && Moderate(w) && Total(Sizes(row), n) <= WORST
    ensures -0x8000_0000 <= Dot(row, w, n) < 0x8000_0000
  {
    DotBound(row, w, n);
  }

  lemma {:induction false} AccIsDot(row: Row, w: seq<Sample>, n: nat)
    requires n <= |w| && Moderate(w) && Total(Sizes(row), n) <= WORST
    ensures Acc(row, w, n) == Dot(row, w, n)
  {
    if n > 0 {
      AccIsDot(row, w, n - 1);
      DotFits(row, w, n);
      NoWrap(Dot(row, w, n));
    }
  }

  /** With samples of magnitude up to 29835 no partial sum leaves 32 bits, in any phase, so the
      accumulator is the exact sum, and its high half fits the output sample. */
  lemma Exact(ratio: Ratio, phase: nat, w: seq<Sample>, n: nat)
    requires phase < ratio && n <= COEFS == |w| && Moderate(w)
    ensures -0x8000_0000 <= Dot(Coefs(ratio, phase), w, n) < 0x8000_0000
    ensures Acc(Coefs(ratio, phase), w, n) == Dot(Coefs(ratio, phase), w, n)
    ensures Out(Coefs(ratio, phase), w) == Dot(Coefs(ratio, phase), w, COEFS) / 0x1_0000
  {
    var row := Coefs(ratio, phase);
    WorstPhase(ratio, phase, n);
    WorstPhase(ratio, phase, COEFS);
    DotFits(row, w, n);
    DotFits(row, w, COEFS);
    AccIsDot(row, w, n);
    AccIsDot(row, w, COEFS);
    NoWrap(Dot(row, w, COEFS));
  }

  /** Samples of one magnitude that all push the sum the same way. */
  function Signs(row: Row, m: Sample, n: nat): (w: seq<Sample>)
    requires m > 0
    ensures |w| == n && forall k :: 0 <= k < n ==> w[k] == Signed(m, row(k))
  {
    seq<Sample>(n, k requires 0 <= k < n => Signed(m, row(k)))
  }

  function Signed(m: Sample, c: int): (x: Sample)
    requires m > 0
    ensures Abs(x) == m
  {
    if c < 0 then -m else m
  }

  lemma {:induction false} SignsAddUp(row: Row, m: Sample, all: nat, n: nat)
    requires m > 0 && n <= all
    ensures Dot(row, Signs(row, m, all), n) == m * Total(Sizes(row), n)
  {
    if n > 0 {
      SignsAddUp(row, m, all, n - 1);
      SignedProduct(m, row(n - 1));
      Distribute(m, Total(Sizes(row), n - 1), Abs(row(n - 1)));
    }
  }

  lemma SignedProduct(m: Sample, c: int)
    requires m > 0
    ensures Signed(m, c) * c == m * Abs(c)
  {
  }

  lemma Distribute(m: int, x: int, y: int)
    ensures m * (x + y) == m * x + m * y
  {
  }

  /** The bound is needed: one more, and in the worst phase there are samples whose sum leaves
      32 bits. */
  lemma BoundIsTight(row: Row, w: seq<Sample>, n: nat)
    requires n == COEFS && row == From8k2 && w == Signs(row, LIMIT + 1, n)
    ensures forall k :: 0 <= k < n ==> Abs(w[k]) == LIMIT + 1
    ensures Dot(row, w, n) >= 0x8000_0000
  {
    Sum8k2();
    HeavyRow(row, n);
  }

  lemma HeavyRow(row: Row, n: nat)
    requires n == COEFS && Quarters(row) == WORST
    ensures Dot(row, Signs(row, LIMIT + 1, n), n) >= 0x8000_0000
  {
    SignsAddUp(row, LIMIT + 1, n, n);
    InQuarters(row, n);
  }

  /** Output sample p of input sample i is the p-th phase over the window that ends there. */
  lemma {:induction false} OutputAt(ratio: Ratio, x: seq<Sample>, i: nat, p: nat)
    requires i + COEFS <= |x| && p < ratio
    ensures OutLen(ratio, i) + p < |Convolved(ratio, x)|
    ensures Convolved(ratio, x)[OutLen(ratio, i) + p] == Out(Coefs(ratio, p), x[i..i + COEFS])
    decreases i
  {
    var w, rest := x[..COEFS], x[1..];
    FirstWindow(ratio, x, w, rest);
    if i == 0 {
      assert x[0..COEFS] == w;
      assert OutLen(ratio, 0) + p == p;
    } else {
      OutputAt(ratio, rest, i - 1, p);
      SameWindow(x, i);
      NextLen(ratio, i);
      Beyond(Phases(ratio, w), Convolved(ratio, rest), OutLen(ratio, i - 1) + p);
    }
  }

  lemma SameWindow(x: seq<Sample>, i: nat)
    requires 0 < i && i + COEFS <= |x|
    ensures x[1..][i - 1..i - 1 + COEFS] == x[i..i + COEFS]
  {
  }

  lemma NextLen(ratio: Ratio, i: nat)
    requires i > 0
    ensures OutLen(ratio, i) == ratio + OutLen(ratio, i - 1)
  {
  }

  lemma Beyond<T>(a: seq<T>, b: seq<T>, k: nat)
    requires k < |b|
    ensures (a + b)[|a| + k] == b[k]
  {
  }

  /** As long as no sample exceeds the bound, every output of a stream is the exact sum of its
      window, divided by 65536 and rounded down. */
  lemma StreamExact(ratio: Ratio, x: seq<Sample>, i: nat, p: nat)
    requires Moderate(x) && i + COEFS <= |x| && p < ratio
    ensures OutLen(ratio, i) + p < |Convolved(ratio, x)|
    ensures Convolved(ratio, x)[OutLen(ratio, i) + p] == Dot(Coefs(ratio, p), x[i..i + COEFS], COEFS) / 0x1_0000
  {
    OutputAt(ratio, x, i, p);
    Exact(ratio, p, x[i..i + COEFS], COEFS);
  }

  /** The phases mirror each other, so the filter has linear phase. */
  lemma PhasesMirror(ratio: Ratio, phase: nat, k: nat)
    requires phase < ratio && k < COEFS
    ensures Coefs(ratio, phase)(k) == Coefs(ratio, ratio - 1 - phase)(COEFS - 1 - k)
  {
  }

  // ----- Which phase is which -----

  /** From phase to phase the main tap falls and the one after it rises: the later the output sample,
      the later the input it rests on. */
  lemma TapsMove(ratio: Ratio, p: nat, q: nat)
    requires p < q < ratio
    ensures Coefs(ratio, p)(11) > Coefs(ratio, q)(11)
    ensures Coefs(ratio, p)(12) < Coefs(ratio, q)(12)
  {
  }

  /** The main tap dominates all others of its phase but the one beside it. */
  lemma MainTaps(ratio: Ratio, p: nat, k: nat)
    requires p < ratio && k < COEFS && k != 11 && k != 12
    ensures Abs(Coefs(ratio, p)(k)) < Abs(Coefs(ratio, p)(11)) + Abs(Coefs(ratio, p)(12))
    ensures Abs(Coefs(ratio, p)(k)) <= 6431
  {
  }

  /** f(0) + ... + f(n - 1). */
  function Sum(f: nat -> int, n: nat): int {
    if n == 0 then 0 else Sum(f, n - 1) + f(n - 1)
  }

  function Weighted(row: Row): nat -> int {
    (k: nat) => var i: int := k; i * row(k)
  }

  function SixOf(f: nat -> int, n: nat): int {
    f(n) + f(n + 1) + f(n + 2) + f(n + 3) + f(n + 4) + f(n + 5)
  }

  function Whole(f: nat -> int): int {
    SixOf(f, 0) + SixOf(f, 6) + SixOf(f, 12) + SixOf(f, 18)
  }

  lemma SumSix(f: nat -> int, n: nat)
    ensures Sum(f, n + 6) == Sum(f, n) + SixOf(f, n)
  {
    assert Sum(f, n + 2) == Sum(f, n) + f(n) + f(n + 1);
    assert Sum(f, n + 4) == Sum(f, n + 2) + f(n + 2) + f(n + 3);
  }

  lemma SumWhole(f: nat -> int, m: nat, n: nat)
    requires m == 0 && n == m + COEFS
    ensures Sum(f, n) == Whole(f)
  {
    SumSix(f, m);
    SumSix(f, m + 6);
    SumSix(f, m + 12);
    SumSix(f, m + 18);
  }

  /** On a constant input a phase gives its coefficient sum, that many times. */
  lemma {:induction false} ConstantInput(row: Row, w: seq<Sample>, x: Sample, n: nat)
    requires n <= |w| && forall i :: 0 <= i < n ==> w[i] == x
    ensures Dot(row, w, n) == x * Sum(row, n)
  {
    if n > 0 {
      ConstantInput(row, w, x, n - 1);
      Distribute(x, Sum(row, n - 1), row(n - 1));
    }
  }

  /** On a rising input it gives the first moment of its coefficients. */
  lemma {:induction false} RisingInput(row: Row, w: seq<Sample>, n: nat)
    requires n <= |w| && forall i :: 0 <= i < n ==> w[i] == i
    ensures Dot(row, w, n) == Sum(Weighted(row), n)
  {
    if n > 0 {
      RisingInput(row, w, n - 1);
    }
  }

  lemma Gain8k0()
    ensures Whole(From8k0) == 31750
  {
    var f: nat -> int := From8k0;
    assert forall k: nat :: f(k) == From8k0(k);
  }

  lemma Moment8k0()
    ensures Whole(Weighted(From8k0)) == 352006
  {
    var f := Weighted(From8k0);
    assert forall k: nat :: f(k) == k * From8k0(k);
  }

  lemma Gain8k1()
    ensures Whole(From8k1) == 31753
  {
    var f: nat -> int := From8k1;
    assert forall k: nat :: f(k) == From8k1(k);
  }

  lemma Moment8k1()
    ensures Whole(Weighted(From8k1)) == 357228
  {
    var f := Weighted(From8k1);
    assert forall k: nat :: f(k) == k * From8k1(k);
  }

  lemma Gain8k2()
    ensures Whole(From8k2) == 31760
  {
    var f: nat -> int := From8k2;
    assert forall k: nat :: f(k) == From8k2(k);
  }

  lemma Moment8k2()
    ensures Whole(Weighted(From8k2)) == 362572
  {
    var f := Weighted(From8k2);
    assert forall k: nat :: f(k) == k * From8k2(k);
  }

  lemma Gain8k3()
    ensures Whole(From8k3) == 31760
  {
    var f: nat -> int := From8k3;
    assert forall k: nat :: f(k) == From8k3(k);
  }

  lemma Moment8k3()
    ensures Whole(Weighted(From8k3)) == 367908
  {
    var f := Weighted(From8k3);
    assert forall k: nat :: f(k) == k * From8k3(k);
  }

  lemma Gain8k4()
    ensures Whole(From8k4) == 31753
  {
    var f: nat -> int := From8k4;
    assert forall k: nat :: f(k) == From8k4(k);
  }

  lemma Moment8k4()
    ensures Whole(Weighted(From8k4)) == 373091
  {
    var f := Weighted(From8k4);
    assert forall k: nat :: f(k) == k * From8k4(k);
  }

  lemma Gain8k5()
    ensures Whole(From8k5) == 31750
  {
    var f: nat -> int := From8k5;
    assert forall k: nat :: f(k) == From8k5(k);
  }

  lemma Moment8k5()
    ensures Whole(Weighted(From8k5)) == 378244
  {
    var f := Weighted(From8k5);
    assert forall k: nat :: f(k) == k * From8k5(k);
  }

  lemma Gain16k0()
    ensures Whole(From16k0) == 31753
  {
    var f: nat -> int := From16k0;
    assert forall k: nat :: f(k) == From16k0(k);
  }

  lemma Moment16k0()
    ensures Whole(Weighted(From16k0)) == 354637
  {
    var f := Weighted(From16k0);
    assert forall k: nat :: f(k) == k * From16k0(k);
  }

  lemma Gain16k1()
    ensures Whole(From16k1) == 31760
  {
    var f: nat -> int := From16k1;
    assert forall k: nat :: f(k) == From16k1(k);
  }

  lemma Moment16k1()
    ensures Whole(Weighted(From16k1)) == 365240
  {
    var f := Weighted(From16k1);
    assert forall k: nat :: f(k) == k * From16k1(k);
  }

  lemma Gain16k2()
    ensures Whole(From16k2) == 31753
  {
    var f: nat -> int := From16k2;
    assert forall k: nat :: f(k) == From16k2(k);
  }

  lemma Moment16k2()
    ensures Whole(Weighted(From16k2)) == 375682
  {
    var f := Weighted(From16k2);
    assert forall k: nat :: f(k) == k * From16k2(k);
  }

  function Gain(ratio: Ratio, p: nat): int
    requires p < ratio
  {
    if ratio == 6 then
      match p case 0 => 31750 case 1 => 31753 case 2 => 31760 case 3 => 31760 case 4 => 31753 case _ => 31750
    else
      match p case 0 => 31753 case 1 => 31760 case _ => 31753
  }

  function Moment(ratio: Ratio, p: nat): int
    requires p < ratio
  {
    if ratio == 6 then
      match p case 0 => 352006 case 1 => 357228 case 2 => 362572 case 3 => 367908 case 4 => 373091 case _ => 378244
    else
      match p case 0 => 354637 case 1 => 365240 case _ => 375682
  }

  lemma WholeMoments(ratio: Ratio, p: nat)
    requires p < ratio
    ensures Whole(Coefs(ratio, p)) == Gain(ratio, p) && Whole(Weighted(Coefs(ratio, p))) == Moment(ratio, p)
  {
    if ratio == 6 {
      match p {
        case 0 =>
          Gain8k0();
          Moment8k0();
        case 1 =>
          Gain8k1();
          Moment8k1();
        case 2 =>
          Gain8k2();
          Moment8k2();
        case 3 =>
          Gain8k3();
          Moment8k3();
        case 4 =>
          Gain8k4();
          Moment8k4();
        case _ =>
          Gain8k5();
          Moment8k5();
      }
    } else {
      match p {
        case 0 =>
          Gain16k0();
          Moment16k0();
        case 1 =>
          Gain16k1();
          Moment16k1();
        case _ =>
          Gain16k2();
          Moment16k2();
      }
    }
  }

  /** What each phase puts out for a constant input: the level times its gain, which is the same for all
      phases up to one part in three thousand. */
  lemma ConstantResponse(ratio: Ratio, p: nat, w: seq<Sample>, x: Sample, n: nat)
    requires p < ratio && n == COEFS == |w| && Abs(x) <= LIMIT && forall i :: 0 <= i < n ==> w[i] == x
    ensures Out(Coefs(ratio, p), w) == x * Gain(ratio, p) / 0x1_0000
    ensures 31750 <= Gain(ratio, p) <= 31760
  {
    Exact(ratio, p, w, n);
    ConstantInput(Coefs(ratio, p), w, x, n);
    WholeMoments(ratio, p);
    SumWhole(Coefs(ratio, p), 0, n);
  }

  /** What each phase puts out for a rising input: its moment. From phase to phase it grows, so the
      outputs of an input sample come in the order of time. */
  lemma RisingResponse(ratio: Ratio, p: nat, w: seq<Sample>, n: nat)
    requires p < ratio && n == COEFS == |w| && forall i :: 0 <= i < n ==> w[i] == i
    ensures Dot(Coefs(ratio, p), w, n) == Moment(ratio, p)
    ensures forall q :: p < q < ratio ==> Moment(ratio, p) < Moment(ratio, q)
  {
    RisingInput(Coefs(ratio, p), w, n);
    WholeMoments(ratio, p);
    SumWhole(Weighted(Coefs(ratio, p)), 0, n);
  }
}
