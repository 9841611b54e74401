/** Taking the echo reference channel out of an interleaved capture buffer, in place
    (voicebtpcmplay_sco_dma_snapshot.cpp). */
module ChannelSplits {
  /** The microphone samples: of every channels + 1 samples the first ones. */
  function Mics(s: seq<int>, channels: nat): seq<int>
    decreases |s|
  {
    if |s| < channels + 1 then [] else s[..channels] + Mics(s[channels + 1..], channels)
  }

  /** The reference samples: of every channels + 1 samples the last one. */
  function Refs(s: seq<int>, channels: nat): seq<int>
    decreases |s|
  {
    if |s| < channels + 1 then [] else [s[channels]] + Refs(s[channels + 1..], channels)
  }

  /** n samples make whole groups of k. */
  predicate Whole(n: nat, k: nat)
    decreases n
  {
    n == 0 || (0 < k <= n && Whole(n - k, k))
  }

  lemma {:induction false} WholeModulo(n: nat, k: nat)
    requires k > 0
    ensures Whole(n, k) <==> n % k == 0
    decreases n
  {
    if n >= k {
      WholeModulo(n - k, k);
      Remainder(n, k);
    } else if n > 0 {
      Remainder(n, k);
    }
  }

  lemma Remainder(n: nat, k: nat)
    requires k > 0
    ensures n < k ==> n % k == n && n / k == 0
    ensures n >= k ==> n % k == (n - k) % k && n / k == (n - k) / k + 1
  {
    if n >= k {
      var q := (n - k) / k;
      assert n - k == q * k + (n - k) % k;
      assert (q + 1) * k == q * k + k;
      SameQuotient(n / k, n % k, q + 1, (n - k) % k, k);
    }
  }

  lemma SameQuotient(q: nat, r: nat, p: nat, s: nat, k: nat)
    requires r < k && s < k && q * k + r == p * k + s
    ensures q == p && r == s
  {
    if q < p {
      Apart(q, p, k);
    } else if p < q {
      Apart(p, q, k);
    }
  }

  lemma Apart(q: nat, p: nat, k: nat)
    requires q < p
    ensures q * k + k <= p * k
  {
    var d := p - q - 1;
    assert p == q + 1 + d;
    assert p * k == q * k + k + d * k;
  }

  /** How many microphone samples there are, as the source computes it. */
  lemma {:induction false} MicsLength(s: seq<int>, channels: nat)
    ensures |Mics(s, channels)| == |s| / (channels + 1) * channels
    ensures |Refs(s, channels)| == |s| / (channels + 1)
    decreases |s|
  {
    Remainder(|s|, channels + 1);
    if |s| >= channels + 1 {
      MicsLength(s[channels + 1..], channels);
      var q := (|s| - (channels + 1)) / (channels + 1);
      assert (q + 1) * channels == q * channels + channels;
    }
  }

  /** Putting the channels together again. */
  function Interleaved(mics: seq<int>, refs: seq<int>, channels: nat): seq<int>
    decreases |refs|
  {
    if refs == [] || |mics| < channels then [] else
    mics[..channels] + [refs[0]] + Interleaved(mics[channels..], refs[1..], channels)
  }

  /** Nothing is lost and nothing is mixed up: the two parts give back the buffer. */
  lemma {:induction false} SplitInverse(s: seq<int>, channels: nat)
    requires Whole(|s|, channels + 1)
    ensures Interleaved(Mics(s, channels), Refs(s, channels), channels) == s
    decreases |s|
  {
    if s != [] {
      var rest := s[channels + 1..];
      SplitInverse(rest, channels);
      var mics, refs := Mics(s, channels), Refs(s, channels);
      assert mics[..channels] == s[..channels] && mics[channels..] == Mics(rest, channels);
      assert refs[0] == s[channels] && refs[1..] == Refs(rest, channels);
      assert s == s[..channels] + [s[channels]] + rest;
    }
  }

  /** The reference channel, copied out. */
  method CopyReference(pcm: array<int>, channels: nat, echo: array<int>)
    requires Whole(pcm.Length, channels + 1) && pcm != echo && echo.Length >= |Refs(pcm[..], channels)|
    modifies echo
    ensures echo[..|Refs(pcm[..], channels)|] == Refs(pcm[..], channels)
  {
    ghost var was := pcm[..];
    assert was[0..] == was && echo[..][..0] == [];
    var g, j: nat := 0, 0;
    while g < pcm.Length
      invariant Copied(echo[..], was, g, j, channels)
      decreases pcm.Length - g
    {
      ghost var before := echo[..];
      CopiedNext(before, was, g, j, channels);
      echo[j] := pcm[g + channels];
      assert echo[..] == before[j := was[g + channels]];
      g, j := g + channels + 1, j + 1;
    }
    assert was[g..] == [];
  }

  /** echo begins with the j references of the groups before g. */
  ghost predicate Copied(echo: seq<int>, was: seq<int>, g: nat, j: nat, channels: nat) {
    && g <= |was| && Whole(|was| - g, channels + 1) && j <= |Refs(was, channels)| <= |echo|
    && Refs(was, channels) == echo[..j] + Refs(was[g..], channels)
  }

  lemma CopiedNext(echo: seq<int>, was: seq<int>, g: nat, j: nat, channels: nat)
    requires Copied(echo, was, g, j, channels) && g < |was|
    ensures g + channels < |was| && j < |echo|
    ensures Copied(echo[j := was[g + channels]], was, g + channels + 1, j + 1, channels)
  {
    NextGroup(was, g, channels);
    var r, rest := was[g + channels], Refs(was[g + channels + 1..], channels);
    Regroup(echo[..j], [r], rest);
    assert echo[j := r][..j + 1] == echo[..j] + [r];
  }

  lemma NextGroup(s: seq<int>, g: nat, channels: nat)
    requires g < |s| && Whole(|s| - g, channels + 1)
    ensures g + channels + 1 <= |s| && Whole(|s| - (g + channels + 1), channels + 1)
    ensures Mics(s[g..], channels) == s[g..g + channels] + Mics(s[g + channels + 1..], channels)
    ensures Refs(s[g..], channels) == [s[g + channels]] + Refs(s[g + channels + 1..], channels)
  {
    assert s[g..][..channels] == s[g..g + channels];
    assert s[g..][channels + 1..] == s[g + channels + 1..];
  }

  /** pcm is was with the groups before i compacted into its first j samples. */
  ghost predicate Compacted(pcm: seq<int>, was: seq<int>, i: nat, j: nat, channels: nat) {
    && j <= i <= |pcm| == |was| && Whole(|was| - i, channels + 1)
    && Mics(was, channels) == pcm[..j] + Mics(was[i..], channels)
    && pcm[i..] == was[i..]
  }

  lemma CompactedStart(was: seq<int>, channels: nat)
    requires Whole(|was|, channels + 1)
    ensures Compacted(was, was, 0, 0, channels)
  {
    assert was[0..] == was && was[..0] == [];
  }

  lemma CompactedEnd(pcm: seq<int>, was: seq<int>, i: nat, j: nat, channels: nat)
    requires Compacted(pcm, was, i, j, channels) && i == |pcm|
    ensures j == |Mics(was, channels)| == |was| / (channels + 1) * channels <= |was|
    ensures pcm[..j] == Mics(was, channels)
  {
    MicsLength(was, channels);
  }

  lemma CompactedNext(before: seq<int>, after: seq<int>, was: seq<int>, i: nat, j: nat, channels: nat)
    requires Compacted(before, was, i, j, channels) && i < |was| && |after| == |before| && i + channels <= |before|
    requires after[..j + channels] == before[..j] + before[i..i + channels]
    requires after[i + channels..] == before[i + channels..]
    ensures Compacted(after, was, i + channels + 1, j + channels, channels)
  {
    NextGroup(was, i, channels);
    assert before[i..i + channels] == before[i..][..channels] == was[i..i + channels];
    Regroup(before[..j], was[i..i + channels], Mics(was[i + channels + 1..], channels));
    assert after[i + channels + 1..] == after[i + channels..][1..] == before[i..][channels + 1..];
  }

  /** The microphone samples, moved down over the reference ones; no sample is read after it was
      overwritten. */
  method Compact(pcm: array<int>, channels: nat) returns (len: nat)
    requires Whole(pcm.Length, channels + 1)
    modifies pcm
    ensures len == |Mics(old(pcm[..]), channels)| <= pcm.Length
    ensures pcm[..len] == Mics(old(pcm[..]), channels)
  {
    ghost var was := pcm[..];
    CompactedStart(was, channels);
    var i, j: nat := 0, 0;
    while i < pcm.Length
      invariant Compacted(pcm[..], was, i, j, channels)
      decreases pcm.Length - i
    {
      ghost var before := pcm[..];
      NextGroup(was, i, channels);
      MoveGroup(pcm, i, j, channels);
      CompactedNext(before, pcm[..], was, i, j, channels);
      i, j := i + channels + 1, j + channels;
    }
    CompactedEnd(pcm[..], was, i, j, channels);
    len := pcm.Length / (channels + 1) * channels;
  }

  lemma Regroup<T>(a: seq<T>, b: seq<T>, c: seq<T>)
    ensures a + (b + c) == (a + b) + c
  {
  }

  method MoveGroup(pcm: array<int>, i: nat, j: nat, channels: nat)
    requires j <= i && i + channels <= pcm.Length
    modifies pcm
    ensures pcm[..][..j + channels] == old(pcm[..])[..j] + old(pcm[..])[i..i + channels]
    ensures pcm[..][i + channels..] == old(pcm[..])[i + channels..]
  {
    for k := 0 to channels
      invariant pcm[..j] == old(pcm[..j])
      invariant pcm[j..j + k] == old(pcm[i..i + k])
      invariant forall m :: i + k <= m < pcm.Length ==> pcm[m] == old(pcm[m])
    {
      pcm[j + k] := pcm[i + k];
    }
  }
}
