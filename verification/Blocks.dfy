/** Sequences laid out in blocks of sixty. */
module Blocks {
  const SIZE := 60

  function Flat<T>(bs: seq<seq<T>>): seq<T>
    decreases |bs|
  {
    if bs == [] then [] else bs[0] + Flat(bs[1..])
  }

  predicate Even<T>(bs: seq<seq<T>>) {
    forall i :: 0 <= i < |bs| ==> |bs[i]| == SIZE
  }

  lemma {:induction false} FlatConcat<T>(a: seq<seq<T>>, b: seq<seq<T>>)
    ensures Flat(a + b) == Flat(a) + Flat(b)
    decreases |a|
  {
    if a == [] {
      assert a + b == b;
    } else {
      FlatConcat(a[1..], b);
      assert (a + b)[1..] == a[1..] + b;
    }
  }

  lemma {:induction false} FlatLength<T>(bs: seq<seq<T>>)
    requires Even(bs)
    ensures |Flat(bs)| == SIZE * |bs|
    decreases |bs|
  {
    if bs != [] {
      FlatLength(bs[1..]);
    }
  }

  lemma {:induction false} FlatAt<T>(bs: seq<seq<T>>, k: nat)
    requires Even(bs) && k < |bs|
    ensures SIZE * (k + 1) <= |Flat(bs)| && Flat(bs)[SIZE * k..SIZE * (k + 1)] == bs[k]
    decreases k
  {
    FlatLength(bs);
    var rest := Flat(bs[1..]);
    if k == 0 {
      assert (bs[0] + rest)[..SIZE] == bs[0];
    } else {
      FlatAt(bs[1..], k - 1);
      assert (bs[0] + rest)[SIZE * k..SIZE * (k + 1)] == rest[SIZE * (k - 1)..SIZE * k];
    }
  }

  /** A window that straddles a block boundary takes the end of one block and the start of the next. */
  lemma FlatAcross<T>(bs: seq<seq<T>>, k: nat, off: nat)
    requires Even(bs) && k + 1 < |bs| && off <= SIZE
    ensures SIZE * (k + 2) <= |Flat(bs)|
    ensures Flat(bs)[SIZE * (k + 1) - off..SIZE * (k + 2) - off] == bs[k][SIZE - off..] + bs[k + 1][..SIZE - off]
  {
    FlatAt(bs, k);
    FlatAt(bs, k + 1);
    var s, cut := Flat(bs), SIZE * (k + 1);
    assert s[cut - SIZE..cut] == bs[k] && s[cut..cut + SIZE] == bs[k + 1];
    Straddle(s, cut, off);
  }

  lemma Straddle<T>(s: seq<T>, cut: nat, off: nat)
    requires off <= SIZE <= cut && cut + SIZE <= |s|
    ensures s[cut - off..cut - off + SIZE] == s[cut - SIZE..cut][SIZE - off..] + s[cut..cut + SIZE][..SIZE - off]
  {
  }

  predicate Holds<T(==)>(s: seq<T>, at: nat, b: seq<T>) {
    at + |b| <= |s| && s[at..at + |b|] == b
  }

  /** Blocks found one after the other are there end to end. */
  lemma {:induction false} FlatFrom<T>(s: seq<T>, at: nat, bs: seq<seq<T>>)
    requires Even(bs) && at <= |s| && forall j :: 0 <= j < |bs| ==> Holds(s, at + SIZE * j, bs[j])
    ensures at + SIZE * |bs| <= |s| && s[at..at + SIZE * |bs|] == Flat(bs)
    decreases |bs|
  {
    if bs != [] {
      HoldsRest(s, at, bs);
      FlatFrom(s, at + SIZE, bs[1..]);
      Join(s, at, at + SIZE, at + SIZE * |bs|);
    }
  }

  lemma HoldsRest<T>(s: seq<T>, at: nat, bs: seq<seq<T>>)
    requires bs != [] && forall j :: 0 <= j < |bs| ==> Holds(s, at + SIZE * j, bs[j])
    ensures Holds(s, at, bs[0]) && forall j :: 0 <= j < |bs[1..]| ==> Holds(s, at + SIZE + SIZE * j, bs[1..][j])
  {
    assert Holds(s, at + SIZE * 0, bs[0]);
    forall j | 0 <= j < |bs[1..]|
      ensures Holds(s, at + SIZE + SIZE * j, bs[1..][j])
    {
      assert Holds(s, at + SIZE * (j + 1), bs[j + 1]);
    }
  }

  lemma Within<T>(s: seq<T>, a: nat, b: nat, c: nat, d: nat)
    requires a <= b <= |s| && c <= d <= b - a
    ensures s[a..b][c..d] == s[a + c..a + d]
  {
    forall i | 0 <= i < d - c
      ensures s[a..b][c..d][i] == s[a + c..a + d][i]
    {
      assert s[a..b][c + i] == s[a + c + i];
    }
  }

  lemma Join<T>(s: seq<T>, a: nat, b: nat, c: nat)
    requires a <= b <= c <= |s|
    ensures s[a..b] + s[b..c] == s[a..c]
  {
  }
}
