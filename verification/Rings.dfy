/** Positions and contents of a ring laid out in a sequence. */
module Rings {
  /** The place k steps after pos, for k up to the size. */
  function Ahead(size: nat, pos: nat, k: nat): nat {
    if pos + k >= size then pos + k - size else pos + k
  }

  /** How many steps lead from pos to i. */
  function Steps(size: nat, pos: nat, i: nat): nat
    requires pos <= size
  {
    if i >= pos then i - pos else size - pos + i
  }

  lemma AheadSteps(size: nat, pos: nat, i: nat)
    requires pos < size && i < size
    ensures Steps(size, pos, i) < size && Ahead(size, pos, Steps(size, pos, i)) == i
  {
  }

  lemma StepsAhead(size: nat, pos: nat, k: nat)
    requires pos < size && k < size
    ensures Ahead(size, pos, k) < size && Steps(size, pos, Ahead(size, pos, k)) == k
  {
  }

  lemma AheadTwice(size: nat, pos: nat, j: nat, k: nat)
    requires pos < size && j + k <= size
    ensures Ahead(size, Ahead(size, pos, j), k) == Ahead(size, pos, j + k)
  {
  }

  /** The n elements from pos on. */
  function Taken<T>(base: seq<T>, pos: nat, n: nat): (r: seq<T>)
    requires n == 0 || (pos < |base| && n <= |base|)
    ensures |r| == n && forall i :: 0 <= i < n ==> r[i] == base[Ahead(|base|, pos, i)]
  {
    seq(n, i requires 0 <= i < n => base[Ahead(|base|, pos, i)])
  }

  /** The ring with s stored from pos on. */
  function Written<T>(base: seq<T>, pos: nat, s: seq<T>): (r: seq<T>)
    requires pos <= |base| && |s| <= |base|
    ensures |r| == |base|
    ensures forall i :: 0 <= i < |base| ==> r[i] == if Steps(|base|, pos, i) < |s| then s[Steps(|base|, pos, i)] else base[i]
  {
    seq(|base|, i requires 0 <= i < |base| => if Steps(|base|, pos, i) < |s| then s[Steps(|base|, pos, i)] else base[i])
  }

  /** Storing after the elements held, within the size, appends, and keeps what was held. */
  lemma WriteAppends<T>(base: seq<T>, pos: nat, n: nat, s: seq<T>)
    requires pos < |base| && n + |s| <= |base|
    ensures Ahead(|base|, pos, n) < |base|
    ensures Taken(Written(base, Ahead(|base|, pos, n), s), pos, n + |s|) == Taken(base, pos, n) + s
  {
    var at := Ahead(|base|, pos, n);
    var r := Written(base, at, s);
    forall i | 0 <= i < n + |s|
      ensures Taken(r, pos, n + |s|)[i] == (Taken(base, pos, n) + s)[i]
    {
      AppendAt(|base|, pos, n, |s|, i);
    }
  }

  /** The i-th place from pos lies among the k places after the first n exactly when i >= n. */
  lemma AppendAt(size: nat, pos: nat, n: nat, k: nat, i: nat)
    requires pos < size && n + k <= size && i < n + k
    ensures Ahead(size, pos, n) < size && Ahead(size, pos, i) < size
    ensures var st := Steps(size, Ahead(size, pos, n), Ahead(size, pos, i)); if i < n then st >= k else st == i - n
  {
  }

  lemma TakenDrops<T>(base: seq<T>, pos: nat, n: nat, k: nat)
    requires pos < |base| && n <= |base| && k <= n
    ensures Taken(base, Ahead(|base|, pos, k), n - k) == Taken(base, pos, n)[k..]
    ensures Taken(base, pos, k) == Taken(base, pos, n)[..k]
  {
    forall i | 0 <= i < n - k
      ensures Taken(base, Ahead(|base|, pos, k), n - k)[i] == Taken(base, pos, n)[k..][i]
    {
      AheadTwice(|base|, pos, k, i);
    }
  }

  /** In two spans: up to the end, and from the start. */
  lemma TakenInSpans<T>(base: seq<T>, pos: nat, n: nat)
    requires pos < |base| && n <= |base|
    ensures pos + n <= |base| ==> Taken(base, pos, n) == base[pos..pos + n]
    ensures pos + n > |base| ==> Taken(base, pos, n) == base[pos..] + base[..pos + n - |base|]
  {
  }

  lemma WrittenInSpans<T>(base: seq<T>, pos: nat, s: seq<T>)
    requires pos < |base| && |s| <= |base|
    ensures pos + |s| <= |base| ==> Written(base, pos, s) == base[..pos] + s + base[pos + |s|..]
    ensures pos + |s| >= |base| ==>
      Written(base, pos, s) == s[|base| - pos..] + base[pos + |s| - |base|..pos] + s[..|base| - pos]
  {
  }

  /** Storing in two goes. */
  lemma WrittenTwice<T>(base: seq<T>, pos: nat, s: seq<T>, t: seq<T>)
    requires pos < |base| && |s| + |t| <= |base| && |s| < |base|
    ensures Ahead(|base|, pos, |s|) < |base|
    ensures Written(Written(base, pos, s), Ahead(|base|, pos, |s|), t) == Written(base, pos, s + t)
  {
    forall i | 0 <= i < |base|
      ensures Written(Written(base, pos, s), Ahead(|base|, pos, |s|), t)[i] == Written(base, pos, s + t)[i]
    {
      TwiceAt(|base|, pos, |s|, |t|, i);
    }
  }

  lemma TwiceAt(size: nat, pos: nat, k: nat, m: nat, i: nat)
    requires pos < size && k + m <= size && k < size && i < size
    ensures var st, st' := Steps(size, pos, i), Steps(size, Ahead(size, pos, k), i);
      (st' < m <==> k <= st < k + m) && (st' < m ==> st == k + st')
  {
  }
}
