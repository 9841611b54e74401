/** The echo reference of a call: the frame queue between playback and capture (voicebtpcmplay.cpp). */
module EchoQueues {
  import opened Bytes
  import opened Rings

  /** f frames of k bytes. */
  function Span(f: nat, k: nat): nat {
    if f == 0 then 0 else Span(f - 1, k) + k
  }

  lemma {:induction false} SpanGrows(f: nat, g: nat, k: nat)
    requires f < g
    ensures Span(f, k) + k <= Span(g, k)
    decreases g
  {
    if f + 1 < g {
      SpanGrows(f, g - 1, k);
    }
  }

  /** pos is a frame boundary inside a ring of size bytes, which holds whole frames of k bytes. */
  ghost predicate OnFrame(pos: nat, size: nat, k: nat) {
    exists f: nat, n: nat :: IsFrame(pos, f, size, n, k)
  }

  predicate IsFrame(pos: nat, f: nat, size: nat, n: nat, k: nat) {
    f < n && pos == Span(f, k) && size == Span(n, k)
  }

  function NextPos(pos: nat, size: nat, k: nat): nat {
    if pos + k >= size then 0 else pos + k
  }

  lemma NextFrame(pos: nat, size: nat, k: nat)
    requires OnFrame(pos, size, k) && k > 0
    ensures pos + k <= size && OnFrame(NextPos(pos, size, k), size, k)
  {
    var f: nat, n: nat :| IsFrame(pos, f, size, n, k);
    SpanGrows(f, n, k);
    if f + 1 < n {
      SpanGrows(f + 1, n, k);
      assert IsFrame(pos + k, f + 1, size, n, k);
    } else {
      assert IsFrame(0, 0, size, n, k);
    }
  }

  /** Two different boundaries are at least a frame apart. */
  lemma FramesApart(p: nat, q: nat, size: nat, k: nat)
    requires OnFrame(p, size, k) && OnFrame(q, size, k) && p < q
    ensures q - p >= k
  {
    var f: nat, n: nat :| IsFrame(p, f, size, n, k);
    var g: nat, m: nat :| IsFrame(q, g, size, m, k);
    if f < g {
      SpanGrows(f, g, k);
    } else if g < f {
      SpanGrows(g, f, k);
      assert false;
    }
  }

  function QueueLen(rpos: nat, wpos: nat, full: bool, size: nat): nat
    requires rpos <= size
  {
    if rpos == wpos then if full then size else 0
    else if rpos < wpos then wpos - rpos
    else size + wpos - rpos
  }

  /** Whole frames: a ring that is not empty holds a frame, one that is not full has room for one. */
  lemma WholeFrames(rpos: nat, wpos: nat, full: bool, size: nat, k: nat)
    requires OnFrame(rpos, size, k) && OnFrame(wpos, size, k) && k > 0 && rpos <= size && wpos < size
    requires full ==> rpos == wpos
    ensures var len := QueueLen(rpos, wpos, full, size);
      && len <= size
      && (full <==> len + k > size)
      && (rpos == wpos && !full <==> len < k)
  {
    NextFrame(rpos, size, k);
    NextFrame(wpos, size, k);
    if rpos < wpos {
      FramesApart(rpos, wpos, size, k);
    } else if wpos < rpos {
      FramesApart(wpos, rpos, size, k);
    }
  }

  /** A ring of whole frames, with a flag that tells a full ring from an empty one. */
  class EchoQueue {
    const queue: array<Byte>
    const frameLen: nat
    var rpos: nat
    var wpos: nat
    var full: bool

    ghost predicate Valid()
      reads this
    {
      && frameLen > 0 && rpos < queue.Length && wpos < queue.Length
      && OnFrame(rpos, queue.Length, frameLen) && OnFrame(wpos, queue.Length, frameLen)
      && (full ==> rpos == wpos)
    }

    /** The bytes queued, oldest first. */
    ghost function Contents(): (s: seq<Byte>)
      requires Valid()
      reads this, queue
      ensures |s| == QueueLen(rpos, wpos, full, queue.Length)
    {
      Taken(queue[..], rpos, QueueLen(rpos, wpos, full, queue.Length))
    }

    constructor (frameLen: nat, slots: nat)
      requires frameLen > 0 && slots > 0
      ensures Valid() && fresh(queue) && Contents() == [] && this.frameLen == frameLen
    {
      this.frameLen := frameLen;
      queue := new Byte[Span(slots, frameLen)](_ => 0);
      rpos, wpos, full := 0, 0, false;
      new;
      assert IsFrame(0, 0, queue.Length, slots, frameLen);
      NextFrame(0, queue.Length, frameLen);
    }

    /** memcpy to the write position. */
    method Store(frame: seq<Byte>)
      requires wpos + |frame| <= queue.Length && wpos < queue.Length
      modifies queue
      ensures queue[..] == Written(old(queue[..]), wpos, frame)
    {
      forall i | 0 <= i < |frame| {
        queue[wpos + i] := frame[i];
      }
      WrittenInSpans(old(queue[..]), wpos, frame);
    }

    /** Playback: queues one frame. It is refused, where the source stops on a failed assertion,
        exactly when the ring is full. */
    method Push(frame: seq<Byte>) returns (ok: bool)
      requires Valid() && |frame| == frameLen
      modifies this`wpos, this`full, queue
      ensures ok <==> !old(full)
      ensures Valid() && Contents() == if ok then old(Contents()) + frame else old(Contents())
    {
      var len := QueueLen(rpos, wpos, full, queue.Length);
      WholeFrames(rpos, wpos, full, queue.Length, frameLen);
      if len + frameLen > queue.Length {
        return false;
      }
      NextFrame(wpos, queue.Length, frameLen);
      Pushed(queue[..], rpos, wpos, frame);
      Store(frame);
      wpos := wpos + frameLen;
      if wpos >= queue.Length {
        wpos := 0;
      }
      if rpos == wpos {
        full := true;
      }
      return true;
    }

    /** Capture: takes the oldest frame, handing out the place where it lies. It is refused exactly
        when the ring is empty. */
    method Pop() returns (ok: bool, at: nat)
      requires Valid()
      modifies this`rpos, this`full
      ensures ok <==> old(Contents()) != []
      ensures Valid() && (!ok ==> Contents() == old(Contents()))
      ensures at + frameLen <= queue.Length
      ensures ok ==> frameLen <= old(|Contents()|) && queue[at..at + frameLen] == old(Contents())[..frameLen]
      ensures ok ==> Contents() == old(Contents())[frameLen..]
    {
      at := rpos;
      var len := QueueLen(rpos, wpos, full, queue.Length);
      WholeFrames(rpos, wpos, full, queue.Length, frameLen);
      NextFrame(rpos, queue.Length, frameLen);
      if len < frameLen {
        return false, at;
      }
      Popped(queue[..], rpos, wpos, full, frameLen);
      ghost var s, next := Contents(), NextPos(rpos, queue.Length, frameLen);
      assert Taken(queue[..], next, QueueLen(next, wpos, false, queue.Length)) == s[frameLen..];
      if rpos == wpos {
        full := false;
      }
      rpos := rpos + frameLen;
      if rpos >= queue.Length {
        rpos := 0;
      }
      assert rpos == next && !full;
      return true, at;
    }
  }

  lemma Pushed(base: seq<Byte>, rpos: nat, wpos: nat, frame: seq<Byte>)
    requires rpos < |base| && wpos < |base| && |frame| > 0 && wpos + |frame| <= |base|
    requires QueueLen(rpos, wpos, false, |base|) + |frame| <= |base|
    ensures var next := NextPos(wpos, |base|, |frame|); var len := QueueLen(rpos, next, rpos == next, |base|);
      && len == QueueLen(rpos, wpos, false, |base|) + |frame|
      && Taken(Written(base, wpos, frame), rpos, len) == Taken(base, rpos, QueueLen(rpos, wpos, false, |base|)) + frame
  {
    WriteAppends(base, rpos, QueueLen(rpos, wpos, false, |base|), frame);
  }

  lemma Popped(base: seq<Byte>, rpos: nat, wpos: nat, full: bool, k: nat)
    requires rpos < |base| && wpos < |base| && k > 0 && rpos + k <= |base| && (full ==> rpos == wpos)
    requires k <= QueueLen(rpos, wpos, full, |base|) <= |base|
    ensures var next := NextPos(rpos, |base|, k); var len := QueueLen(rpos, wpos, full, |base|);
      && next < |base| && QueueLen(next, wpos, false, |base|) == len - k
      && base[rpos..rpos + k] == Taken(base, rpos, len)[..k] && Taken(base, next, len - k) == Taken(base, rpos, len)[k..]
  {
    var len := QueueLen(rpos, wpos, full, |base|);
    TakenDrops(base, rpos, len, k);
    TakenInSpans(base, rpos, k);
  }
}
