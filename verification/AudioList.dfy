/** The list of audio streams and prompts that wait to be played (app_audio.cpp), over the list of
    utils/list/list.c and its pool of status blocks. */
module AudioLists {
  const MAX_AUDIO_BUF_LIST := 20
  const POOL := 20

  const PLAY_BACK := 0x80
  const INCOMING_CALL := 21

  /** The optional streams a build can contain. */
  datatype Build = Build(voicePath: bool, aiVoice: bool, thirdParty: bool)

  datatype Status = Status(id: nat, audId: nat, info: nat) {
    predicate Prompt() { id == PLAY_BACK }
    predicate Incoming() { Prompt() && audId == INCOMING_CALL }

    /** The call and music streams. */
    predicate Stream(b: Build) {
      || id in {0x01, 0x02, 0x04, 0x08, 0x10, 0x20}
      || (b.voicePath && id == 0x1000) || (b.aiVoice && id == 0x2000) || (b.thirdParty && id == 0x4000)
    }
  }

  datatype Option = None | Some(s: Status)
  datatype Pos = Head | Tail | Other

  // ----- What each operation does to the list -----

  /** The place of the first prompt, or the length. */
  function FirstPrompt(l: seq<Status>): (k: nat)
    ensures k <= |l| && (forall i :: 0 <= i < k ==> !l[i].Prompt()) && (k < |l| ==> l[k].Prompt())
    decreases |l|
  {
    if l == [] || l[0].Prompt() then 0 else 1 + FirstPrompt(l[1..])
  }

  predicate StreamExists(l: seq<Status>, b: Build) {
    exists i :: 0 <= i < |l| && l[i].Stream(b)
  }

  /** A prompt that is not taken: a second ring, or any other prompt when three entries wait. */
  predicate Filtered(l: seq<Status>, s: Status) {
    s.Prompt() && if s.Incoming() then exists i :: 0 <= i < |l| && l[i].Incoming() else |l| >= 3
  }

  /** A stream goes to the front and a prompt to the back. At the limit with a prompt waiting, the
      list is cleared for a ring, unless a stream waits: then the copy of the front entry that the
      source tries to make finds no free block. */
  function Append(l: seq<Status>, s: Status, b: Build): (r: (bool, seq<Status>))
  {
    if s.Prompt() then
      if Filtered(l, s) then (false, l)
      else if FirstPrompt(l) == |l| then if |l| < POOL then (true, l + [s]) else (false, l)
      else if |l| < MAX_AUDIO_BUF_LIST then (false, l + [s])
      else if StreamExists(l, b) then (false, l)
      else (true, [s])
    else if |l| < POOL then (true, [s] + l)
    else (false, l)
  }

  function Without(l: seq<Status>, i: nat): seq<Status>
    requires i < |l|
  {
    l[..i] + l[i + 1..]
  }

  /** The list after a removal, and what is to be played next. */
  function Remove(l: seq<Status>, s: Status, pos: Pos, popNext: bool, b: Build): (r: (Option, seq<Status>))
  {
    if l == [] then (None, l)
    else if s.Prompt() then
      var i := FirstPrompt(l);
      if i == |l| then (None, l) else
      var next := if popNext then Some(l[i]) else if i + 1 < |l| then Some(l[i + 1])
        else if StreamExists(l, b) then Some(l[0]) else None;
      (next, Without(l, i))
    else if !StreamExists(l, b) || pos == Other then (None, l)
    else (None, if pos == Head then l[1..] else l[..|l| - 1])
  }

  // ----- The order of the list -----

  predicate Ordered(l: seq<Status>) {
    forall i :: FirstPrompt(l) <= i < |l| ==> l[i].Prompt()
  }

  function Prompts(l: seq<Status>): seq<Status> { l[FirstPrompt(l)..] }
  function Others(l: seq<Status>): seq<Status> { l[..FirstPrompt(l)] }

  function Rings(l: seq<Status>): nat
    decreases |l|
  {
    if l == [] then 0 else (if l[0].Incoming() then 1 else 0) + Rings(l[1..])
  }

  function PlainPrompts(l: seq<Status>): nat
    decreases |l|
  {
    if l == [] then 0 else (if l[0].Prompt() && !l[0].Incoming() then 1 else 0) + PlainPrompts(l[1..])
  }

  /** Others first, then prompts; at most one ring and at most three other prompts; never more
      entries than the pool has blocks. */
  predicate Good(l: seq<Status>) {
    Ordered(l) && Rings(l) <= 1 && PlainPrompts(l) <= 3 && |l| <= POOL
  }

  // ----- The list as the source runs it -----

  class AudioList {
    var list: seq<Status>
    /** Blocks taken from the pool. */
    var used: nat
    const build: Build

    ghost predicate Valid()
      reads this
    {
      Good(list) && used == |list|
    }

    constructor (build: Build)
      ensures Valid() && list == [] && this.build == build
    {
      list, used := [], 0;
      this.build := build;
    }

    method Alloc() returns (ok: bool)
      modifies this`used
      ensures ok <==> old(used) < POOL
      ensures used == if ok then old(used) + 1 else old(used)
    {
      ok := used < POOL;
      if ok {
        used := used + 1;
      }
    }

    method CheckStream() returns (found: bool)
      ensures found <==> StreamExists(list, build)
    {
      for i := 0 to |list|
        invariant forall k :: 0 <= k < i ==> !list[k].Stream(build)
      {
        if list[i].Stream(build) {
          return true;
        }
      }
      return false;
    }

    method CheckPlayback() returns (found: bool)
      ensures found <==> FirstPrompt(list) < |list|
    {
      for i := 0 to |list|
        invariant forall k :: 0 <= k < i ==> !list[k].Prompt()
      {
        if list[i].Prompt() {
          return true;
        }
      }
      return false;
    }

    method CheckFilter(s: Status) returns (filtered: bool)
      ensures filtered <==> Filtered(list, s)
    {
      if s.Prompt() {
        if s.audId == INCOMING_CALL {
          for i := 0 to |list|
            invariant forall k :: 0 <= k < i ==> !list[k].Incoming()
          {
            if list[i].Prompt() && list[i].audId == INCOMING_CALL {
              return true;
            }
          }
        } else {
          var cnt := 0;
          for i := 0 to |list|
            invariant cnt == i <= 2
          {
            cnt := cnt + 1;
            if cnt - 1 > 1 {
              return true;
            }
          }
        }
      }
      return false;
    }

    method Clear()
      modifies this`list, this`used
      requires Valid()
      ensures Valid() && list == []
    {
      used := used - |list|;
      list := [];
    }

    method AppendStatus(s: Status) returns (ret: bool)
      requires Valid()
      modifies this`list, this`used
      ensures Valid() && (ret, list) == Append(old(list), s, build)
    {
      AppendKeeps(list, s, build);
      var toHead := false;
      ret := true;
      if s.Prompt() {
        var filtered := CheckFilter(s);
        if filtered {
          return false;
        }
        var playback := CheckPlayback();
        if playback {
          if |list| >= MAX_AUDIO_BUF_LIST {
            var stream := CheckStream();
            if stream {
              var got := Alloc();
              if !got {
                return false;
              }
              assert false;
            }
            Clear();
          } else {
            ret := false;
          }
        }
      } else {
        toHead := true;
      }
      var ok := Alloc();
      if !ok {
        return false;
      }
      if toHead {
        list := [s] + list;
      } else {
        list := list + [s];
      }
      assert [] + [s] == [s];
    }

    /** list_remove gives the block back. */
    method RemoveAt(i: nat)
      requires i < |list| && used > 0
      modifies this`list, this`used
      ensures list == Without(old(list), i) && used == old(used) - 1
    {
      list := list[..i] + list[i + 1..];
      used := used - 1;
    }

    method RemoveStatus(s: Status, pos: Pos, popNext: bool) returns (ret: bool, next: Option)
      requires Valid()
      modifies this`list, this`used
      ensures Valid() && (next, list) == Remove(old(list), s, pos, popNext, build) && (ret <==> next.Some?)
    {
      RemoveKeeps(list, s, pos, popNext, build);
      ret, next := false, None;
      if |list| == 0 {
        return;
      }
      if s.Prompt() {
        ret, next := RemovePrompt(popNext);
      } else {
        var stream := CheckStream();
        if stream {
          if pos == Head {
            RemoveAt(0);
            assert Without(old(list), 0) == old(list)[1..];
          } else if pos == Tail {
            RemoveAt(|list| - 1);
            assert Without(old(list), |old(list)| - 1) == old(list)[..|old(list)| - 1];
          }
        }
      }
    }

    /** The first prompt goes; the two assertions on what is played next are the source's. */
    method RemovePrompt(popNext: bool) returns (ret: bool, next: Option)
      requires Ordered(list) && used == |list| > 0
      modifies this`list, this`used
      ensures used == |list| && (ret <==> next.Some?)
      ensures forall s: Status, pos :: s.Prompt() ==> (next, list) == Remove(old(list), s, pos, popNext, build)
    {
      ret, next := false, None;
      var i := 0;
      while i < |list| && !list[i].Prompt()
        invariant i <= |list| && forall k :: 0 <= k < i ==> !list[k].Prompt()
      {
        i := i + 1;
      }
      if i == |list| {
        return;
      }
      if popNext {
        ret, next := true, Some(list[i]);
      } else if i + 1 < |list| {
        next := Some(list[i + 1]);
        assert next.s.Prompt();
        ret := true;
      } else {
        var stream := CheckStream();
        if stream {
          next := Some(list[0]);
          assert !next.s.Prompt();
          ret := true;
        }
      }
      RemoveAt(i);
    }
  }

  // ----- Every operation keeps the order -----

  lemma {:induction false} CountsConcat(l: seq<Status>, m: seq<Status>)
    ensures Rings(l + m) == Rings(l) + Rings(m) && PlainPrompts(l + m) == PlainPrompts(l) + PlainPrompts(m)
    decreases |l|
  {
    if l == [] {
      assert l + m == m;
    } else {
      CountsConcat(l[1..], m);
      assert (l + m)[1..] == l[1..] + m;
    }
  }

  lemma {:induction false} CountsBound(l: seq<Status>)
    ensures PlainPrompts(l) + Rings(l) <= |l|
    decreases |l|
  {
    if l != [] {
      CountsBound(l[1..]);
    }
  }

  lemma {:induction false} NoRing(l: seq<Status>)
    requires forall i :: 0 <= i < |l| ==> !l[i].Incoming()
    ensures Rings(l) == 0
    decreases |l|
  {
    if l != [] {
      NoRing(l[1..]);
    }
  }

  lemma {:induction false} PromptsOnly(l: seq<Status>)
    requires forall i :: 0 <= i < |l| ==> l[i].Prompt()
    ensures |l| == Rings(l) + PlainPrompts(l)
    decreases |l|
  {
    if l != [] {
      PromptsOnly(l[1..]);
    }
  }

  lemma OneCounts(s: Status)
    ensures Rings([s]) == (if s.Incoming() then 1 else 0)
    ensures PlainPrompts([s]) == if s.Prompt() && !s.Incoming() then 1 else 0
  {
    assert [s][1..] == [];
  }

  lemma AppendKeeps(l: seq<Status>, s: Status, b: Build)
    requires Good(l)
    ensures Good(Append(l, s, b).1)
  {
    OneCounts(s);
    CountsConcat(l, [s]);
    CountsConcat([s], l);
    CountsBound(l);
    if s.Incoming() && !Filtered(l, s) {
      NoRing(l);
    }
  }

  /** Taking one entry out keeps the order and raises no count. */
  lemma WithoutKeeps(l: seq<Status>, i: nat)
    requires Good(l) && i < |l|
    ensures Good(Without(l, i))
  {
    var a, x, c := l[..i], [l[i]], l[i + 1..];
    assert l == a + (x + c);
    CountsConcat(a, x + c);
    CountsConcat(x, c);
    CountsConcat(a, c);
    WithoutOrdered(l, i);
  }

  lemma WithoutOrdered(l: seq<Status>, i: nat)
    requires Ordered(l) && i < |l|
    ensures Ordered(Without(l, i))
  {
    var m := Without(l, i);
    forall j | FirstPrompt(m) <= j < |m|
      ensures m[j].Prompt()
    {
      var f := FirstPrompt(m);
      assert m[f] == l[if f < i then f else f + 1] && m[j] == l[if j < i then j else j + 1];
    }
  }

  lemma RemoveKeeps(l: seq<Status>, s: Status, pos: Pos, popNext: bool, b: Build)
    requires Good(l)
    ensures Good(Remove(l, s, pos, popNext, b).1)
  {
    var r := Remove(l, s, pos, popNext, b).1;
    if r != l {
      assert Without(l, 0) == l[1..] && Without(l, |l| - 1) == l[..|l| - 1];
      WithoutKeeps(l, 0);
      WithoutKeeps(l, |l| - 1);
      if FirstPrompt(l) < |l| {
        WithoutKeeps(l, FirstPrompt(l));
      }
    }
  }

  datatype Op = DoAppend(s: Status) | DoRemove(s: Status, pos: Pos, popNext: bool) | DoClear

  function Apply(l: seq<Status>, op: Op, b: Build): seq<Status> {
    match op
    case DoAppend(s) => Append(l, s, b).1
    case DoRemove(s, pos, popNext) => Remove(l, s, pos, popNext, b).1
    case DoClear => []
  }

  function Run(l: seq<Status>, ops: seq<Op>, b: Build): seq<Status>
    decreases |ops|
  {
    if ops == [] then l else Run(Apply(l, ops[0], b), ops[1..], b)
  }

  lemma {:induction false} RunKeeps(l: seq<Status>, ops: seq<Op>, b: Build)
    requires Good(l)
    ensures Good(Run(l, ops, b))
    decreases |ops|
  {
    if ops != [] {
      match ops[0] {
        case DoAppend(s) => AppendKeeps(l, s, b);
        case DoRemove(s, pos, popNext) => RemoveKeeps(l, s, pos, popNext, b);
        case DoClear =>
      }
      RunKeeps(Apply(l, ops[0], b), ops[1..], b);
    }
  }

  /** Under every sequence of operations the list is others followed by prompts, with at most one
      ring and at most four prompts, and no longer than the pool. */
  lemma AlwaysOrdered(ops: seq<Op>, b: Build)
    ensures var l := Run([], ops, b);
      && l == Others(l) + Prompts(l)
      && (forall i :: 0 <= i < |Others(l)| ==> !Others(l)[i].Prompt())
      && (forall i :: 0 <= i < |Prompts(l)| ==> Prompts(l)[i].Prompt())
      && Rings(l) <= 1 && |Prompts(l)| <= 4 && |l| <= POOL
  {
    RunKeeps([], ops, b);
    var l := Run([], ops, b);
    assert l == Others(l) + Prompts(l);
    CountsConcat(Others(l), Prompts(l));
    PromptsOnly(Prompts(l));
  }

  /** Prompts wait first in, first out, and streams last in, first out: an appended prompt becomes
      the last of the prompts, unless it is refused or the list is cleared for it; an appended
      stream becomes the first entry, unless the pool is used up. */
  lemma AppendPlaces(l: seq<Status>, s: Status, b: Build)
    requires Good(l)
    ensures var m := Append(l, s, b).1;
      || m == l
      || (s.Prompt() && Prompts(m) == Prompts(l) + [s] && Others(m) == Others(l))
      || (!s.Prompt() && Prompts(m) == Prompts(l) && Others(m) == [s] + Others(l))
      || (s.Incoming() && m == [s] && |l| == POOL && !StreamExists(l, b))
  {
    var k := FirstPrompt(l);
    if s.Prompt() {
      AppendedBack(l, s);
    } else {
      PromptsStart([s] + l, k + 1);
      assert ([s] + l)[k + 1..] == l[k..] && ([s] + l)[..k + 1] == [s] + l[..k];
    }
  }

  lemma AppendedBack(l: seq<Status>, s: Status)
    requires s.Prompt()
    ensures Prompts(l + [s]) == Prompts(l) + [s] && Others(l + [s]) == Others(l)
  {
    PromptsStart(l + [s], FirstPrompt(l));
  }

  lemma PromptsStart(l: seq<Status>, k: nat)
    requires k <= |l| && (forall i :: 0 <= i < k ==> !l[i].Prompt()) && (k < |l| ==> l[k].Prompt())
    ensures FirstPrompt(l) == k
  {
  }

  /** Closing a prompt takes the oldest one off, and plays the next oldest; when none is left, the
      stream at the front. */
  lemma RemovePlaysNext(l: seq<Status>, s: Status, pos: Pos, b: Build)
    requires Good(l) && s.Prompt() && Prompts(l) != []
    ensures var (next, m) := Remove(l, s, pos, false, b);
      && Prompts(m) == Prompts(l)[1..] && Others(m) == Others(l)
      && (Prompts(m) != [] ==> next == Some(Prompts(m)[0]))
      && (Prompts(m) == [] && StreamExists(l, b) ==> Others(l) != [] && next == Some(Others(l)[0]))
      && (Prompts(m) == [] && !StreamExists(l, b) ==> next == None)
  {
    var k := FirstPrompt(l);
    PromptsStart(Without(l, k), k);
  }

  /** At the limit the source means to keep the front entry when a stream waits, but its copy finds
      no free block: the ring is refused and the list stays as it is. */
  lemma RecoveryRefused(l: seq<Status>, s: Status, b: Build)
    requires Good(l) && |l| == MAX_AUDIO_BUF_LIST && s.Incoming() && Prompts(l) != [] && StreamExists(l, b)
    ensures Append(l, s, b) == (false, l)
  {
  }

  /** Closing a stream at the tail can take a prompt off instead: it does so exactly when one waits. */
  lemma TailMayBePrompt(l: seq<Status>, s: Status, popNext: bool, b: Build)
    requires Good(l) && !s.Prompt() && StreamExists(l, b)
    ensures |Prompts(Remove(l, s, Tail, popNext, b).1)| < |Prompts(l)| <==> Prompts(l) != []
  {
    var m, k := Remove(l, s, Tail, popNext, b).1, FirstPrompt(l);
    if k < |l| {
      PromptsStart(m, k);
    } else {
      PromptsStart(m, |m|);
    }
  }

  // ----- The answers -----

  /** When an entry is taken: a stream while there is room; a ring that finds no other ring, and either
      room or prompts and no stream; any other prompt while fewer than three entries wait. */
  predicate Takes(l: seq<Status>, s: Status, b: Build) {
    if !s.Prompt() then |l| < 20
    else if !s.Incoming() then |l| < 3
    else
      && (forall i :: 0 <= i < |l| ==> !l[i].Incoming())
      && (|l| < 20 || ((exists i :: 0 <= i < |l| && l[i].Prompt()) && forall i :: 0 <= i < |l| ==> !l[i].Stream(b)))
  }

  lemma TakenWhen(l: seq<Status>, s: Status, b: Build)
    requires Good(l)
    ensures Append(l, s, b).1 != l <==> Takes(l, s, b)
  {
    var k := FirstPrompt(l);
    assert s.Prompt() && k == |l| ==> forall i :: 0 <= i < |l| ==> !l[i].Prompt();
    assert |l + [s]| != |l| && |[s] + l| != |l|;
  }

  /** The answer to an append: true exactly when the entry was taken and, if it is a prompt, no other
      prompt waited before it or the list was cleared for it. So a prompt with a true answer is the only
      one, and a prompt taken with a false one waits behind others. */
  lemma AppendAnswers(l: seq<Status>, s: Status, b: Build)
    requires Good(l)
    ensures var (ret, m) := Append(l, s, b);
      && (ret <==> Takes(l, s, b) && (!s.Prompt() || Prompts(l) == [] || |l| == 20))
      && (ret && s.Prompt() ==> Prompts(m) == [s])
      && (!ret && Takes(l, s, b) ==> s.Prompt() && Prompts(l) != [] && Prompts(m) == Prompts(l) + [s])
  {
    TakenWhen(l, s, b);
    if s.Prompt() {
      AppendedBack(l, s);
      PromptsStart([s], 0);
    }
  }

  /** Taking the prompt that waits: it is the oldest one, and it is taken off. */
  lemma RemovePops(l: seq<Status>, s: Status, pos: Pos, b: Build)
    requires Good(l) && s.Prompt() && Prompts(l) != []
    ensures var (next, m) := Remove(l, s, pos, true, b);
      next == Some(Prompts(l)[0]) && Prompts(m) == Prompts(l)[1..] && Others(m) == Others(l)
  {
    var k := FirstPrompt(l);
    PromptsStart(Without(l, k), k);
  }

  /** Closing a stream plays nothing next. At the head it takes the first of the others off and leaves
      the prompts; at the tail it takes the last entry off; without a stream in the list, or at no
      position, nothing. */
  lemma RemoveStream(l: seq<Status>, s: Status, pos: Pos, popNext: bool, b: Build)
    requires Good(l) && !s.Prompt()
    ensures var (next, m) := Remove(l, s, pos, popNext, b);
      && next == None
      && ((forall i :: 0 <= i < |l| ==> !l[i].Stream(b)) || pos == Other ==> m == l)
      && (StreamExists(l, b) && pos == Head ==> Others(l) != [] && Others(m) == Others(l)[1..] && Prompts(m) == Prompts(l))
      && (StreamExists(l, b) && pos == Tail ==> l != [] && l == m + [l[|l| - 1]])
  {
    if StreamExists(l, b) && pos == Head {
      var k := FirstPrompt(l);
      PromptsStart(l[1..], k - 1);
    }
  }

  /** Closing a prompt when none waits changes nothing and plays nothing. */
  lemma RemoveMissing(l: seq<Status>, s: Status, pos: Pos, popNext: bool, b: Build)
    requires Good(l) && s.Prompt() && Prompts(l) == []
    ensures Remove(l, s, pos, popNext, b) == (None, l)
  {
  }
}
