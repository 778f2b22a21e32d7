/** What a conversation's growing file says of its turns and of the addresses its
    instructions named (internal/server/agentwork.go). */
module Trail {
  import opened Base
  import opened WholeLines

  const RefsKept := 32

  /** An address an instruction named: how often, and when. */
  datatype Ref = Ref(ref: string, n: nat, at: int)

  /** What one line says, in order. */
  datatype Event = Begin(ts: int) | End(ts: int) | Name(found: seq<string>, ts: int) | Interact(ms: int)

  datatype Turn = Turn(open: bool, since: int, ended: int, refs: seq<Ref>, interaction: int)

  const NoTurn := Turn(false, 0, 0, [], 0)

  // ---- the addresses of one instruction ------------------------------------------------------

  function Count(found: seq<string>, r: string): nat {
    if found == [] then 0 else Count(found[..|found| - 1], r) + if found[|found| - 1] == r then 1 else 0
  }

  /** Each address once, in the order first said. */
  function Firsts(found: seq<string>): seq<string> {
    if found == [] then []
    else
      var front, r := Firsts(found[..|found| - 1]), found[|found| - 1];
      if Count(found[..|found| - 1], r) == 0 then front + [r] else front
  }

  function Counted(found: seq<string>, firsts: seq<string>, ts: int): (refs: seq<Ref>)
    ensures |refs| == |firsts|
        && forall i :: 0 <= i < |firsts| ==> refs[i] == Ref(firsts[i], Count(found, firsts[i]), ts)
  {
    seq(|firsts|, i requires 0 <= i < |firsts| => Ref(firsts[i], Count(found, firsts[i]), ts))
  }

  /** After all that were said as often or more. */
  function Insert(refs: seq<Ref>, r: Ref): (out: seq<Ref>)
    ensures |out| == |refs| + 1
  {
    if refs == [] || refs[|refs| - 1].n >= r.n then refs + [r]
    else Insert(refs[..|refs| - 1], r) + [refs[|refs| - 1]]
  }

  /** The most said first. */
  function Ranked(refs: seq<Ref>): (out: seq<Ref>)
    ensures |out| == |refs|
  {
    if refs == [] then [] else Insert(Ranked(refs[..|refs| - 1]), refs[|refs| - 1])
  }

  function Said(found: seq<string>, ts: int): seq<Ref> {
    Ranked(Counted(found, Firsts(found), ts))
  }

  /** The addresses this instruction did not name. */
  function Unsaid(refs: seq<Ref>, found: seq<string>): seq<Ref> {
    if refs == [] then []
    else
      var front, r := Unsaid(refs[..|refs| - 1], found), refs[|refs| - 1];
      if Count(found, r.ref) == 0 then front + [r] else front
  }

  function Take(refs: seq<Ref>, n: nat): seq<Ref> {
    if |refs| > n then refs[..n] else refs
  }

  function Named(refs: seq<Ref>, found: seq<string>, ts: int): seq<Ref> {
    if found == [] then refs else Take(Said(found, ts) + Unsaid(refs, found), RefsKept)
  }

  function Applied(t: Turn, e: Event): Turn {
    match e
    case Begin(ts) => if t.open then t else t.(open := true, since := ts)
    case End(ts) => t.(open := false, ended := if ts > t.ended then ts else t.ended)
    case Name(found, ts) => t.(refs := Named(t.refs, found, ts))
    case Interact(ms) => t.(interaction := if ms > t.interaction then ms else t.interaction)
  }

  function Fold(t: Turn, events: seq<Event>): Turn {
    if events == [] then t else Applied(Fold(t, events[..|events| - 1]), events[|events| - 1])
  }

  /** A format's reader of one line. */
  type Reader = Bytes -> seq<Event>

  function Heard(read: Reader): (Turn, Bytes) -> Turn {
    (t, b) => Fold(t, read(b))
  }

  lemma HeardIs(read: Reader, t: Turn, b: Bytes)
    ensures Heard(read)(t, b) == Fold(t, read(b))
  {
  }

  class AgentTrail {
    const read: Reader
    var offset: nat
    var turn: Turn

    constructor (read: Reader)
      ensures this.read == read && offset == 0 && turn == NoTurn
    {
      this.read, offset, turn := read, 0, NoTurn;
    }

    /** The addresses found in an instruction's text, in the order they stand there. */
    method NameRefs(found: seq<string>, ts: int)
      modifies `turn
      ensures turn == Applied(old(turn), Name(found, ts))
    {
      if |found| == 0 {
        return;
      }
      var count := CountAll(found);
      var refs := FirstRefs(found, ts);
      var k := 0;
      while k < |turn.refs|
        invariant 0 <= k <= |turn.refs| && turn == old(turn)
        invariant refs == Said(found, ts) + Unsaid(turn.refs[..k], found)
      {
        assert turn.refs[..k + 1][..k] == turn.refs[..k];
        if turn.refs[k].ref !in count {
          refs := refs + [turn.refs[k]];
        }
        k := k + 1;
      }
      assert turn.refs[..k] == turn.refs;
      if |refs| > RefsKept {
        refs := refs[..RefsKept];
      }
      turn := turn.(refs := refs);
    }

    method BeginTurn(ts: int)
      modifies `turn
      ensures turn == Applied(old(turn), Begin(ts))
    {
      if !turn.open {
        turn := turn.(open := true, since := ts);
      }
    }

    method EndTurn(ts: int)
      modifies `turn
      ensures turn == Applied(old(turn), End(ts))
    {
      turn := turn.(open := false);
      if ts > turn.ended {
        turn := turn.(ended := ts);
      }
    }

    method Line(b: Bytes)
      modifies `turn
      ensures turn == Heard(read)(old(turn), b)
    {
      var events := read(b);
      HeardIs(read, turn, b);
      var k := 0;
      while k < |events|
        invariant 0 <= k <= |events| && turn == Fold(old(turn), events[..k])
      {
        assert events[..k + 1][..k] == events[..k];
        match events[k] {
          case Begin(ts) => BeginTurn(ts);
          case End(ts) => EndTurn(ts);
          case Name(found, ts) => NameRefs(found, ts);
          case Interact(ms) =>
            if ms > turn.interaction {
              turn := turn.(interaction := ms);
            }
        }
        k := k + 1;
      }
      assert events[..k] == events;
    }

    /** agentTrailOf on the file as it now is. */
    method Read(file: Bytes)
      modifies this
      ensures (offset, turn) == Reread(Heard(read), NoTurn, old(offset), old(turn), file)
    {
      if |file| < offset {
        offset, turn := 0, NoTurn;
        assert file[0..] == file;
      }
      var left := file[offset..];
      ghost var end := ReadOn(Heard(read), offset, turn, left);
      while true
        invariant ReadOn(Heard(read), offset, turn, left) == end
        decreases |left|
      {
        var n := NextLine(left);
        if n == 0 {
          ReadEnd(Heard(read), offset, turn, left);
          break;
        }
        var b := left[..n];
        ReadStep(Heard(read), offset, turn, left, n);
        offset, left := offset + n, left[n..];
        Line(b);
      }
    }
  }

  method CountAll(found: seq<string>) returns (count: map<string, nat>)
    ensures forall r :: Count(found, r) == if r in count then count[r] else 0
    ensures forall r :: r in count ==> count[r] > 0
  {
    count := map[];
    var k := 0;
    while k < |found|
      invariant 0 <= k <= |found|
      invariant forall r :: Count(found[..k], r) == if r in count then count[r] else 0
      invariant forall r :: r in count ==> count[r] > 0
    {
      assert found[..k + 1][..k] == found[..k];
      count := count[found[k] := (if found[k] in count then count[found[k]] else 0) + 1];
      k := k + 1;
    }
    assert found[..k] == found;
  }

  /** The instruction's own addresses, counted and ranked. */
  method FirstRefs(found: seq<string>, ts: int) returns (refs: seq<Ref>)
    ensures refs == Said(found, ts)
  {
    var firsts: seq<string>, seen: set<string> := [], {};
    var k := 0;
    while k < |found|
      invariant 0 <= k <= |found| && firsts == Firsts(found[..k])
      invariant forall r :: r in seen <==> Count(found[..k], r) > 0
    {
      assert found[..k + 1][..k] == found[..k];
      if found[k] !in seen {
        firsts := firsts + [found[k]];
      }
      seen := seen + {found[k]};
      k := k + 1;
    }
    assert found[..k] == found;
    var count := CountAll(found);
    var counted: seq<Ref> := [];
    k := 0;
    while k < |firsts|
      invariant 0 <= k <= |firsts| && counted == Counted(found, firsts, ts)[..k]
    {
      counted := counted + [Ref(firsts[k], if firsts[k] in count then count[firsts[k]] else 0, ts)];
      k := k + 1;
    }
    assert counted == Counted(found, firsts, ts);
    refs := SortRefs(counted);
  }

  /** sort.SliceStable by how often an address was said. */
  method SortRefs(refs: seq<Ref>) returns (out: seq<Ref>)
    ensures out == Ranked(refs)
  {
    out := [];
    var k := 0;
    while k < |refs|
      invariant 0 <= k <= |refs| && out == Ranked(refs[..k])
    {
      assert refs[..k + 1][..k] == refs[..k];
      out := Insert(out, refs[k]);
      k := k + 1;
    }
    assert refs[..k] == refs;
  }
}
