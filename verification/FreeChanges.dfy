/** A run after which every node has heard of every write, and a delivery still changes one. */
module FreeChanges {
  import opened Base
  import opened Vectors
  import opened Copies
  import opened Engines
  import opened Reconciling
  import opened Syncing
  import opened PingPong
  import opened Divergence

  const Both: Vec := map[A := 2, B := 1]

  function Gone(v: Vec): Copy {
    Copy(Some(FileState(Version(v, true), 0, 0)), None)
  }

  function GoneMsg(v: Vec): Message {
    Message(Version(v, true), [])
  }

  /** A has a file, B none. */
  function OneFile(b: Bytes): Sys {
    Sys(map[A := Copy(None, Some(File(b, 1))), B := Copy(None, None)], map[A := [], B := []], {})
  }

  function TwoNodes(a: Copy, b: Copy, net: set<Message>): Sys {
    Sys(map[A := a, B := b], map[A := [], B := []], net)
  }

  /** One step at one of the two, where nothing is saved. */
  lemma StepOfTwo(r: Rules, a: Copy, b: Copy, net: set<Message>, step: Step)
    requires step.at == A || step.at == B
    requires step.Deliver? ==> step.m in net
    requires NewlySaved(r, if step.at == A then a else b, step) == []
    ensures Exec(r, TwoNodes(a, b, net), step)
      == TwoNodes(if step.at == A then NewCopy(r, a, step) else a, if step.at == B then NewCopy(r, b, step) else b,
                  net + Sends(if step.at == A then a else b, step))
  {
    assert A[0] != B[0];
    var empty: seq<Bytes> := [];
    assert empty + [] == empty && net + {} == net;
    var c := NewCopy(r, if step.at == A then a else b, step);
    assert map[A := a, B := b][A := c] == map[A := c, B := b];
    assert map[A := a, B := b][B := c] == map[A := a, B := c];
    assert map[A := empty, B := empty][step.at := empty] == map[A := empty, B := empty];
  }

  function Sends(c: Copy, step: Step): set<Message> {
    if step.Send? && Offer(c).Some? then {Offer(c).value} else {}
  }

  /** A stamps its file and sends it. */
  lemma AWrites(r: Rules, b: Bytes) returns (steps: seq<Step>)
    requires |b| <= MaxSyncFile
    ensures Run(r, OneFile(b), steps)
      == TwoNodes(Held(map[A := 1], b), Copy(None, None), {Written(map[A := 1], b)})
  {
    NormalExt(Advance(map[], A), map[A := 1]);
    var s, none := OneFile(b), Copy(None, None);
    StepOfTwo(r, s.nodes[A], none, {}, Write(A));
    StepOfTwo(r, Held(map[A := 1], b), none, {}, Send(A));
    steps := [Write(A), Send(A)] + [];
    RunTwo(r, s, Write(A), Send(A), []);
  }

  /** A deletes the file and sends that. */
  lemma ADeletes(r: Rules, b: Bytes, net: set<Message>) returns (steps: seq<Step>)
    ensures Run(r, TwoNodes(Held(map[A := 1], b), Copy(None, None), net), steps)
      == TwoNodes(Gone(map[A := 2]), Copy(None, None), net + {GoneMsg(map[A := 2])})
  {
    NormalExt(Advance(map[A := 1], A), map[A := 2]);
    var held, none, gone := Held(map[A := 1], b), Copy(None, None), Gone(map[A := 2]);
    StepOfTwo(r, held, none, net, Edit(A, None));
    StepOfTwo(r, held.(file := None), none, net, Delete(A));
    StepOfTwo(r, gone, none, net, Send(A));
    steps := [Edit(A, None), Delete(A)] + [Send(A)];
    RunTwo(r, TwoNodes(held, none, net), Edit(A, None), Delete(A), [Send(A)]);
    RunOne(r, TwoNodes(gone, none, net), Send(A));
  }

  lemma RunOne(r: Rules, s: Sys, x: Step)
    ensures Run(r, s, [x]) == Exec(r, s, x)
  {
    assert [x][1..] == [];
  }

  /** B deletes what it never had and sends that; the two tombstones meet at A. */
  lemma BDeletes(r: Rules, net: set<Message>) returns (steps: seq<Step>)
    ensures Run(r, TwoNodes(Gone(map[A := 2]), Copy(None, None), net), steps)
      == TwoNodes(Gone(Both), Gone(map[B := 1]), net + {GoneMsg(map[B := 1])})
  {
    NormalExt(Advance(map[], B), map[B := 1]);
    var a, none, b := Gone(map[A := 2]), Copy(None, None), Gone(map[B := 1]);
    var take := Deliver(A, GoneMsg(map[B := 1]), 1);
    StepOfTwo(r, a, none, net, Delete(B));
    StepOfTwo(r, a, b, net, Send(B));
    TombstonesMeet(r);
    StepOfTwo(r, a, b, net + {take.m}, take);
    steps := [Delete(B), Send(B)] + [take];
    RunTwo(r, TwoNodes(a, none, net), Delete(B), Send(B), [take]);
    RunOne(r, TwoNodes(a, b, net + {take.m}), take);
  }

  lemma TombstonesMeet(r: Rules)
    ensures var l := Land(r, A, Gone(map[A := 2]), [], Version(map[B := 1], true), 1);
      l.copy == Gone(Both) && l.saved.None?
  {
    assert A[0] != B[0];
    assert At(map[A := 2], A) > At(map[B := 1], A) && At(map[B := 1], B) > At(map[A := 2], B);
    NormalExt(Join(map[A := 2], map[B := 1]), Both);
  }

  /** At B the file of A's first write comes back over B's tombstone. */
  lemma FileComesBack(r: Rules, b: Bytes)
    ensures var l := Land(r, B, Gone(map[B := 1]), b, Version(map[A := 1], false), 1);
      l.copy == Held(map[A := 1, B := 1], b) && l.saved.None?
  {
    assert A[0] != B[0];
    assert At(map[A := 1], A) > At(map[B := 1], A) && At(map[B := 1], B) > At(map[A := 1], B);
    NormalExt(Join(map[B := 1], map[A := 1]), map[A := 1, B := 1]);
  }

  /** It is kept when A's deletion arrives. */
  lemma FileStays(r: Rules, b: Bytes)
    ensures var l := Land(r, B, Held(map[A := 1, B := 1], b), [], Version(map[A := 2], true), 1);
      l.copy == Held(Both, b) && l.saved.None?
  {
    assert A[0] != B[0];
    var v: Vec := map[A := 1, B := 1];
    assert At(map[A := 2], A) > At(v, A) && At(v, B) > At(map[A := 2], B);
    NormalExt(Join(v, map[A := 2]), Both);
  }

  lemma BKeepsTheFile(r: Rules, b: Bytes, net: set<Message>) returns (steps: seq<Step>)
    requires |b| <= MaxSyncFile
    requires Written(map[A := 1], b) in net && GoneMsg(map[A := 2]) in net
    ensures Run(r, TwoNodes(Gone(Both), Gone(map[B := 1]), net), steps)
      == TwoNodes(Gone(Both), Held(Both, b), net + {Written(Both, b)})
  {
    var a, gone, back := Gone(Both), Gone(map[B := 1]), Held(map[A := 1, B := 1], b);
    var first, second := Deliver(B, Written(map[A := 1], b), 1), Deliver(B, GoneMsg(map[A := 2]), 1);
    TakesFirst(r, b);
    TakesSecond(r, b);
    StepOfTwo(r, a, gone, net, first);
    StepOfTwo(r, a, back, net, second);
    StepOfTwo(r, a, Held(Both, b), net, Send(B));
    assert net + {} == net;
    steps := [first, second] + [Send(B)];
    RunTwo(r, TwoNodes(a, gone, net), first, second, [Send(B)]);
    RunOne(r, TwoNodes(a, Held(Both, b), net), Send(B));
  }

  lemma TakesFirst(r: Rules, b: Bytes)
    ensures var first := Deliver(B, Written(map[A := 1], b), 1);
      NewCopy(r, Gone(map[B := 1]), first) == Held(map[A := 1, B := 1], b)
      && NewlySaved(r, Gone(map[B := 1]), first) == []
  {
    FileComesBack(r, b);
  }

  lemma TakesSecond(r: Rules, b: Bytes)
    ensures var second := Deliver(B, GoneMsg(map[A := 2]), 1);
      NewCopy(r, Held(map[A := 1, B := 1], b), second) == Held(Both, b)
      && NewlySaved(r, Held(map[A := 1, B := 1], b), second) == []
  {
    FileStays(r, b);
  }

  /** What is on the wire in the end. */
  function Wire(b: Bytes): set<Message> {
    {Written(map[A := 1], b), GoneMsg(map[A := 2]), GoneMsg(map[B := 1]), Written(Both, b)}
  }

  lemma WholeRun(r: Rules, b: Bytes) returns (steps: seq<Step>)
    requires |b| <= MaxSyncFile
    ensures Run(r, OneFile(b), steps) == TwoNodes(Gone(Both), Held(Both, b), Wire(b))
  {
    var m, n, o := Written(map[A := 1], b), GoneMsg(map[A := 2]), GoneMsg(map[B := 1]);
    var ws := AWrites(r, b);
    var xs := ADeletes(r, b, {m});
    var ys := BDeletes(r, {m} + {n});
    var zs := BKeepsTheFile(r, b, {m} + {n} + {o});
    var s := Run(r, OneFile(b), ws);
    var t := Run(r, s, xs);
    RunAppend(r, OneFile(b), ws, xs + (ys + zs));
    RunAppend(r, s, xs, ys + zs);
    RunAppend(r, t, ys, zs);
    steps := ws + (xs + (ys + zs));
    assert {m} + {n} + {o} + {Written(Both, b)} == Wire(b);
  }

  /** Nothing known anywhere is beyond u, and no node lacks a write of it. */
  ghost predicate AllHeard(s: Sys, u: Vec) {
    Bounded(s, u) && forall i :: i in s.nodes ==> Gap(u, VecOf(s.nodes[i])) == 0
  }

  /** A run from nodes that have stamped nothing, at whose end every node has heard of every
      write; the delivery of one more message on the wire changes a node nevertheless. */
  lemma GapIsNotEnough(r: Rules, b: Bytes) returns (steps: seq<Step>, t: Sys)
    requires |b| <= MaxSyncFile
    ensures Unstamped(OneFile(b)) && t == Run(r, OneFile(b), steps)
    ensures AllHeard(t, Both) && Changes(r, t, [Deliver(A, Written(Both, b), 1)]) == 1
  {
    steps := WholeRun(r, b);
    t := End(r, b);
  }

  lemma End(r: Rules, b: Bytes) returns (t: Sys)
    ensures t == TwoNodes(Gone(Both), Held(Both, b), Wire(b))
    ensures AllHeard(t, Both) && Changes(r, t, [Deliver(A, Written(Both, b), 1)]) == 1
  {
    t := TwoNodes(Gone(Both), Held(Both, b), Wire(b));
    ZeroTotal(Missing(Both, Both));
    EndBounded(b);
    OneMoreChange(r, b, Wire(b));
  }

  lemma EndBounded(b: Bytes)
    ensures Bounded(TwoNodes(Gone(Both), Held(Both, b), Wire(b)), Both)
  {
    assert A[0] != B[0];
  }

  lemma {:induction false} ZeroTotal(m: map<Node, nat>)
    requires forall k :: k in m ==> m[k] == 0
    ensures Total(m) == 0
    decreases |m|
  {
    if m != map[] {
      var k :| k in m;
      TotalRemove(m, k);
      ZeroTotal(m - {k});
    }
  }

  lemma OneMoreChange(r: Rules, b: Bytes, net: set<Message>)
    requires Written(Both, b) in net
    ensures Changes(r, TwoNodes(Gone(Both), Held(Both, b), net), [Deliver(A, Written(Both, b), 1)]) == 1
  {
    assert A[0] != B[0];
    var t, m := TwoNodes(Gone(Both), Held(Both, b), net), Written(Both, b);
    FreeChangeIff(r, A, t.nodes[A], m, 1);
    assert Exec(r, t, Deliver(A, m, 1)).nodes[A] != t.nodes[A];
    assert [Deliver(A, m, 1)][1..] == [];
  }
}
