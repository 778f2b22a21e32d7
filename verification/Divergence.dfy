/** What a write on a half-resolved conflict can do: equal vectors with different bytes. */
module Divergence {
  import opened Base
  import opened Vectors
  import opened Copies
  import opened Reconciling
  import opened Syncing

  const A: Node := "A"
  const B: Node := "B"

  function Held(v: Vec, b: Bytes): Copy {
    var f := Some(File(b, 1));
    Copy(Some(Stamp(Version(v, false), f)), f)
  }

  function Written(v: Vec, b: Bytes): Message {
    Message(Version(v, false), b)
  }

  /** Different contents among the three have different hashes. */
  ghost predicate HashesTell(r: Rules, a: Bytes, b: Bytes, c: Bytes) {
    (r.hash(a) == r.hash(b) ==> a == b) && (r.hash(b) == r.hash(c) ==> b == c) && (r.hash(a) == r.hash(c) ==> a == c)
  }

  ghost predicate Cross(v: Vec, u: Vec) {
    !Leq(v, u) && !Leq(u, v)
  }

  /** A write on a half-resolved conflict, in general. na holds a and nb holds b, concurrent,
      and na has no later write of nb's than nb has. na resolves the two; nb, which has not,
      writes b2 over b; then na gets b2 and nb gets a. Both end at the join of na's vector
      and nb's last write, and with the same bytes exactly unless the overwritten b had the
      highest hash of the three. */
  lemma HalfResolvedWrite(r: Rules, na: Node, nb: Node, va: Vec, vb: Vec, a: Bytes, b: Bytes, b2: Bytes)
    requires !r.mergeable && HashesTell(r, a, b, b2)
    requires Normal(va) && Normal(vb) && Cross(va, vb) && At(va, nb) <= At(vb, nb)
    ensures var vb2 := Advance(vb, nb);
      var a1 := Land(r, na, Held(va, a), b, Version(vb, false), 1).copy;
      var a2 := Land(r, na, a1, b2, Version(vb2, false), 1).copy;
      var bb := Land(r, nb, Held(vb2, b2), a, Version(va, false), 1).copy;
      && VecOf(a2) == VecOf(bb) == Join(va, vb2)
      && (BytesOf(a2.file) == BytesOf(bb.file) <==> !(r.hash(b) > r.hash(a) && r.hash(b) > r.hash(b2)))
  {
    var vb2 := Advance(vb, nb);
    var best := if r.hash(b) > r.hash(a) then b else a;
    Crossing(r, na, va, a, vb, b);
    RewriteCrosses(va, vb, nb);
    RewriteCovers(va, vb, nb);
    Crossing(r, na, Join(va, vb), best, vb2, b2);
    Crossing(r, nb, vb2, b2, va, a);
  }

  /** The rewrite crosses both what na had and what it resolved to. */
  lemma RewriteCrosses(va: Vec, vb: Vec, nb: Node)
    requires Normal(va) && Normal(vb) && Cross(va, vb) && At(va, nb) <= At(vb, nb)
    ensures var vb2 := Advance(vb, nb); Cross(Join(va, vb), vb2) && Cross(vb2, va)
  {
    var vb2 := Advance(vb, nb);
    var o :| At(va, o) > At(vb, o);
    assert o != nb && At(vb2, o) == At(vb, o) < At(va, o) <= At(Join(va, vb), o);
    assert At(vb2, nb) > At(vb, nb) && At(Join(va, vb), nb) == At(vb, nb);
  }

  /** Resolving first adds nothing to what the rewrite joins to. */
  lemma RewriteCovers(va: Vec, vb: Vec, nb: Node)
    requires Normal(va) && Normal(vb)
    ensures var vb2 := Advance(vb, nb); Join(Join(va, vb), vb2) == Join(va, vb2) == Join(vb2, va)
  {
    var vb2 := Advance(vb, nb);
    JoinAssociates(va, vb, vb2);
    forall k ensures At(Join(vb, vb2), k) == At(vb2, k) {
    }
    NormalExt(Join(vb, vb2), vb2);
    JoinCommutes(va, vb2);
  }

  /** Concurrent live versions whose hashes tell them apart: the join, and the higher hash. */
  lemma Crossing(r: Rules, self: Node, v: Vec, ours: Bytes, u: Vec, theirs: Bytes)
    requires !r.mergeable && (r.hash(ours) == r.hash(theirs) ==> ours == theirs)
    requires Cross(v, u)
    ensures Land(r, self, Held(v, ours), theirs, Version(u, false), 1).copy
      == Held(Join(v, u), if r.hash(theirs) > r.hash(ours) then theirs else ours)
  {
  }

  function FirstByte(b: Bytes): int {
    if b == [] then -1 else b[0] as int
  }

  lemma RunTwo(r: Rules, s: Sys, x: Step, y: Step, rest: seq<Step>)
    ensures Run(r, s, [x, y] + rest) == Run(r, Exec(r, Exec(r, s, x), y), rest)
  {
    assert ([x, y] + rest)[1..] == [y] + rest;
    assert ([y] + rest)[1..] == rest;
  }

  function Unstampeds(a: Bytes, b: Bytes): Sys {
    Sys(map[A := Copy(None, Some(File(a, 1))), B := Copy(None, Some(File(b, 1)))], map[A := [], B := []], {})
  }

  lemma StampTwo(r: Rules, a: Bytes, b: Bytes)
    requires |a| == |b| == 1
    ensures Exec(r, Exec(r, Unstampeds(a, b), Write(A)), Write(B))
      == Sys(map[A := Held(map[A := 1], a), B := Held(map[B := 1], b)], map[A := [], B := []], {})
  {
    assert A[0] != B[0];
    NormalExt(Advance(map[], A), map[A := 1]);
    NormalExt(Advance(map[], B), map[B := 1]);
  }

  /** A node restamps an edited file. */
  lemma Restamp(r: Rules, s: Sys, b2: Bytes, b: Bytes)
    requires |b2| == 1 && s.saved.Keys == s.nodes.Keys && B in s.nodes && s.nodes[B] == Held(map[B := 1], b)
    ensures Exec(r, Exec(r, s, Edit(B, Some(File(b2, 1)))), Write(B)).nodes == s.nodes[B := Held(map[B := 2], b2)]
    ensures Exec(r, Exec(r, s, Edit(B, Some(File(b2, 1)))), Write(B)).net == s.net
    ensures Exec(r, Exec(r, s, Edit(B, Some(File(b2, 1)))), Write(B)).saved.Keys == s.saved.Keys
  {
    NormalExt(Advance(map[B := 1], B), map[B := 2]);
  }

  const WroteA: Bytes := [1]
  const WroteB: Bytes := [3]
  const RewroteB: Bytes := [2]
  const MsgA: Message := Written(map[A := 1], WroteA)
  const MsgB: Message := Written(map[B := 1], WroteB)
  const MsgB2: Message := Written(map[B := 2], RewroteB)
  const ByFirstByte: Rules := Rules(FirstByte, false, (x, y) => None)

  lemma SendTwo(r: Rules, s: Sys) returns (t: Sys)
    requires s.nodes == map[A := Held(map[A := 1], WroteA), B := Held(map[B := 1], WroteB)] && s.net == {}
    requires s.saved == map[A := [], B := []]
    ensures t == Exec(r, Exec(r, s, Send(A)), Send(B)) && t.nodes == s.nodes && t.net == {MsgA, MsgB}
        && t.saved == s.saved
  {
    assert A[0] != B[0];
    t := Exec(r, Exec(r, s, Send(A)), Send(B));
  }

  /** Both stamp and send their first write; A takes B's. */
  lemma FirstExchange() returns (s: Sys, steps: seq<Step>)
    ensures s == Run(ByFirstByte, Unstampeds(WroteA, WroteB), steps)
    ensures s.saved.Keys == s.nodes.Keys == {A, B} && s.net == {MsgA, MsgB}
    ensures s.nodes[B] == Held(map[B := 1], WroteB)
    ensures s.nodes[A] == Land(ByFirstByte, A, Held(map[A := 1], WroteA), WroteB, MsgB.ver, 1).copy
  {
    var r, s0 := ByFirstByte, Unstampeds(WroteA, WroteB);
    StampTwo(r, WroteA, WroteB);
    var s2 := Exec(r, Exec(r, s0, Write(A)), Write(B));
    var s4 := SendTwo(r, s2);
    assert A[0] != B[0];
    var take := [Deliver(A, MsgB, 1)];
    RunTwo(r, s0, Write(A), Write(B), [Send(A), Send(B)] + take);
    RunTwo(r, s2, Send(A), Send(B), take);
    s, steps := Exec(r, s4, take[0]), [Write(A), Write(B)] + ([Send(A), Send(B)] + take);
    assert Run(r, s4, take) == s;
  }

  /** B rewrites the file it has not resolved and sends that; then the crossing deliveries. */
  lemma SecondExchange(s: Sys) returns (t: Sys, steps: seq<Step>)
    requires s.saved.Keys == s.nodes.Keys == {A, B} && s.net == {MsgA, MsgB}
    requires s.nodes[B] == Held(map[B := 1], WroteB)
    ensures t == Run(ByFirstByte, s, steps)
    ensures t.nodes.Keys == {A, B}
    ensures t.nodes[A] == Land(ByFirstByte, A, s.nodes[A], RewroteB, MsgB2.ver, 1).copy
    ensures t.nodes[B] == Land(ByFirstByte, B, Held(map[B := 2], RewroteB), WroteA, MsgA.ver, 1).copy
  {
    var r := ByFirstByte;
    assert A[0] != B[0];
    var edit := Edit(B, Some(File(RewroteB, 1)));
    Restamp(r, s, RewroteB, WroteB);
    var s2 := Exec(r, Exec(r, s, edit), Write(B));
    var s4 := Exec(r, Exec(r, s2, Send(B)), Deliver(A, MsgB2, 1));
    assert Exec(r, s2, Send(B)).net == {MsgA, MsgB, MsgB2};
    var take := [Deliver(B, MsgA, 1)];
    RunTwo(r, s, edit, Write(B), [Send(B), Deliver(A, MsgB2, 1)] + take);
    RunTwo(r, s2, Send(B), Deliver(A, MsgB2, 1), take);
    t, steps := Exec(r, s4, take[0]), [edit, Write(B)] + ([Send(B), Deliver(A, MsgB2, 1)] + take);
    assert Run(r, s4, take) == t;
  }

  lemma {:induction false} RunAppend(r: Rules, s: Sys, xs: seq<Step>, ys: seq<Step>)
    ensures Run(r, s, xs + ys) == Run(r, Run(r, s, xs), ys)
    decreases |xs|
  {
    if xs == [] {
      assert xs + ys == ys;
    } else {
      RunAppend(r, Exec(r, s, xs[0]), xs[1..], ys);
      assert (xs + ys)[1..] == xs[1..] + ys;
    }
  }

  /** The run itself, from two nodes that have stamped nothing: in a run in which a node
      writes between the exchanges, equal vectors do not mean equal bytes. */
  lemma RunsCanDiverge() returns (r: Rules, s: Sys, steps: seq<Step>)
    ensures Unstamped(s) && A in s.nodes && B in s.nodes
    ensures var t := Run(r, s, steps);
      && A in t.nodes && B in t.nodes
      && Same(VecOf(t.nodes[A]), VecOf(t.nodes[B]))
      && BytesOf(t.nodes[A].file) != BytesOf(t.nodes[B].file)
  {
    r, s := ByFirstByte, Unstampeds(WroteA, WroteB);
    StartUnstamped();
    var t;
    t, steps := BothExchanges();
  }

  lemma StartUnstamped()
    ensures Unstamped(Unstampeds(WroteA, WroteB))
  {
  }

  lemma BothExchanges() returns (t: Sys, steps: seq<Step>)
    ensures t == Run(ByFirstByte, Unstampeds(WroteA, WroteB), steps)
    ensures A in t.nodes && B in t.nodes && Same(VecOf(t.nodes[A]), VecOf(t.nodes[B]))
    ensures BytesOf(t.nodes[A].file) != BytesOf(t.nodes[B].file)
  {
    var mid, xs, ys;
    mid, xs := FirstExchange();
    t, ys := SecondExchange(mid);
    steps := xs + ys;
    RunAppend(ByFirstByte, Unstampeds(WroteA, WroteB), xs, ys);
    EndsDiffer(mid, t);
  }

  lemma EndsDiffer(mid: Sys, t: Sys)
    requires A in mid.nodes && A in t.nodes && B in t.nodes
    requires mid.nodes[A] == Land(ByFirstByte, A, Held(map[A := 1], WroteA), WroteB, MsgB.ver, 1).copy
    requires t.nodes[A] == Land(ByFirstByte, A, mid.nodes[A], RewroteB, MsgB2.ver, 1).copy
    requires t.nodes[B] == Land(ByFirstByte, B, Held(map[B := 2], RewroteB), WroteA, MsgA.ver, 1).copy
    ensures Same(VecOf(t.nodes[A]), VecOf(t.nodes[B]))
    ensures BytesOf(t.nodes[A].file) != BytesOf(t.nodes[B].file)
  {
    assert A[0] != B[0];
    assert At(map[A := 1], A) > At(map[B := 1], A) && At(map[B := 1], B) > At(map[A := 1], B);
    NormalExt(Advance(map[B := 1], B), map[B := 2]);
    HalfResolvedWrite(ByFirstByte, A, B, map[A := 1], map[B := 1], WroteA, WroteB, RewroteB);
  }
}
