/** How often a run without local edits can change anything. */
module PingPong {
  import opened Vectors
  import opened Copies
  import opened Reconciling
  import opened Syncing
  import opened Rounds

  // ---- sums over finite maps ------------------------------------------------------

  ghost function Total(m: map<Node, nat>): nat {
    if m == map[] then 0 else
    var k :| k in m;
    m[k] + Total(m - {k})
  }

  lemma {:induction false} TotalRemove(m: map<Node, nat>, k: Node)
    requires k in m
    ensures Total(m) == m[k] + Total(m - {k})
    decreases |m|
  {
    var p :| p in m && Total(m) == m[p] + Total(m - {p});
    if p != k {
      TotalRemove(m - {p}, k);
      TotalRemove(m - {k}, p);
      assert m - {p} - {k} == m - {k} - {p};
    }
  }

  lemma TotalUpdate(m: map<Node, nat>, k: Node, x: nat)
    requires k in m
    ensures Total(m[k := x]) + m[k] == Total(m) + x
  {
    TotalRemove(m, k);
    TotalRemove(m[k := x], k);
    assert m[k := x] - {k} == m - {k};
  }

  lemma {:induction false} TotalMono(m: map<Node, nat>, n: map<Node, nat>)
    requires m.Keys == n.Keys && forall k :: k in m ==> m[k] <= n[k]
    ensures Total(m) <= Total(n)
    ensures (exists k :: k in m && m[k] < n[k]) ==> Total(m) < Total(n)
    decreases |m|
  {
    if m != map[] {
      var p :| p in m;
      TotalRemove(m, p);
      TotalRemove(n, p);
      TotalMono(m - {p}, n - {p});
      if k :| k in m && m[k] < n[k] && k != p {
        assert k in m - {p};
      }
    }
  }

  // ---- the gap to what the system knows --------------------------------------------

  function Missing(u: Vec, v: Vec): map<Node, nat> {
    map o | o in u :: if At(v, o) <= u[o] then u[o] - At(v, o) else 0
  }

  /** How many writes of u are not yet in v. */
  ghost function Gap(u: Vec, v: Vec): nat {
    Total(Missing(u, v))
  }

  lemma GapShrinks(u: Vec, v: Vec, w: Vec)
    requires Leq(v, w) && Leq(w, u)
    ensures Gap(u, w) <= Gap(u, v)
    ensures !Leq(w, v) ==> Gap(u, w) < Gap(u, v)
  {
    forall o | o in u ensures Missing(u, w)[o] <= Missing(u, v)[o] {
      assert At(v, o) <= At(w, o) <= At(u, o);
    }
    TotalMono(Missing(u, w), Missing(u, v));
    if !Leq(w, v) {
      var o :| At(v, o) < At(w, o);
      assert At(w, o) <= At(u, o);
      assert o in Missing(u, w) && Missing(u, w)[o] < Missing(u, v)[o];
    }
  }

  /** The gap itself (exact), or three times it plus a rank: no entry, tombstone, live. */
  ghost function Weight(exact: bool, u: Vec, c: Copy): nat {
    if exact then Gap(u, VecOf(c))
    else 3 * Gap(u, VecOf(c)) + if c.entry.None? then 2 else if Live(c) then 0 else 1
  }

  /** A delivery that changes a clean copy either raises its vector or, at the same vector,
      gives it an entry or turns a tombstone live. */
  lemma ChangeCosts(r: Rules, self: Node, c: Copy, m: Message, mt: int, u: Vec)
    requires Clean(c) && Leq(VecOf(c), u) && Leq(m.ver.vec, u)
    ensures var l := Land(r, self, c, m.body, m.ver, mt).copy;
      Leq(VecOf(l), u) && Clean(l) && (l != c ==> Weight(false, u, l) < Weight(false, u, c))
  {
    var l := Land(r, self, c, m.body, m.ver, mt).copy;
    LandClean(r, self, c, m.body, m.ver, mt);
    LandJoins(r, self, c, m.body, m.ver, mt);
    forall o ensures At(VecOf(l), o) <= At(u, o) {
      LandJoinsAt(r, self, c, m.body, m.ver, mt, o);
      assert At(VecOf(c), o) <= At(u, o) && At(m.ver.vec, o) <= At(u, o);
    }
    GapShrinks(u, VecOf(c), VecOf(l));
    if l != c && Leq(VecOf(l), VecOf(c)) && c.entry.Some? {
      LeqTransitive(m.ver.vec, VecOf(l), VecOf(c));
      SameVectorChange(r, self, c, m, mt);
    }
  }

  /** With nothing new in the message, only a tombstone that meets its own live version changes. */
  lemma SameVectorChange(r: Rules, self: Node, c: Copy, m: Message, mt: int)
    requires Clean(c) && c.entry.Some? && Leq(m.ver.vec, VecOf(c))
    ensures var l := Land(r, self, c, m.body, m.ver, mt).copy; l == c || (!Live(c) && Live(l))
  {
    JoinAbsorbs(VecOf(c), m.ver.vec);
  }

  /** The changes that raise no vector, exactly: a first entry from a message that counts
      nothing, and a tombstone that meets a live version with its very vector. So the gap
      alone bounds the changes where those cannot happen, and not in general. */
  lemma FreeChangeIff(r: Rules, self: Node, c: Copy, m: Message, mt: int)
    requires Clean(c)
    ensures var l := Land(r, self, c, m.body, m.ver, mt).copy;
      l != c && Leq(VecOf(l), VecOf(c))
      <==> Leq(m.ver.vec, VecOf(c)) && (c.entry.None? || (!Live(c) && !m.ver.deleted && Leq(VecOf(c), m.ver.vec)))
  {
    LandJoins(r, self, c, m.body, m.ver, mt);
    var l := Land(r, self, c, m.body, m.ver, mt).copy;
    if Leq(VecOf(l), VecOf(c)) {
      LeqTransitive(m.ver.vec, VecOf(l), VecOf(c));
    }
    if Leq(m.ver.vec, VecOf(c)) {
      JoinAbsorbs(VecOf(c), m.ver.vec);
    }
  }

  /** Within a write round a delivery that changes a copy raises its vector. */
  lemma RoundChangeRaises(r: Rules, rd: Round, self: Node, c: Copy, m: Message, mt: int)
    requires Fresh(rd) && !r.mergeable && CopyInRound(r, rd, c) && InRound(r, rd, m.ver, m.body)
    requires Land(r, self, c, m.body, m.ver, mt).copy != c
    ensures !Leq(VecOf(Land(r, self, c, m.body, m.ver, mt).copy), VecOf(c))
  {
    var l := Land(r, self, c, m.body, m.ver, mt).copy;
    LandJoins(r, self, c, m.body, m.ver, mt);
    LandClean(r, self, c, m.body, m.ver, mt);
    if Leq(VecOf(l), VecOf(c)) {
      LeqTransitive(m.ver.vec, VecOf(l), VecOf(c));
      if c.entry.None? {
        CarriesAWrite(r, rd, m);
      } else {
        OwnVectorSuperseded(r, rd, c, m);
      }
    }
  }

  /** Without a base, every message of the round carries some write. */
  lemma CarriesAWrite(r: Rules, rd: Round, m: Message)
    requires Fresh(rd) && rd.base.None? && InRound(r, rd, m.ver, m.body)
    ensures !Leq(m.ver.vec, map[])
  {
    var w :| w in Heard(rd, m.ver.vec);
    assert 0 <= At(BaseVec(rd), w) < At(Written(rd, w), w) <= At(m.ver.vec, w);
    assert At(map[], w) == 0;
  }

  /** A version of the round at a copy's own vector has the copy's tombstone flag. */
  lemma OwnVectorSuperseded(r: Rules, rd: Round, c: Copy, m: Message)
    requires Fresh(rd) && CopyInRound(r, rd, c) && c.entry.Some? && InRound(r, rd, m.ver, m.body)
    requires Leq(m.ver.vec, VecOf(c))
    ensures Superseded(c.entry.value, m.ver)
  {
    HeardOrders(rd, VecOf(c), m.ver.vec);
    HeardOrders(rd, m.ver.vec, VecOf(c));
    if Leq(VecOf(c), m.ver.vec) {
      assert Heard(rd, VecOf(c)) == Heard(rd, m.ver.vec);
      ContentFlag(r, rd, Heard(rd, VecOf(c)), c.entry.value.ver.deleted, BytesOf(c.file), m.ver.deleted, m.body);
    }
  }

  // ---- runs -------------------------------------------------------------------------

  ghost function WeightBy(exact: bool, u: Vec): Copy -> nat {
    c => Weight(exact, u, c)
  }

  ghost function Weighed(f: Copy -> nat, nodes: map<Node, Copy>): map<Node, nat> {
    map i | i in nodes :: f(nodes[i])
  }

  ghost function Weights(exact: bool, u: Vec, s: Sys): map<Node, nat> {
    Weighed(WeightBy(exact, u), s.nodes)
  }

  /** How many steps of a run change some node's manifest or disk. */
  ghost function Changes(r: Rules, s: Sys, steps: seq<Step>): nat
    decreases |steps|
  {
    if steps == [] then 0 else
    var t := Exec(r, s, steps[0]);
    (if t.nodes == s.nodes then 0 else 1) + Changes(r, t, steps[1..])
  }

  /** Disks and manifests agree everywhere, and nothing known anywhere is beyond u. */
  ghost predicate Bounded(s: Sys, u: Vec) {
    && (forall i :: i in s.nodes ==> Clean(s.nodes[i]) && Leq(VecOf(s.nodes[i]), u))
    && (forall m :: m in s.net ==> Leq(m.ver.vec, u))
  }

  lemma DeliveryCosts(r: Rules, rd: Round, exact: bool, self: Node, c: Copy, m: Message, mt: int, u: Vec)
    requires Clean(c) && Leq(VecOf(c), u) && Leq(m.ver.vec, u)
    requires exact ==> Fresh(rd) && !r.mergeable && CopyInRound(r, rd, c) && InRound(r, rd, m.ver, m.body)
    ensures var l := Land(r, self, c, m.body, m.ver, mt).copy;
      && Clean(l) && Leq(VecOf(l), u)
      && (l != c ==> Weight(exact, u, l) < Weight(exact, u, c))
  {
    var l := Land(r, self, c, m.body, m.ver, mt).copy;
    ChangeCosts(r, self, c, m, mt, u);
    if exact && l != c {
      RoundChangeRaises(r, rd, self, c, m, mt);
      LandJoins(r, self, c, m.body, m.ver, mt);
      GapShrinks(u, VecOf(c), VecOf(l));
    }
  }

  lemma StepBounded(r: Rules, s: Sys, step: Step, u: Vec)
    requires Bounded(s, u) && Exchange(step)
    ensures Bounded(Exec(r, s, step), u)
  {
    if Enabled(s, step) && step.Deliver? {
      var c := s.nodes[step.at];
      assert Clean(c) && Leq(VecOf(c), u) && Leq(step.m.ver.vec, u);
      ChangeCosts(r, step.at, c, step.m, step.mt, u);
    }
  }

  lemma StepCosts(r: Rules, rd: Round, exact: bool, s: Sys, step: Step, u: Vec)
    requires Bounded(s, u) && Exchange(step)
    requires exact ==> Fresh(rd) && !r.mergeable && SysInRound(r, rd, s)
    ensures var t := Exec(r, s, step);
      Total(Weights(exact, u, t)) + (if t.nodes == s.nodes then 0 else 1) <= Total(Weights(exact, u, s))
  {
    if Enabled(s, step) && step.Deliver? {
      var t := Exec(r, s, step);
      var c, c' := s.nodes[step.at], t.nodes[step.at];
      assert Clean(c) && Leq(VecOf(c), u) && Leq(step.m.ver.vec, u);
      DeliveryCosts(r, rd, exact, step.at, c, step.m, step.mt, u);
      ReweighOne(WeightBy(exact, u), s.nodes, step.at, c');
      assert c' == c ==> t.nodes == s.nodes;
    } else {
      assert Exec(r, s, step).nodes == s.nodes;
    }
  }

  lemma ReweighOne(f: Copy -> nat, nodes: map<Node, Copy>, i: Node, c: Copy)
    requires i in nodes
    ensures Total(Weighed(f, nodes[i := c])) + f(nodes[i]) == Total(Weighed(f, nodes)) + f(c)
  {
    assert Weighed(f, nodes[i := c]) == Weighed(f, nodes)[i := f(c)];
    TotalUpdate(Weighed(f, nodes), i, f(c));
  }

  /** No ping-pong: in any run without local edits, every step that changes anything is
      paid for out of the total distance to what the system knows (u, any bound on it).
      Within a write round the price is the gap itself; in general it is three times the
      gap, two for a node without an entry and one for a tombstone. */
  lemma {:induction false} NoPingPong(r: Rules, rd: Round, exact: bool, s: Sys, steps: seq<Step>, u: Vec)
    requires Bounded(s, u) && forall k :: 0 <= k < |steps| ==> Exchange(steps[k])
    requires exact ==> Fresh(rd) && !r.mergeable && SysInRound(r, rd, s)
    ensures Changes(r, s, steps) + Total(Weights(exact, u, Run(r, s, steps))) <= Total(Weights(exact, u, s))
    decreases |steps|
  {
    if steps != [] {
      StepCosts(r, rd, exact, s, steps[0], u);
      StepBounded(r, s, steps[0], u);
      if exact {
        StepInRound(r, rd, s, steps[0]);
      }
      forall k | 0 <= k < |steps[1..]| ensures Exchange(steps[1..][k]) {
        assert steps[1..][k] == steps[k + 1];
      }
      NoPingPong(r, rd, exact, Exec(r, s, steps[0]), steps[1..], u);
    }
  }
}
