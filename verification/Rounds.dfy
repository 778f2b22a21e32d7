/** One round of writes: nodes that start with a fresh write each, or at a common base,
    and exchange snapshots in any order. */
module Rounds {
  import opened Base
  import opened Vectors
  import opened Copies
  import opened Reconciling
  import opened Syncing

  /** base is what the nodes that wrote nothing hold, if anything; writes what the others stamped. */
  datatype Round = Round(base: Option<Message>, writes: map<Node, Message>)

  function BaseVec(rd: Round): Vec {
    if rd.base.Some? then rd.base.value.ver.vec else map[]
  }

  /** Every write carries its writer's own bump, which nobody else has seen, and was made
      on the base or on nothing older. */
  ghost predicate Fresh(rd: Round) {
    && (forall w :: w in rd.writes ==> Leq(BaseVec(rd), Written(rd, w)) && At(BaseVec(rd), w) < At(Written(rd, w), w))
    && (forall w, u :: w in rd.writes && u in rd.writes && u != w ==> At(Written(rd, u), w) < At(Written(rd, w), w))
    && (forall w :: w in rd.writes && rd.writes[w].ver.deleted ==> rd.writes[w].body == [])
    && (rd.base.Some? && rd.base.value.ver.deleted ==> rd.base.value.body == [])
  }

  function Written(rd: Round, w: Node): Vec
    requires w in rd.writes
  {
    rd.writes[w].ver.vec
  }

  /** The writes of the round that a vector has seen. */
  function Heard(rd: Round, v: Vec): set<Node> {
    set w | w in rd.writes && At(v, w) >= At(Written(rd, w), w)
  }

  /** v is the join of the base and the heard writes. */
  ghost predicate IsJoin(rd: Round, v: Vec) {
    && Leq(BaseVec(rd), v)
    && (forall w :: w in Heard(rd, v) ==> Leq(Written(rd, w), v))
    && (forall o :: Attained(rd, v, o))
  }

  ghost predicate Attained(rd: Round, v: Vec, o: Node) {
    At(v, o) == At(BaseVec(rd), o) || exists w :: w in Heard(rd, v) && At(v, o) == At(Written(rd, w), o)
  }

  ghost predicate LiveIn(rd: Round, heard: set<Node>, w: Node) {
    w in heard && w in rd.writes && !rd.writes[w].ver.deleted
  }

  /** The content the heard writes leave: the live one with the highest hash, a tombstone if
      none is live, and the base's while no write was heard. */
  ghost predicate IsContent(r: Rules, rd: Round, heard: set<Node>, deleted: bool, body: Bytes) {
    if heard == {} then
      rd.base.Some? && deleted == rd.base.value.ver.deleted && body == rd.base.value.body
    else if deleted then
      body == [] && forall w :: !LiveIn(rd, heard, w)
    else
      && (exists w :: LiveIn(rd, heard, w) && body == rd.writes[w].body)
      && (forall w :: LiveIn(rd, heard, w) ==> r.hash(rd.writes[w].body) <= r.hash(body))
  }

  ghost predicate InRound(r: Rules, rd: Round, ver: Version, body: Bytes) {
    IsJoin(rd, ver.vec) && IsContent(r, rd, Heard(rd, ver.vec), ver.deleted, body)
  }

  ghost predicate CopyInRound(r: Rules, rd: Round, c: Copy) {
    && Clean(c)
    && (if c.entry.None? then rd.base.None? else InRound(r, rd, c.entry.value.ver, BytesOf(c.file)))
  }

  ghost predicate NodesInRound(r: Rules, rd: Round, nodes: map<Node, Copy>) {
    forall i :: i in nodes ==> CopyInRound(r, rd, nodes[i])
  }

  ghost predicate NetInRound(r: Rules, rd: Round, net: set<Message>) {
    forall m :: m in net ==> InRound(r, rd, m.ver, m.body)
  }

  ghost predicate SysInRound(r: Rules, rd: Round, s: Sys) {
    s.saved.Keys == s.nodes.Keys && NodesInRound(r, rd, s.nodes) && NetInRound(r, rd, s.net)
  }

  /** The start: each writer holds its write, every other node the base, nothing is sent. */
  ghost predicate Start(rd: Round, s: Sys) {
    && s.saved.Keys == s.nodes.Keys && s.net == {} && rd.writes.Keys <= s.nodes.Keys
    && (forall i :: i in s.nodes ==> Clean(s.nodes[i]) && Holds(s.nodes[i], Original(rd, i)))
  }

  function Original(rd: Round, i: Node): Option<Message> {
    if i in rd.writes then Some(rd.writes[i]) else rd.base
  }

  ghost predicate Holds(c: Copy, m: Option<Message>) {
    if m.None? then c.entry.None?
    else c.entry.Some? && c.entry.value.ver == m.value.ver && BytesOf(c.file) == m.value.body
  }

  predicate Exchange(step: Step) {
    step.Send? || step.Deliver?
  }

  /** Different live writes of the round have different hashes. */
  ghost predicate NoCollision(r: Rules, rd: Round) {
    forall w, u :: w in rd.writes && u in rd.writes && r.hash(rd.writes[w].body) == r.hash(rd.writes[u].body)
      ==> rd.writes[w].body == rd.writes[u].body
  }

  // ---- vectors tell which writes were heard --------------------------------------

  /** Between vectors of the round, seeing everything and having heard every write are one. */
  lemma HeardOrders(rd: Round, v: Vec, u: Vec)
    requires Fresh(rd) && IsJoin(rd, v) && IsJoin(rd, u)
    ensures Leq(v, u) <==> Heard(rd, v) <= Heard(rd, u)
  {
    if Leq(v, u) {
      forall w | w in Heard(rd, v) ensures w in Heard(rd, u) {
        assert At(v, w) <= At(u, w);
      }
    }
    if Heard(rd, v) <= Heard(rd, u) {
      forall o ensures At(v, o) <= At(u, o) {
        assert Attained(rd, v, o);
        if At(v, o) != At(BaseVec(rd), o) {
          var w :| w in Heard(rd, v) && At(v, o) == At(Written(rd, w), o);
          assert Leq(Written(rd, w), u);
        }
      }
    }
  }

  lemma SameHeard(rd: Round, v: Vec, u: Vec)
    requires Same(v, u)
    ensures Heard(rd, v) == Heard(rd, u)
    ensures IsJoin(rd, v) ==> IsJoin(rd, u)
  {
    assert Heard(rd, v) == Heard(rd, u);
    if IsJoin(rd, v) {
      forall o ensures Attained(rd, u, o) {
        assert Attained(rd, v, o);
      }
    }
  }

  lemma JoinHeard(rd: Round, v: Vec, u: Vec)
    requires IsJoin(rd, v) && IsJoin(rd, u)
    ensures Heard(rd, Join(v, u)) == Heard(rd, v) + Heard(rd, u)
    ensures IsJoin(rd, Join(v, u))
  {
    var j := Join(v, u);
    JoinIsLeastUpperBound(v, u, j);
    LeqTransitive(BaseVec(rd), v, j);
    forall w | w in Heard(rd, j) ensures Leq(Written(rd, w), j) {
      LeqTransitive(Written(rd, w), if w in Heard(rd, v) then v else u, j);
    }
    forall o ensures Attained(rd, j, o) {
      JoinAttains(rd, v, u, o);
    }
  }

  lemma JoinAttains(rd: Round, v: Vec, u: Vec, o: Node)
    requires IsJoin(rd, v) && IsJoin(rd, u)
    ensures Attained(rd, Join(v, u), o)
  {
    assert Attained(rd, v, o) && Attained(rd, u, o);
    assert Heard(rd, v) <= Heard(rd, Join(v, u)) && Heard(rd, u) <= Heard(rd, Join(v, u));
  }

  // ---- landing stays within the round ---------------------------------------------

  /** A resolved pair of contents: live over deleted, then the higher hash, then ours. */
  function Combined(r: Rules, deleted: bool, body: Bytes, deleted': bool, body': Bytes): (bool, Bytes) {
    if deleted then (deleted', body')
    else if deleted' || r.hash(body') <= r.hash(body) then (false, body)
    else (false, body')
  }

  lemma ResolveCombines(r: Rules, c: Copy, body: Bytes, rv: Version, mt: int)
    requires Clean(c) && c.entry.Some? && !r.mergeable && (rv.deleted ==> body == [])
    ensures var l := Resolve(r, c, body, rv, mt).copy;
      && l.entry.Some? && VecOf(l) == Join(VecOf(c), rv.vec)
      && (!Live(l), BytesOf(l.file)) == Combined(r, !Live(c), BytesOf(c.file), rv.deleted, body)
  {
  }

  lemma CombinedContent(r: Rules, rd: Round, h: set<Node>, g: set<Node>, d: bool, b: Bytes, d': bool, b': Bytes)
    requires h != {} && g != {} && IsContent(r, rd, h, d, b) && IsContent(r, rd, g, d', b')
    ensures var (x, y) := Combined(r, d, b, d', b'); IsContent(r, rd, h + g, x, y)
  {
    assert forall w :: LiveIn(rd, h + g, w) <==> LiveIn(rd, h, w) || LiveIn(rd, g, w);
  }

  /** Two concurrent versions of the round: each has heard a write the other has not, and
      the resolution holds the content of the union. */
  lemma ResolveInRound(r: Rules, rd: Round, c: Copy, body: Bytes, rv: Version, mt: int)
    requires Fresh(rd) && !r.mergeable && CopyInRound(r, rd, c) && c.entry.Some? && InRound(r, rd, rv, body)
    requires Heard(rd, VecOf(c)) != {} && Heard(rd, rv.vec) != {}
    ensures var l := Resolve(r, c, body, rv, mt).copy;
      l.entry.Some? && InRound(r, rd, l.entry.value.ver, BytesOf(l.file))
  {
    JoinHeard(rd, VecOf(c), rv.vec);
    ResolveCombines(r, c, body, rv, mt);
    CombinedContent(r, rd, Heard(rd, VecOf(c)), Heard(rd, rv.vec), !Live(c), BytesOf(c.file), rv.deleted, body);
  }

  lemma LandInRound(r: Rules, rd: Round, self: Node, c: Copy, m: Message, mt: int)
    requires Fresh(rd) && !r.mergeable && CopyInRound(r, rd, c) && InRound(r, rd, m.ver, m.body)
    ensures var l := Land(r, self, c, m.body, m.ver, mt).copy;
      && CopyInRound(r, rd, l)
      && Heard(rd, VecOf(l)) == Heard(rd, VecOf(c)) + Heard(rd, m.ver.vec)
  {
    LandClean(r, self, c, m.body, m.ver, mt);
    var l := Land(r, self, c, m.body, m.ver, mt).copy;
    LandJoins(r, self, c, m.body, m.ver, mt);
    SameHeard(rd, VecOf(l), Join(VecOf(c), m.ver.vec));
    LandHeard(rd, VecOf(c), m.ver.vec);
    if c.entry.None? || Lt(VecOf(c), m.ver.vec) {
      SameHeard(rd, m.ver.vec, VecOf(l));
    } else if Superseded(c.entry.value, m.ver) {
    } else {
      ConcurrentInRound(r, rd, c, m);
      ResolveInRound(r, rd, c, m.body, m.ver, mt);
    }
  }

  /** A vector has heard a write when either of the two it joins had. */
  lemma LandHeard(rd: Round, v: Vec, u: Vec)
    ensures Heard(rd, Join(v, u)) == Heard(rd, v) + Heard(rd, u)
  {
  }

  lemma ContentFlag(r: Rules, rd: Round, h: set<Node>, d: bool, b: Bytes, d': bool, b': Bytes)
    requires IsContent(r, rd, h, d, b) && IsContent(r, rd, h, d', b')
    ensures d == d'
  {
  }

  /** What is neither adopted nor superseded within a round is concurrent on both sides. */
  lemma ConcurrentInRound(r: Rules, rd: Round, c: Copy, m: Message)
    requires Fresh(rd) && CopyInRound(r, rd, c) && c.entry.Some? && InRound(r, rd, m.ver, m.body)
    requires !Lt(VecOf(c), m.ver.vec) && !Superseded(c.entry.value, m.ver)
    ensures Heard(rd, VecOf(c)) != {} && Heard(rd, m.ver.vec) != {}
  {
    HeardOrders(rd, VecOf(c), m.ver.vec);
    HeardOrders(rd, m.ver.vec, VecOf(c));
    if Heard(rd, VecOf(c)) == Heard(rd, m.ver.vec) {
      ContentFlag(r, rd, Heard(rd, VecOf(c)), c.entry.value.ver.deleted, BytesOf(c.file), m.ver.deleted, m.body);
    }
  }

  lemma OfferInRound(r: Rules, rd: Round, c: Copy)
    requires CopyInRound(r, rd, c) && Offer(c).Some?
    ensures InRound(r, rd, Offer(c).value.ver, Offer(c).value.body)
  {
  }

  lemma {:induction false} RunInRound(r: Rules, rd: Round, s: Sys, steps: seq<Step>)
    requires Fresh(rd) && !r.mergeable && SysInRound(r, rd, s)
    requires forall k :: 0 <= k < |steps| ==> Exchange(steps[k])
    ensures SysInRound(r, rd, Run(r, s, steps))
    decreases |steps|
  {
    if steps != [] {
      StepInRound(r, rd, s, steps[0]);
      forall k | 0 <= k < |steps[1..]| ensures Exchange(steps[1..][k]) {
        assert steps[1..][k] == steps[k + 1];
      }
      RunInRound(r, rd, Exec(r, s, steps[0]), steps[1..]);
    }
  }

  lemma StepInRound(r: Rules, rd: Round, s: Sys, step: Step)
    requires Fresh(rd) && !r.mergeable && SysInRound(r, rd, s) && Exchange(step)
    ensures SysInRound(r, rd, Exec(r, s, step))
  {
    if Enabled(s, step) {
      var c := s.nodes[step.at];
      NewCopyInRound(r, rd, c, step);
      CopyPutInRound(r, rd, s.nodes, step.at, NewCopy(r, c, step));
      if step.Send? && Offer(c).Some? {
        OfferInRound(r, rd, c);
        MessageAddedInRound(r, rd, s.net, Offer(c).value);
      }
    }
  }

  lemma CopyPutInRound(r: Rules, rd: Round, nodes: map<Node, Copy>, i: Node, c: Copy)
    requires NodesInRound(r, rd, nodes) && CopyInRound(r, rd, c)
    ensures NodesInRound(r, rd, nodes[i := c])
  {
  }

  lemma MessageAddedInRound(r: Rules, rd: Round, net: set<Message>, m: Message)
    requires NetInRound(r, rd, net) && InRound(r, rd, m.ver, m.body)
    ensures NetInRound(r, rd, net + {m})
  {
  }

  lemma NewCopyInRound(r: Rules, rd: Round, c: Copy, step: Step)
    requires Fresh(rd) && !r.mergeable && CopyInRound(r, rd, c) && Exchange(step)
    requires step.Deliver? ==> InRound(r, rd, step.m.ver, step.m.body)
    ensures CopyInRound(r, rd, NewCopy(r, c, step))
  {
    if step.Deliver? {
      LandInRound(r, rd, step.at, c, step.m, step.mt);
    }
  }

  lemma StartInRound(r: Rules, rd: Round, s: Sys)
    requires Fresh(rd) && Start(rd, s)
    ensures SysInRound(r, rd, s)
  {
    forall i | i in s.nodes ensures CopyInRound(r, rd, s.nodes[i]) {
      assert Clean(s.nodes[i]) && Holds(s.nodes[i], Original(rd, i));
      if i in rd.writes {
        WriteHeardAlone(rd, i);
        var v := Written(rd, i);
        forall o ensures Attained(rd, v, o) {
          assert i in Heard(rd, v) && At(v, o) == At(Written(rd, i), o);
        }
        assert !rd.writes[i].ver.deleted ==> LiveIn(rd, {i}, i);
      } else if rd.base.Some? {
        assert Heard(rd, BaseVec(rd)) == {};
        forall o ensures Attained(rd, BaseVec(rd), o) {
        }
      }
    }
  }

  lemma WriteHeardAlone(rd: Round, i: Node)
    requires Fresh(rd) && i in rd.writes
    ensures Heard(rd, Written(rd, i)) == {i}
  {
  }

  /** Two copies of the round that have heard the same writes are the same. */
  lemma HeardSameAgree(r: Rules, rd: Round, a: Copy, b: Copy)
    requires Fresh(rd) && NoCollision(r, rd) && CopyInRound(r, rd, a) && CopyInRound(r, rd, b)
    requires Heard(rd, VecOf(a)) == Heard(rd, VecOf(b))
    ensures Agree(a, b)
  {
    if a.entry.Some? && b.entry.Some? {
      HeardOrders(rd, VecOf(a), VecOf(b));
      HeardOrders(rd, VecOf(b), VecOf(a));
      forall o ensures At(VecOf(a), o) == At(VecOf(b), o) {
        assert At(VecOf(a), o) <= At(VecOf(b), o) <= At(VecOf(a), o);
      }
      var h := Heard(rd, VecOf(a));
      assert IsContent(r, rd, h, !Live(a), BytesOf(a.file));
      assert IsContent(r, rd, h, !Live(b), BytesOf(b.file));
    }
  }

  /** Convergence of a write round. Whatever snapshots are sent, lost, repeated and
      reordered: every node's vector is the join of the writes it has heard, its content
      the highest-hash live one of those (a tombstone if none is live), equal vectors mean
      equal copies, and nodes that heard every write agree. */
  lemma WriteRoundConverges(r: Rules, rd: Round, s: Sys, steps: seq<Step>, i: Node, j: Node)
    requires Fresh(rd) && !r.mergeable && NoCollision(r, rd) && Start(rd, s)
    requires forall k :: 0 <= k < |steps| ==> Exchange(steps[k])
    requires i in s.nodes && j in s.nodes
    ensures var t := Run(r, s, steps);
      && i in t.nodes && j in t.nodes
      && CopyInRound(r, rd, t.nodes[i])
      && (i in rd.writes ==> i in Heard(rd, VecOf(t.nodes[i])))
      && (Same(VecOf(t.nodes[i]), VecOf(t.nodes[j])) ==> Agree(t.nodes[i], t.nodes[j]))
      && (HeardAll(rd, t.nodes[i]) && HeardAll(rd, t.nodes[j]) ==> Agree(t.nodes[i], t.nodes[j]))
  {
    var t := Run(r, s, steps);
    StartInRound(r, rd, s);
    RunInRound(r, rd, s, steps);
    RunGrows(r, s, steps);
    OwnWriteHeard(rd, s, t, i);
    InRoundAgree(r, rd, t.nodes[i], t.nodes[j]);
  }

  lemma OwnWriteHeard(rd: Round, s: Sys, t: Sys, i: Node)
    requires Start(rd, s) && Grown(s, t) && i in s.nodes
    ensures i in rd.writes ==> i in Heard(rd, VecOf(t.nodes[i]))
  {
    if i in rd.writes {
      assert Clean(s.nodes[i]) && Holds(s.nodes[i], Original(rd, i));
      assert Leq(VecOf(s.nodes[i]), VecOf(t.nodes[i]));
      assert At(VecOf(s.nodes[i]), i) <= At(VecOf(t.nodes[i]), i);
    }
  }

  ghost predicate HeardAll(rd: Round, c: Copy) {
    rd.writes.Keys <= Heard(rd, VecOf(c))
  }

  lemma InRoundAgree(r: Rules, rd: Round, a: Copy, b: Copy)
    requires Fresh(rd) && NoCollision(r, rd) && CopyInRound(r, rd, a) && CopyInRound(r, rd, b)
    ensures Same(VecOf(a), VecOf(b)) ==> Agree(a, b)
    ensures HeardAll(rd, a) && HeardAll(rd, b) ==> Agree(a, b)
  {
    if Same(VecOf(a), VecOf(b)) {
      SameHeard(rd, VecOf(a), VecOf(b));
      HeardSameAgree(r, rd, a, b);
    }
    if HeardAll(rd, a) && HeardAll(rd, b) {
      assert Heard(rd, VecOf(a)) == Heard(rd, VecOf(b));
      HeardSameAgree(r, rd, a, b);
    }
  }

  lemma {:induction false} RunGrows(r: Rules, s: Sys, steps: seq<Step>)
    ensures Grown(s, Run(r, s, steps))
    decreases |steps|
  {
    if steps != [] {
      StepGrows(r, s, steps[0]);
      RunGrows(r, Exec(r, s, steps[0]), steps[1..]);
      GrownTransitive(s, Exec(r, s, steps[0]), Run(r, s, steps));
    }
  }
}
