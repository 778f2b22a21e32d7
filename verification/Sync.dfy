/** Nodes syncing one file key, as a step system. Messages are never taken off the wire,
    so they may be lost, repeated and reordered at will. */
module Syncing {
  import opened Base
  import opened Vectors
  import opened Copies
  import opened Engines
  import opened Reconciling

  datatype Sys = Sys(nodes: map<Node, Copy>, saved: map<Node, seq<Bytes>>, net: set<Message>)

  /** Edit is any change to the file on disk, by the API or behind its back; Write and
      Delete are LocalWrite and LocalDelete, Scan is ScanLocal, Deliver is ApplyRemote. */
  datatype Step =
    | Edit(at: Node, file: Option<File>)
    | Write(at: Node)
    | Delete(at: Node)
    | Scan(at: Node)
    | Send(at: Node)
    | Deliver(at: Node, m: Message, mt: int)

  ghost function NewCopy(r: Rules, c: Copy, step: Step): Copy {
    match step
    case Edit(_, f) => c.(file := f)
    case Write(i) => if Carried(c) then Copy(Some(Stamp(Version(Advance(VecOf(c), i), false), c.file)), c.file) else c
    case Delete(i) => Copy(Some(FileState(Version(Advance(VecOf(c), i), true), 0, 0)), c.file)
    case Scan(i) => Scanned(c, i, true, true)
    case Send(_) => c
    case Deliver(i, m, mt) => Land(r, i, c, m.body, m.ver, mt).copy
  }

  ghost function NewlySaved(r: Rules, c: Copy, step: Step): seq<Bytes> {
    if step.Deliver? then
      var b := Land(r, step.at, c, step.m.body, step.m.ver, step.mt).saved;
      if b.Some? then [b.value] else []
    else []
  }

  predicate Enabled(s: Sys, step: Step) {
    step.at in s.nodes && step.at in s.saved && (step.Deliver? ==> step.m in s.net)
  }

  ghost function Exec(r: Rules, s: Sys, step: Step): Sys {
    if !Enabled(s, step) then s else
    var c := s.nodes[step.at];
    Sys(s.nodes[step.at := NewCopy(r, c, step)],
        s.saved[step.at := s.saved[step.at] + NewlySaved(r, c, step)],
        if step.Send? && Offer(c).Some? then s.net + {Offer(c).value} else s.net)
  }

  ghost function Run(r: Rules, s: Sys, steps: seq<Step>): Sys
    decreases |steps|
  {
    if steps == [] then s else Run(r, Exec(r, s, steps[0]), steps[1..])
  }

  // ---- a node's own component is its own ---------------------------------------

  /** No other node and no message is ahead of a node in that node's own component. */
  ghost predicate OwnTop(s: Sys) {
    && (forall i, j :: i in s.nodes && j in s.nodes ==> At(VecOf(s.nodes[j]), i) <= At(VecOf(s.nodes[i]), i))
    && (forall i, m :: i in s.nodes && m in s.net ==> At(m.ver.vec, i) <= At(VecOf(s.nodes[i]), i))
  }

  ghost predicate Inv(s: Sys) {
    && s.saved.Keys == s.nodes.Keys
    && (forall i :: i in s.nodes ==> Formed(s.nodes[i]))
    && OwnTop(s)
  }

  /** Before anything is stamped: whatever is on the disks, no entries and no messages. */
  ghost predicate Unstamped(s: Sys) {
    && s.saved.Keys == s.nodes.Keys && s.net == {}
    && (forall i :: i in s.nodes ==> s.nodes[i].entry.None?)
  }

  lemma UnstampedInv(s: Sys)
    requires Unstamped(s)
    ensures Inv(s)
  {
  }

  /** A step raises a foreign component at most to what its message carries, and lowers nothing. */
  lemma NewCopyVec(r: Rules, c: Copy, step: Step, o: Node)
    ensures At(VecOf(c), o) <= At(VecOf(NewCopy(r, c, step)), o)
    ensures o != step.at ==>
      At(VecOf(NewCopy(r, c, step)), o) <= Max(At(VecOf(c), o), if step.Deliver? then At(step.m.ver.vec, o) else 0)
  {
    if step.Deliver? {
      LandJoinsAt(r, step.at, c, step.m.body, step.m.ver, step.mt, o);
    }
  }

  lemma NewCopyFormed(r: Rules, c: Copy, step: Step)
    requires Formed(c)
    ensures Formed(NewCopy(r, c, step))
  {
    if step.Deliver? {
      LandSeen(r, step.at, c, step.m.body, step.m.ver, step.mt);
    }
  }

  lemma StepKeepsInv(r: Rules, s: Sys, step: Step)
    requires Inv(s)
    ensures Inv(Exec(r, s, step))
  {
    if Enabled(s, step) {
      NewCopyFormed(r, s.nodes[step.at], step);
      StepKeepsNodes(r, s, step);
      StepKeepsNet(r, s, step);
    }
  }

  lemma StepKeepsNodes(r: Rules, s: Sys, step: Step)
    requires OwnTop(s) && Enabled(s, step) && Formed(s.nodes[step.at])
    ensures var t := Exec(r, s, step);
      forall i, j :: i in t.nodes && j in t.nodes ==> At(VecOf(t.nodes[j]), i) <= At(VecOf(t.nodes[i]), i)
  {
    var t := Exec(r, s, step);
    forall i, j | i in t.nodes && j in t.nodes
      ensures At(VecOf(t.nodes[j]), i) <= At(VecOf(t.nodes[i]), i)
    {
      NewCopyVec(r, s.nodes[step.at], step, i);
      assert At(VecOf(s.nodes[j]), i) <= At(VecOf(s.nodes[i]), i);
    }
  }

  lemma StepKeepsNet(r: Rules, s: Sys, step: Step)
    requires OwnTop(s) && Enabled(s, step) && Formed(s.nodes[step.at])
    ensures var t := Exec(r, s, step);
      forall i, m :: i in t.nodes && m in t.net ==> At(m.ver.vec, i) <= At(VecOf(t.nodes[i]), i)
  {
    var t, c := Exec(r, s, step), s.nodes[step.at];
    forall i, m | i in t.nodes && m in t.net
      ensures At(m.ver.vec, i) <= At(VecOf(t.nodes[i]), i)
    {
      NewCopyVec(r, c, step, i);
      if m !in s.net {
        assert m.ver.vec == VecOf(c);
      }
    }
  }

  /** Later: same nodes, no message gone, vectors at least as high, backups only added to. */
  ghost predicate Grown(s: Sys, t: Sys) {
    && t.nodes.Keys == s.nodes.Keys && t.saved.Keys == s.saved.Keys && s.net <= t.net
    && (forall i :: i in s.nodes ==> Leq(VecOf(s.nodes[i]), VecOf(t.nodes[i])))
    && (forall i :: i in s.saved ==> s.saved[i] <= t.saved[i])
  }

  lemma StepGrows(r: Rules, s: Sys, step: Step)
    ensures Grown(s, Exec(r, s, step))
  {
    if Enabled(s, step) {
      forall o ensures At(VecOf(s.nodes[step.at]), o) <= At(VecOf(Exec(r, s, step).nodes[step.at]), o) {
        NewCopyVec(r, s.nodes[step.at], step, o);
      }
    }
  }

  lemma GrownTransitive(s: Sys, t: Sys, u: Sys)
    requires Grown(s, t) && Grown(t, u)
    ensures Grown(s, u)
  {
    forall i | i in s.nodes ensures Leq(VecOf(s.nodes[i]), VecOf(u.nodes[i])) {
      LeqTransitive(VecOf(s.nodes[i]), VecOf(t.nodes[i]), VecOf(u.nodes[i]));
    }
    forall i | i in s.saved ensures s.saved[i] <= u.saved[i] {
      assert s.saved[i] <= t.saved[i] <= u.saved[i];
    }
  }

  /** Over any run: the invariant holds, every vector only grows, and conflict backups are
      never taken back. */
  lemma {:induction false} RunKeeps(r: Rules, s: Sys, steps: seq<Step>)
    requires Inv(s)
    ensures Inv(Run(r, s, steps)) && Grown(s, Run(r, s, steps))
    decreases |steps|
  {
    if steps != [] {
      var u := Exec(r, s, steps[0]);
      StepKeepsInv(r, s, steps[0]);
      StepGrows(r, s, steps[0]);
      RunKeeps(r, u, steps[1..]);
      GrownTransitive(s, u, Run(r, s, steps));
    }
  }

  // ---- no lost update ------------------------------------------------------------

  /** The incoming version strictly dominates what the manifest says, the manifest had
      seen the bytes, and the sender had every write this node made to the file. */
  ghost predicate AdoptedOver(i: Node, c: Copy, m: Message) {
    && Seen(c) && c.entry.Some? && Lt(VecOf(c), m.ver.vec)
    && At(m.ver.vec, i) == At(VecOf(c), i)
  }

  /** Concurrent live versions of a file without record merging: the bytes are saved. */
  ghost predicate ResolvedOver(r: Rules, i: Node, c: Copy, m: Message, c': Copy, saved: seq<Bytes>) {
    && !m.ver.deleted && c'.file.Some? && BytesOf(c'.file) == m.body
    && !Leq(m.ver.vec, VecOf(Versioned(c, i))) && !Leq(VecOf(Versioned(c, i)), m.ver.vec)
    && r.hash(m.body) > r.hash(BytesOf(c.file))
    && (BytesOf(c.file) != [] ==> saved == [BytesOf(c.file)])
  }

  /** An empty file that carries a tombstone's fingerprint. */
  ghost predicate EmptyTombstone(c: Copy) {
    Seen(c) && c.entry.Some? && !Live(c) && BytesOf(c.file) == []
  }

  ghost predicate MergedOver(r: Rules, c: Copy, m: Message, c': Copy) {
    && r.mergeable && !m.ver.deleted && c'.file.Some?
    && r.merge(BytesOf(c.file), m.body) == Some(BytesOf(c'.file))
  }

  /** In any state a run can reach, a step that changes the file on a node's disk is an
      edit there, or a delivery there that (1) adopts a strictly dominating version over
      bytes the manifest had seen and the sender had heard of, (2) lands on an empty file a
      tombstone stands for, (3) resolves a conflict and saves the bytes, or (4) merges
      records. A file is removed only by (1). */
  lemma NoLostUpdate(r: Rules, s: Sys, step: Step, i: Node)
    requires Inv(s) && i in s.nodes && s.nodes[i].file.Some?
    requires Exec(r, s, step).nodes[i].file != s.nodes[i].file
    ensures Enabled(s, step) && step.at == i
    ensures var c, c' := s.nodes[i], Exec(r, s, step).nodes[i];
      step.Edit? || (step.Deliver? &&
        (|| AdoptedOver(i, c, step.m)
         || EmptyTombstone(c)
         || ResolvedOver(r, i, c, step.m, c', NewlySaved(r, c, step))
         || MergedOver(r, c, step.m, c')))
    ensures step.Deliver? && Exec(r, s, step).nodes[i].file.None? ==>
      AdoptedOver(i, s.nodes[i], step.m) && step.m.ver.deleted
  {
    var c := s.nodes[i];
    if step.Deliver? {
      assert At(step.m.ver.vec, i) <= At(VecOf(c), i);
      DeliveryReplaces(r, c, step);
    }
  }

  /** What a delivery does to the bytes on disk, when the message knows no more of this
      node's writes than the node does. */
  lemma DeliveryReplaces(r: Rules, c: Copy, step: Step)
    requires step.Deliver? && Formed(c) && c.file.Some? && At(step.m.ver.vec, step.at) <= At(VecOf(c), step.at)
    requires NewCopy(r, c, step).file != c.file
    ensures var c' := NewCopy(r, c, step);
      || AdoptedOver(step.at, c, step.m)
      || (EmptyTombstone(c) && c'.file.Some?)
      || ResolvedOver(r, step.at, c, step.m, c', NewlySaved(r, c, step))
      || (MergedOver(r, c, step.m, c') && c'.file.Some?)
    ensures NewCopy(r, c, step).file.None? ==> AdoptedOver(step.at, c, step.m) && step.m.ver.deleted
  {
    var v := Versioned(c, step.at);
    var m := step.m;
    if Lt(VecOf(v), m.ver.vec) {
      assert At(VecOf(v), step.at) <= At(m.ver.vec, step.at);
    } else if !Superseded(v.entry.value, m.ver) && Live(v) && !m.ver.deleted {
      ConcurrentUnlessEqual(v.entry.value, m.ver);
      ResolutionReplaces(r, v, m.body, m.ver, step.mt);
    }
  }

  /** Two live versions: only a record merge or the higher hash replaces the bytes. */
  lemma ResolutionReplaces(r: Rules, v: Copy, body: Bytes, rv: Version, mt: int)
    requires Live(v) && v.file.Some? && !rv.deleted && Resolve(r, v, body, rv, mt).copy.file != v.file
    ensures var l := Resolve(r, v, body, rv, mt);
      && l.copy.file.Some?
      && ((r.mergeable && r.merge(BytesOf(v.file), body) == Some(BytesOf(l.copy.file)))
          || (BytesOf(l.copy.file) == body && r.hash(body) > r.hash(BytesOf(v.file))
              && l.saved == Backup(BytesOf(v.file))))
  {
  }

  /** Two versions that neither order nor supersede are concurrent, or differ in the flag alone. */
  lemma ConcurrentUnlessEqual(l: FileState, rv: Version)
    requires !Lt(l.ver.vec, rv.vec) && !Superseded(l, rv) && l.ver.deleted == rv.deleted
    ensures !Leq(l.ver.vec, rv.vec) && !Leq(rv.vec, l.ver.vec)
  {
  }

  /** Nobody but node i, and no message, knows i's latest write (or what i would stamp on
      bytes its manifest has not seen). */
  ghost predicate Unheard(s: Sys, i: Node)
    requires i in s.nodes
  {
    var own := At(VecOf(Versioned(s.nodes[i], i)), i);
    && (forall m :: m in s.net ==> At(m.ver.vec, i) < own)
    && (forall j :: j in s.nodes && j != i ==> At(VecOf(s.nodes[j]), i) < own)
  }

  ghost predicate KeepsFileHere(step: Step, i: Node) {
    step.at == i ==> !step.Edit? && !step.Send?
  }

  lemma UnheardStays(r: Rules, s: Sys, step: Step, i: Node)
    requires Inv(s) && i in s.nodes && Unheard(s, i) && s.nodes[i].file.Some?
    requires KeepsFileHere(step, i) && Exec(r, s, step).nodes[i].file == s.nodes[i].file
    ensures Unheard(Exec(r, s, step), i)
  {
    if Enabled(s, step) {
      if step.at == i {
        NewCopyVec(r, s.nodes[step.at], step, i);
        OwnStampGrows(r, s.nodes[i], step, i);
      } else {
        UnheardAtOthers(r, s, step, i);
      }
    }
  }

  lemma UnheardAtOthers(r: Rules, s: Sys, step: Step, i: Node)
    requires i in s.nodes && Unheard(s, i) && Enabled(s, step) && step.at != i
    ensures Unheard(Exec(r, s, step), i)
  {
    var own := At(VecOf(Versioned(s.nodes[i], i)), i);
    StaysBelow(r, s, step, i, own);
    assert Exec(r, s, step).nodes[i] == s.nodes[i];
  }

  /** What another node does raises no vector and no message to what nobody has heard of. */
  lemma StaysBelow(r: Rules, s: Sys, step: Step, i: Node, own: nat)
    requires Enabled(s, step) && step.at != i
    requires forall m :: m in s.net ==> At(m.ver.vec, i) < own
    requires forall j :: j in s.nodes && j != i ==> At(VecOf(s.nodes[j]), i) < own
    ensures forall m :: m in Exec(r, s, step).net ==> At(m.ver.vec, i) < own
    ensures forall j :: j in Exec(r, s, step).nodes && j != i ==> At(VecOf(Exec(r, s, step).nodes[j]), i) < own
  {
    var c := s.nodes[step.at];
    NewCopyVec(r, c, step, i);
    assert Offer(c).Some? ==> Offer(c).value.ver.vec == VecOf(c);
  }

  lemma OwnStampGrows(r: Rules, c: Copy, step: Step, i: Node)
    requires Formed(c) && c.file.Some? && step.at == i && !step.Edit?
    requires NewCopy(r, c, step).file == c.file
    ensures At(VecOf(Versioned(c, i)), i) <= At(VecOf(Versioned(NewCopy(r, c, step), i)), i)
  {
    if step.Deliver? {
      LandJoinsAt(r, i, c, step.m.body, step.m.ver, step.mt, i);
      LandSeen(r, i, c, step.m.body, step.m.ver, step.mt);
    }
  }

  /** Over any run of a file without record merging in which node i neither edits it nor
      sends it: bytes nobody has heard of stay on i's disk, or are in its conflict backups
      (an empty file has nothing to save). */
  lemma {:induction false} UnheardWriteSurvives(r: Rules, s: Sys, steps: seq<Step>, i: Node)
    requires !r.mergeable && Inv(s) && i in s.nodes && s.nodes[i].file.Some? && Unheard(s, i)
    requires forall k :: 0 <= k < |steps| ==> KeepsFileHere(steps[k], i)
    ensures var t := Run(r, s, steps);
      var b := s.nodes[i].file.value.bytes;
      && i in t.nodes && i in t.saved
      && (t.nodes[i].file == s.nodes[i].file || b == [] || b in t.saved[i])
    decreases |steps|
  {
    if steps != [] {
      var u := Exec(r, s, steps[0]);
      StepKeepsInv(r, s, steps[0]);
      assert KeepsFileHere(steps[0], i);
      if u.nodes[i].file == s.nodes[i].file {
        UnheardStays(r, s, steps[0], i);
        forall k | 0 <= k < |steps[1..]| ensures KeepsFileHere(steps[1..][k], i) {
          assert steps[1..][k] == steps[k + 1];
        }
        UnheardWriteSurvives(r, u, steps[1..], i);
      } else {
        UnheardReplacedIsSaved(r, s, steps[0], i);
        RunKeeps(r, u, steps[1..]);
      }
    }
  }

  /** Bytes nobody has heard of that a delivery replaces are saved by that very step. */
  lemma UnheardReplacedIsSaved(r: Rules, s: Sys, step: Step, i: Node)
    requires !r.mergeable && Inv(s) && i in s.nodes && s.nodes[i].file.Some? && Unheard(s, i)
    requires KeepsFileHere(step, i) && Exec(r, s, step).nodes[i].file != s.nodes[i].file
    ensures var b := BytesOf(s.nodes[i].file); b == [] || b in Exec(r, s, step).saved[i]
  {
    NoLostUpdate(r, s, step, i);
    var b := BytesOf(s.nodes[i].file);
    assert !AdoptedOver(i, s.nodes[i], step.m);
    assert b == [] || Exec(r, s, step).saved[i] == s.saved[i] + [b];
  }
}
