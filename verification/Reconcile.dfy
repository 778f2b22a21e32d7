/** One pass of Engine.reconcile between two nodes (internal/peer/engine.go). */
module Reconciling {
  import opened Base
  import opened Vectors
  import opened Copies
  import opened Engines

  /** A push or fetch carries one snapshot: the version and, for a live file, its bytes. */
  datatype Message = Message(ver: Version, body: Bytes)

  /** The snapshot a node gives of its copy: none without an entry, without the file, or
      with one too big to carry. */
  function Offer(c: Copy): Option<Message> {
    if c.entry.None? then None
    else if c.entry.value.ver.deleted then Some(Message(c.entry.value.ver, []))
    else if Carried(c) then Some(Message(c.entry.value.ver, c.file.value.bytes))
    else None
  }

  /** A deletion is offered without bytes, a file with its own, up to 100 MiB, and nothing else is. */
  lemma OfferIs(c: Copy)
    ensures Offer(c).Some? <==> c.entry.Some? && (Live(c) ==> c.file.Some? && |c.file.value.bytes| <= 104857600)
    ensures Offer(c).Some? ==>
      Offer(c) == Some(Message(c.entry.value.ver, if Live(c) then BytesOf(c.file) else []))
  {
  }

  /** Strictly newer, or concurrent, or not held at all. */
  ghost predicate Ahead(v: Vec, than: Option<FileState>) {
    than.Some? ==> !Leq(v, than.value.ver.vec)
  }

  ghost function Received(r: Rules, self: Node, valid: bool, c: Copy, m: Option<Message>, mt: int): Copy {
    if valid && m.Some? then Land(r, self, c, m.value.body, m.value.ver, mt).copy else c
  }

  /** The asking side after the pass, for one key. */
  ghost function AfterPull(r: Rules, self: Node, valid: bool, ours: Copy, theirs: Copy, mt: int): Copy {
    if theirs.entry.Some? && Ahead(VecOf(theirs), ours.entry)
    then Received(r, self, valid, ours, Offer(theirs), mt) else ours
  }

  /** The asked side after the pass: whether to push is judged on the asking side's
      manifest from before its pulls, what is pushed is what it holds after them. */
  ghost function AfterPush(r: Rules, self: Node, valid: bool, theirs: Copy, ours: Copy, oursNow: Copy, mt: int): Copy {
    if ours.entry.Some? && Ahead(VecOf(ours), theirs.entry)
    then Received(r, self, valid, theirs, Offer(oursNow), mt) else theirs
  }

  /** Same vector, same tombstone flag, same bytes. */
  ghost predicate Agree(a: Copy, b: Copy) {
    && a.entry.Some? == b.entry.Some?
    && Same(VecOf(a), VecOf(b))
    && Live(a) == Live(b)
    && BytesOf(a.file) == BytesOf(b.file)
  }

  ghost predicate InCap(c: Copy) {
    Live(c) ==> Carried(c)
  }

  /** Manifests agree with disks, files are in cap, and equal vectors already agree. */
  ghost predicate Undisturbed(a: Copy, b: Copy) {
    && Clean(a) && Clean(b) && InCap(a) && InCap(b)
    && (a.entry.Some? && b.entry.Some? && Same(VecOf(a), VecOf(b)) ==> Agree(a, b))
  }

  /** One undisturbed pass leaves both nodes with the same vector, flag and bytes for the
      key: the join of the two vectors, even where the asking side resolved a conflict
      before it pushed, and whatever a merge of the two documents came out as. */
  lemma OnePassAgrees(r: Rules, rb: Rules, na: Node, nb: Node, a: Copy, b: Copy, ma: int, mb: int)
    requires Undisturbed(a, b)
    requires InCap(AfterPull(r, na, true, a, b, ma))
    ensures var a' := AfterPull(r, na, true, a, b, ma);
      var b' := AfterPush(rb, nb, true, b, a, a', mb);
      && Agree(a', b')
      && Same(VecOf(a'), Join(VecOf(a), VecOf(b)))
      && Clean(a') && Clean(b')
  {
    var a' := AfterPull(r, na, true, a, b, ma);
    var b' := AfterPush(rb, nb, true, b, a, a', mb);
    if a.entry.Some? && b.entry.Some? {
      BothHold(r, rb, na, nb, a, b, ma, mb);
    } else if b.entry.Some? {
      OnlyTheirs(r, na, a, b, ma);
    } else if a.entry.Some? {
      OnlyTheirs(rb, nb, b, a, mb);
      JoinCommutes(VecOf(a), VecOf(b));
    }
  }

  /** A node without an entry takes what it is offered. */
  lemma OnlyTheirs(r: Rules, self: Node, c: Copy, from: Copy, mt: int)
    requires Clean(c) && Clean(from) && InCap(from) && c.entry.None? && from.entry.Some?
    ensures var l := Land(r, self, c, Offer(from).value.body, Offer(from).value.ver, mt).copy;
      && Agree(l, from) && Clean(l)
      && Same(VecOf(l), Join(VecOf(c), VecOf(from))) && Same(VecOf(from), Join(VecOf(c), VecOf(from)))
  {
    LandClean(r, self, c, Offer(from).value.body, Offer(from).value.ver, mt);
    LandJoins(r, self, c, Offer(from).value.body, Offer(from).value.ver, mt);
  }

  /** A strictly newer offer is adopted as it is. */
  lemma Adopted(r: Rules, self: Node, c: Copy, from: Copy, mt: int)
    requires Clean(c) && Clean(from) && InCap(from) && c.entry.Some? && from.entry.Some?
    requires Lt(VecOf(c), VecOf(from))
    ensures var l := Land(r, self, c, Offer(from).value.body, Offer(from).value.ver, mt).copy;
      Agree(l, from) && Clean(l)
  {
    LandClean(r, self, c, Offer(from).value.body, Offer(from).value.ver, mt);
  }

  lemma BothHold(r: Rules, rb: Rules, na: Node, nb: Node, a: Copy, b: Copy, ma: int, mb: int)
    requires Undisturbed(a, b) && a.entry.Some? && b.entry.Some?
    requires InCap(AfterPull(r, na, true, a, b, ma))
    ensures var a' := AfterPull(r, na, true, a, b, ma);
      var b' := AfterPush(rb, nb, true, b, a, a', mb);
      Agree(a', b') && Same(VecOf(a'), Join(VecOf(a), VecOf(b))) && Clean(a') && Clean(b')
  {
    var va, vb := VecOf(a), VecOf(b);
    var a' := AfterPull(r, na, true, a, b, ma);
    if Leq(vb, va) {
      JoinAbsorbs(va, vb);
      if Leq(va, vb) {
        forall o ensures At(va, o) == At(vb, o) {
          assert At(va, o) <= At(vb, o) <= At(va, o);
        }
      } else {
        Adopted(rb, nb, b, a, mb);
      }
    } else {
      LandJoins(r, na, a, Offer(b).value.body, Offer(b).value.ver, ma);
      LandClean(r, na, a, Offer(b).value.body, Offer(b).value.ver, ma);
      if Leq(va, vb) {
        Adopted(r, na, a, b, ma);
      } else {
        assert Lt(vb, VecOf(a')) by {
          if Leq(VecOf(a'), vb) {
            LeqTransitive(va, VecOf(a'), vb);
          }
        }
        Adopted(rb, nb, b, a', mb);
      }
    }
  }

  /** Two nodes that each wrote a record document without knowing of the other's: after one
      pass both hold the union of the two. */
  lemma OnePassUnites(r: Rules, rb: Rules, na: Node, nb: Node, a: Copy, b: Copy, ma: int, mb: int)
    requires Undisturbed(a, b) && Live(a) && Live(b) && Concurrent(VecOf(a), VecOf(b))
    requires var ours, theirs := BytesOf(a.file), BytesOf(b.file);
      r.mergeable && Parses(r, ours) && Parses(r, theirs) && r.merge(ours, theirs).Some?
    requires InCap(AfterPull(r, na, true, a, b, ma))
    ensures var a' := AfterPull(r, na, true, a, b, ma);
      var b' := AfterPush(rb, nb, true, b, a, a', mb);
      && Live(a') && Live(b')
      && Some(BytesOf(a'.file)) == Some(BytesOf(b'.file)) == r.merge(BytesOf(a.file), BytesOf(b.file))
  {
    OnePassAgrees(r, rb, na, nb, a, b, ma, mb);
    DocumentsUnite(r, na, a, Offer(b).value.body, Offer(b).value.ver, ma);
  }

  /** fetchFrom: a tombstone needs no request, a file is served by FileForPeer. */
  method FetchFrom(a: Engine, b: Engine, key: Key, rv: Version, mt: int)
    requires a != b && a.man != b.man && a.valid(key)
    requires key in b.man.files && b.man.files[key].ver == rv
    modifies a, a.man
    ensures a.CopyOf(key) == Received(a.rules(key), a.self, true, old(a.CopyOf(key)), old(Offer(b.CopyOf(key))), mt)
    ensures forall k :: k != key ==> a.CopyOf(k) == old(a.CopyOf(k))
  {
    if rv.deleted {
      var _ := a.ApplyRemote(key, [], rv, mt);
      return;
    }
    if key !in b.disk || |b.disk[key].bytes| > MaxSyncFile {
      return;
    }
    var _ := a.ApplyRemote(key, b.disk[key].bytes, rv, mt);
  }

  /** pushTo: the current version, unless the file is gone or too big. */
  method PushTo(a: Engine, b: Engine, key: Key, mt: int)
    requires a != b && a.man != b.man
    modifies b, b.man
    ensures b.CopyOf(key)
        == Received(b.rules(key), b.self, b.valid(key), old(b.CopyOf(key)), old(Offer(a.CopyOf(key))), mt)
    ensures forall k :: k != key ==> b.CopyOf(k) == old(b.CopyOf(k))
  {
    var v := a.man.Get(key);
    if v.None? {
      return;
    }
    var body: Bytes := [];
    if !v.value.ver.deleted {
      if key !in a.disk || |a.disk[key].bytes| > MaxSyncFile {
        return;
      }
      body := a.disk[key].bytes;
    }
    var _ := b.ApplyRemote(key, body, v.value.ver, mt);
  }

  /** reconcile: both manifests are read first, then what the peer has newer is fetched,
      then what we had newer is pushed; keys come in any order. */
  method Reconcile(a: Engine, b: Engine, ma: Key -> int, mb: Key -> int)
    requires a != b && a.man != b.man
    modifies a, a.man, b, b.man
    ensures forall k ::
      a.CopyOf(k) == AfterPull(a.rules(k), a.self, a.valid(k), old(a.CopyOf(k)), old(b.CopyOf(k)), ma(k))
    ensures forall k ::
      b.CopyOf(k) == AfterPush(b.rules(k), b.self, b.valid(k), old(b.CopyOf(k)), old(a.CopyOf(k)), a.CopyOf(k), mb(k))
  {
    var remote := b.man.files;
    var local := a.man.files;
    Pull(a, b, local, remote, ma);
    Push(a, b, local, remote, mb);
  }

  method Pull(a: Engine, b: Engine, local: map<Key, FileState>, remote: map<Key, FileState>, mt: Key -> int)
    requires a != b && a.man != b.man && local == a.man.files && remote == b.man.files
    modifies a, a.man
    ensures forall k ::
      a.CopyOf(k) == AfterPull(a.rules(k), a.self, a.valid(k), old(a.CopyOf(k)), b.CopyOf(k), mt(k))
  {
    var todo := remote.Keys;
    while todo != {}
      invariant todo <= remote.Keys
      invariant forall k :: a.CopyOf(k) == if k in todo then old(a.CopyOf(k))
        else AfterPull(a.rules(k), a.self, a.valid(k), old(a.CopyOf(k)), b.CopyOf(k), mt(k))
      decreases todo
    {
      var key :| key in todo;
      assert a.CopyOf(key) == old(a.CopyOf(key));
      PullOne(a, b, key, local, remote, mt(key));
      todo := todo - {key};
    }
  }

  method PullOne(a: Engine, b: Engine, key: Key, local: map<Key, FileState>, remote: map<Key, FileState>, mt: int)
    requires a != b && a.man != b.man && key in remote && remote == b.man.files
    requires a.CopyOf(key).entry == if key in local then Some(local[key]) else None
    modifies a, a.man
    ensures a.CopyOf(key) == AfterPull(a.rules(key), a.self, a.valid(key), old(a.CopyOf(key)), b.CopyOf(key), mt)
    ensures forall k :: k != key ==> a.CopyOf(k) == old(a.CopyOf(k))
  {
    if !a.valid(key) {
      return;
    }
    var wanted := key !in local;
    if !wanted {
      var known := VecLeq(remote[key].ver.vec, local[key].ver.vec);
      wanted := !known;
    }
    if wanted {
      FetchFrom(a, b, key, remote[key].ver, mt);
    }
  }

  method Push(a: Engine, b: Engine, local: map<Key, FileState>, remote: map<Key, FileState>, mt: Key -> int)
    requires a != b && a.man != b.man && remote == b.man.files
    modifies b, b.man
    ensures forall k ::
      b.CopyOf(k) == if k in local && Ahead(local[k].ver.vec, old(b.CopyOf(k)).entry)
      then Received(b.rules(k), b.self, b.valid(k), old(b.CopyOf(k)), Offer(a.CopyOf(k)), mt(k)) else old(b.CopyOf(k))
  {
    var todo := local.Keys;
    while todo != {}
      invariant todo <= local.Keys
      invariant forall k ::
        b.CopyOf(k) == if k in local && k !in todo && Ahead(local[k].ver.vec, old(b.CopyOf(k)).entry)
        then Received(b.rules(k), b.self, b.valid(k), old(b.CopyOf(k)), Offer(a.CopyOf(k)), mt(k)) else old(b.CopyOf(k))
      decreases todo
    {
      var key :| key in todo;
      assert b.CopyOf(key) == old(b.CopyOf(key));
      PushOne(a, b, key, local[key], remote, mt(key));
      todo := todo - {key};
    }
  }

  method PushOne(a: Engine, b: Engine, key: Key, ours: FileState, remote: map<Key, FileState>, mt: int)
    requires a != b && a.man != b.man
    requires b.CopyOf(key).entry == if key in remote then Some(remote[key]) else None
    modifies b, b.man
    ensures b.CopyOf(key) == if Ahead(ours.ver.vec, old(b.CopyOf(key)).entry)
      then Received(b.rules(key), b.self, b.valid(key), old(b.CopyOf(key)), Offer(a.CopyOf(key)), mt)
      else old(b.CopyOf(key))
    ensures forall k :: k != key ==> b.CopyOf(k) == old(b.CopyOf(k))
  {
    var ahead := key !in remote;
    if !ahead {
      var known := VecLeq(ours.ver.vec, remote[key].ver.vec);
      ahead := !known;
    }
    if ahead {
      PushTo(a, b, key, mt);
    }
  }

  /** The pass as a whole: every key both nodes can carry agrees afterwards. */
  method ReconcileUndisturbed(a: Engine, b: Engine, ma: Key -> int, mb: Key -> int)
    requires a != b && a.man != b.man
    requires forall k :: a.valid(k) && b.valid(k) ==> Undisturbed(a.CopyOf(k), b.CopyOf(k))
    modifies a, a.man, b, b.man
    ensures forall k :: a.valid(k) && b.valid(k) && InCap(a.CopyOf(k)) ==>
      && Agree(a.CopyOf(k), b.CopyOf(k))
      && Same(VecOf(a.CopyOf(k)), Join(old(VecOf(a.CopyOf(k))), old(VecOf(b.CopyOf(k)))))
  {
    label before:
    Reconcile(a, b, ma, mb);
    forall k | a.valid(k) && b.valid(k) && InCap(a.CopyOf(k))
      ensures Agree(a.CopyOf(k), b.CopyOf(k))
      ensures Same(VecOf(a.CopyOf(k)), Join(old(VecOf(a.CopyOf(k))), old(VecOf(b.CopyOf(k)))))
    {
      OnePassAgrees(a.rules(k), b.rules(k), a.self, b.self, old(a.CopyOf(k)), old(b.CopyOf(k)), ma(k), mb(k));
    }
  }
}
