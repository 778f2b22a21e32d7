/** What one node holds for one file key, and what a remote version does to it
    (internal/peer/engine.go, ApplyRemote and its helpers) as a function. */
module Copies {
  import opened Base
  import opened Vectors

  datatype Version = Version(vec: Vec, deleted: bool)

  /** A manifest entry: the version and the fingerprint of the file it was stamped on. */
  datatype FileState = FileState(ver: Version, size: nat, diskMTime: int)

  datatype File = File(bytes: Bytes, mtime: int)

  datatype Copy = Copy(entry: Option<FileState>, file: Option<File>)

  /** contentHash, whether the key is Mergeable, and MergeFile for it. */
  datatype Rules = Rules(hash: Bytes -> int, mergeable: bool, merge: (Bytes, Bytes) -> Option<Bytes>)

  datatype Outcome = Stale | Applied | Merged | Resolved | KeptLive | Resurrected

  /** saved is the losing side put under sync-conflicts, push whether pushAll is started. */
  datatype Landed = Landed(copy: Copy, outcome: Outcome, saved: Option<Bytes>, push: bool)

  function VecOf(c: Copy): Vec {
    if c.entry.Some? then c.entry.value.ver.vec else map[]
  }

  predicate Live(c: Copy) {
    c.entry.Some? && !c.entry.value.ver.deleted
  }

  function SizeOf(f: Option<File>): nat {
    if f.Some? then |f.value.bytes| else 0
  }

  function MTimeOf(f: Option<File>): int {
    if f.Some? then f.value.mtime else 0
  }

  function BytesOf(f: Option<File>): Bytes {
    if f.Some? then f.value.bytes else []
  }

  /** Manifest.Fingerprint on the file as it stands. */
  predicate Matches(s: FileState, f: Option<File>) {
    s.size == SizeOf(f) && s.diskMTime == MTimeOf(f)
  }

  /** The manifest has seen the file on disk, if there is one. */
  predicate Seen(c: Copy) {
    c.file.Some? ==> c.entry.Some? && Matches(c.entry.value, c.file)
  }

  /** Manifest and disk agree: a live entry has its file, a tombstone and an absent entry have none. */
  ghost predicate Clean(c: Copy) {
    && (Live(c) <==> c.file.Some?)
    && (c.entry.Some? ==> Normal(VecOf(c)) && Matches(c.entry.value, c.file))
  }

  function Stamp(v: Version, f: Option<File>): FileState {
    FileState(v, SizeOf(f), MTimeOf(f))
  }

  /** Content on disk that the manifest has not seen is versioned as this node's own write. */
  function Versioned(c: Copy, self: Node): Copy {
    if Seen(c) then c
    else Copy(Some(Stamp(Version(Advance(VecOf(c), self), false), c.file)), c.file)
  }

  function Adopt(body: Bytes, rv: Version, mt: int): Landed {
    var f := if rv.deleted then None else Some(File(body, mt));
    Landed(Copy(Some(Stamp(Version(Clone(rv.vec), rv.deleted), f)), f), Applied, None, false)
  }

  /** How the union of two record documents comes out (mergeConcurrent). */
  datatype Union = Unhandled | KeepOurs | NothingNew | NewBytes(bytes: Bytes)

  function UnionOf(r: Rules, f: Option<File>, body: Bytes): Union {
    if !r.mergeable || f.None? || r.merge(f.value.bytes, f.value.bytes).None? then Unhandled
    else if r.merge(body, body).None? then KeepOurs
    else match r.merge(f.value.bytes, body)
      case None => Unhandled
      case Some(m) => if m == f.value.bytes then NothingNew else NewBytes(m)
  }

  function Backup(b: Bytes): Option<Bytes> {
    if b == [] then None else Some(b)
  }

  function Keep(l: Copy, v: Vec, o: Outcome, saved: Option<Bytes>): Landed {
    Landed(Copy(Some(Stamp(Version(v, false), l.file)), l.file), o, saved, true)
  }

  function Replace(bytes: Bytes, mt: int, v: Vec, o: Outcome, saved: Option<Bytes>): Landed {
    var f := Some(File(bytes, mt));
    Landed(Copy(Some(Stamp(Version(v, false), f)), f), o, saved, true)
  }

  function Resolve(r: Rules, l: Copy, body: Bytes, rv: Version, mt: int): Landed
    requires l.entry.Some?
  {
    var v := Join(VecOf(l), rv.vec);
    var ours := BytesOf(l.file);
    if Live(l) && rv.deleted then Keep(l, v, KeptLive, None)
    else if !Live(l) && !rv.deleted then Replace(body, mt, v, Resurrected, None)
    else if !Live(l) then Landed(Copy(Some(FileState(Version(v, true), 0, 0)), l.file), Stale, None, false)
    else match UnionOf(r, l.file, body)
      case KeepOurs => Keep(l, v, KeptLive, None)
      case NothingNew => Keep(l, v, Stale, None)
      case NewBytes(m) => Replace(m, mt, v, Merged, None)
      case Unhandled =>
        if ours == body then Keep(l, v, Stale, None)
        else if r.hash(body) > r.hash(ours) then Replace(body, mt, v, Resolved, Backup(ours))
        else Keep(l, v, Resolved, Backup(body))
  }

  /** l already knows everything rv knows, and does not contradict its tombstone flag. */
  ghost predicate Superseded(l: FileState, rv: Version) {
    Leq(rv.vec, l.ver.vec) && (Leq(l.ver.vec, rv.vec) ==> l.ver.deleted == rv.deleted)
  }

  /** ApplyRemote on one key. */
  ghost function Land(r: Rules, self: Node, c: Copy, body: Bytes, rv: Version, mt: int): Landed {
    var l := Versioned(c, self);
    if l.entry.None? || Lt(VecOf(l), rv.vec) then Adopt(body, rv, mt)
    else if Superseded(l.entry.value, rv) then Landed(l, Stale, None, false)
    else Resolve(r, l, body, rv, mt)
  }

  // ---- what landing a version keeps -----------------------------------------

  /** The manifest's own form: no zero components, and tombstones carry no fingerprint. */
  ghost predicate Formed(c: Copy) {
    && Normal(VecOf(c))
    && (c.entry.Some? && c.entry.value.ver.deleted ==> c.entry.value.size == 0 && c.entry.value.diskMTime == 0)
  }

  lemma LandJoinsAt(r: Rules, self: Node, c: Copy, body: Bytes, rv: Version, mt: int, o: Node)
    ensures At(VecOf(Land(r, self, c, body, rv, mt).copy), o) == Max(At(VecOf(Versioned(c, self)), o), At(rv.vec, o))
  {
    var v := Versioned(c, self);
    if v.entry.Some? {
      assert Lt(VecOf(v), rv.vec) ==> At(VecOf(v), o) <= At(rv.vec, o);
      assert Superseded(v.entry.value, rv) ==> At(rv.vec, o) <= At(VecOf(v), o);
    }
  }

  /** Every branch leaves the vector at exactly the pointwise maximum of the freshly
      versioned local vector and the remote one. */
  lemma LandJoins(r: Rules, self: Node, c: Copy, body: Bytes, rv: Version, mt: int)
    ensures var l := Land(r, self, c, body, rv, mt).copy;
      && l.entry.Some?
      && Same(VecOf(l), Join(VecOf(Versioned(c, self)), rv.vec))
      && Leq(VecOf(c), VecOf(l)) && Leq(rv.vec, VecOf(l))
  {
    var l := Land(r, self, c, body, rv, mt).copy;
    forall o
      ensures At(VecOf(l), o) == At(Join(VecOf(Versioned(c, self)), rv.vec), o)
      ensures At(VecOf(c), o) <= At(VecOf(l), o) && At(rv.vec, o) <= At(VecOf(l), o)
    {
      LandJoinsAt(r, self, c, body, rv, mt, o);
    }
  }

  /** Resolving leaves an entry in the manifest's form that carries the file's fingerprint. */
  lemma ResolveSeen(r: Rules, l: Copy, body: Bytes, rv: Version, mt: int)
    requires Formed(l) && l.entry.Some? && Seen(l)
    ensures var d := Resolve(r, l, body, rv, mt).copy; Formed(d) && Seen(d)
  {
  }

  /** After landing, the manifest has seen the file, so nothing is versioned again. */
  lemma LandSeen(r: Rules, self: Node, c: Copy, body: Bytes, rv: Version, mt: int)
    requires Formed(c)
    ensures var l := Land(r, self, c, body, rv, mt).copy; Formed(l) && Seen(l) && Versioned(l, self) == l
  {
    var v := Versioned(c, self);
    assert Formed(v) && Seen(v);
    if v.entry.None? || Lt(VecOf(v), rv.vec) {
    } else if Superseded(v.entry.value, rv) {
    } else {
      ResolveSeen(r, v, body, rv, mt);
    }
  }

  /** A copy the manifest agrees with stays one, whatever arrives. */
  lemma LandClean(r: Rules, self: Node, c: Copy, body: Bytes, rv: Version, mt: int)
    requires Clean(c)
    ensures Clean(Land(r, self, c, body, rv, mt).copy) && Versioned(c, self) == c
  {
  }

  /** Where landing leaves the remote vector but the other tombstone flag, a live file
      refused a tombstone, and its entry carries its fingerprint. */
  lemma EqualVectorKeepsLive(r: Rules, self: Node, c: Copy, body: Bytes, rv: Version, mt: int)
    requires Formed(c)
    ensures var l := Land(r, self, c, body, rv, mt).copy;
      l.entry.Some? && (l.entry.value.ver.deleted != rv.deleted && Leq(VecOf(l), rv.vec)
        ==> Live(l) && rv.deleted && Matches(l.entry.value, l.file))
  {
    var v := Versioned(c, self);
    if v.entry.Some? && Superseded(v.entry.value, rv) && !Lt(VecOf(v), rv.vec) {
      assert Land(r, self, c, body, rv, mt).copy == v;
    }
  }

  /** Redelivery of a message changes neither manifest nor disk and saves nothing. It is
      answered "stale", except where a live file keeps refusing a tombstone of the very
      same vector: that one is "kept-live" every time. */
  lemma RedeliveryChangesNothing(r: Rules, self: Node, c: Copy, body: Bytes, rv: Version, mt: int, mt': int)
    requires Formed(c)
    ensures var l := Land(r, self, c, body, rv, mt).copy;
      var again := Land(r, self, l, body, rv, mt');
      && again.copy == l
      && again.saved.None?
      && (again.outcome == KeptLive <==> Live(l) && rv.deleted && Same(VecOf(l), rv.vec))
      && (again.outcome != KeptLive ==> again.outcome == Stale && !again.push)
  {
    var l := Land(r, self, c, body, rv, mt).copy;
    LandSeen(r, self, c, body, rv, mt);
    LandJoins(r, self, c, body, rv, mt);
    if !Superseded(l.entry.value, rv) {
      EqualVectorKeepsLive(r, self, c, body, rv, mt);
      JoinAbsorbs(VecOf(l), rv.vec);
      forall o ensures At(VecOf(l), o) == At(rv.vec, o) {
        assert At(VecOf(l), o) <= At(rv.vec, o) <= At(VecOf(l), o);
      }
    }
  }

  // ---- the answers, case by case ----------------------------------------------

  ghost predicate Concurrent(v: Vec, u: Vec) {
    !Leq(v, u) && !Leq(u, v)
  }

  /** Stale: a version this node knows already leaves the copy as it was stamped. */
  lemma KnownIsStale(r: Rules, self: Node, c: Copy, body: Bytes, rv: Version, mt: int)
    requires var l := Versioned(c, self);
      l.entry.Some? && Leq(rv.vec, VecOf(l)) && (Leq(VecOf(l), rv.vec) ==> Live(l) != rv.deleted)
    ensures Land(r, self, c, body, rv, mt) == Landed(Versioned(c, self), Stale, None, false)
  {
  }

  /** Applied: a strictly newer version is taken as it is, its bytes or the absence of a file. */
  lemma NewerIsApplied(r: Rules, self: Node, c: Copy, body: Bytes, rv: Version, mt: int)
    requires var l := Versioned(c, self); l.entry.None? || Lt(VecOf(l), rv.vec)
    ensures var d := Land(r, self, c, body, rv, mt);
      && d.outcome == Applied && d.saved.None? && !d.push && Same(VecOf(d.copy), rv.vec)
      && (Live(d.copy) <==> !rv.deleted) && (d.copy.file.Some? <==> !rv.deleted)
      && (!rv.deleted ==> BytesOf(d.copy.file) == body)
  {
  }

  /** Kept-live: a file whose node has not deleted it survives a deletion that did not know it. */
  lemma FileOutlivesDeletion(r: Rules, self: Node, c: Copy, body: Bytes, rv: Version, mt: int)
    requires var l := Versioned(c, self); Live(l) && rv.deleted && !Lt(VecOf(l), rv.vec)
    requires Leq(rv.vec, VecOf(Versioned(c, self))) ==> Leq(VecOf(Versioned(c, self)), rv.vec)
    ensures var d := Land(r, self, c, body, rv, mt);
      d.outcome == KeptLive && Live(d.copy) && d.copy.file == c.file && d.saved.None? && d.push
  {
  }

  /** Resurrected: a live version that a tombstone did not know comes back. */
  lemma FileComesBackOver(r: Rules, self: Node, c: Copy, body: Bytes, rv: Version, mt: int)
    requires var l := Versioned(c, self); l.entry.Some? && !Live(l) && !rv.deleted && !Lt(VecOf(l), rv.vec)
    requires Leq(rv.vec, VecOf(Versioned(c, self))) ==> Leq(VecOf(Versioned(c, self)), rv.vec)
    ensures var d := Land(r, self, c, body, rv, mt);
      && d.outcome == Resurrected && Live(d.copy) && d.copy.file.Some? && BytesOf(d.copy.file) == body
      && d.saved.None? && d.push
  {
  }

  /** Two deletions stay one. */
  lemma DeletionsMeet(r: Rules, self: Node, c: Copy, body: Bytes, rv: Version, mt: int)
    requires var l := Versioned(c, self);
      l.entry.Some? && !Live(l) && rv.deleted && Concurrent(VecOf(l), rv.vec)
    ensures var d := Land(r, self, c, body, rv, mt);
      d.outcome == Stale && d.copy.entry.Some? && !Live(d.copy) && d.copy.file == c.file && d.saved.None? && !d.push
  {
  }

  /** Both sides live and written without knowing of each other. */
  ghost predicate LiveConflict(l: Copy, rv: Version) {
    Live(l) && !rv.deleted && Concurrent(VecOf(l), rv.vec)
  }

  /** A document the merge can read. */
  predicate Parses(r: Rules, b: Bytes) {
    r.merge(b, b).Some?
  }

  /** Merged: two record documents end as their union, and no byte of either is put aside. */
  lemma DocumentsUnite(r: Rules, self: Node, c: Copy, body: Bytes, rv: Version, mt: int)
    requires r.mergeable && c.file.Some? && LiveConflict(Versioned(c, self), rv)
    requires var ours := BytesOf(c.file); Parses(r, ours) && Parses(r, body) && r.merge(ours, body).Some?
    ensures var d, ours := Land(r, self, c, body, rv, mt), BytesOf(c.file);
      && Live(d.copy) && d.copy.file.Some? && BytesOf(d.copy.file) == r.merge(ours, body).value
      && d.saved.None? && d.push
      && d.outcome == (if r.merge(ours, body).value == ours then Stale else Merged)
      && (d.outcome == Stale ==> d.copy.file == c.file)
  {
  }

  /** A remote that does not parse never erases a document that does. */
  lemma UnreadableIsRefused(r: Rules, self: Node, c: Copy, body: Bytes, rv: Version, mt: int)
    requires r.mergeable && c.file.Some? && LiveConflict(Versioned(c, self), rv)
    requires Parses(r, BytesOf(c.file)) && !Parses(r, body)
    ensures var d := Land(r, self, c, body, rv, mt);
      d.outcome == KeptLive && Live(d.copy) && d.copy.file == c.file && d.saved.None? && d.push
  {
  }

  /** Resolved: otherwise the content with the higher hash stays, ours where they are equal, and
      the other is put aside. */
  lemma HigherHashStays(r: Rules, self: Node, c: Copy, body: Bytes, rv: Version, mt: int)
    requires LiveConflict(Versioned(c, self), rv)
    requires var ours := BytesOf(c.file);
      !r.mergeable || c.file.None? || !Parses(r, ours) || (Parses(r, body) && r.merge(ours, body).None?)
    ensures var d, ours := Land(r, self, c, body, rv, mt), BytesOf(c.file);
      var theirs := r.hash(body) > r.hash(ours) && ours != body;
      var loser := if theirs then ours else body;
      && Live(d.copy) && d.push && BytesOf(d.copy.file) == (if theirs then body else ours)
      && (if ours == body then d.outcome == Stale && d.saved.None?
          else d.outcome == Resolved && d.saved == if loser == [] then None else Some(loser))
      && (!theirs ==> d.copy.file == c.file)
  {
  }

  /** Whatever the rules, a conflict of two live versions loses neither content: each is in the
      file, or put aside (an empty one has nothing to put aside), or part of the union; a remote
      that does not parse is left with the node that wrote it. */
  lemma ConflictLosesNothing(r: Rules, self: Node, c: Copy, body: Bytes, rv: Version, mt: int)
    requires LiveConflict(Versioned(c, self), rv)
    ensures var d, ours := Land(r, self, c, body, rv, mt), BytesOf(c.file);
      var united := r.mergeable && c.file.Some? && Parses(r, ours) && Some(BytesOf(d.copy.file)) == r.merge(ours, body);
      var refused := r.mergeable && c.file.Some? && Parses(r, ours) && !Parses(r, body);
      && (BytesOf(d.copy.file) == ours || united || d.saved == Some(ours) || ours == [])
      && (BytesOf(d.copy.file) == body || united || d.saved == Some(body) || body == [] || refused)
  {
  }
}
