/** The sync engine of one node (internal/peer/engine.go, internal/peer/manifest.go). */
module Engines {
  import opened Base
  import opened Vectors
  import opened Copies

  type Key = string

  const MaxSyncFile: nat := 100 * 1024 * 1024
  const WorkspacePrefix: string := "@workspace/"

  class Manifest {
    var files: map<Key, FileState>

    constructor ()
      ensures files == map[]
    {
      files := map[];
    }

    function VecAt(key: Key): Vec
      reads this
    {
      if key in files then files[key].ver.vec else map[]
    }

    method Get(key: Key) returns (v: Option<FileState>)
      ensures v == if key in files then Some(files[key]) else None
    {
      v := if key in files then Some(files[key]) else None;
    }

    /** A local write: this node's own component advances. */
    method Bump(key: Key, origin: Node, deleted: bool, size: nat, diskMTime: int) returns (st: FileState)
      modifies this
      ensures st == FileState(Version(Advance(old(VecAt(key)), origin), deleted), size, diskMTime)
      ensures files == old(files)[key := st]
    {
      var vec := CloneVec(VecAt(key));
      vec := vec[origin := At(vec, origin) + 1];
      NormalExt(vec, Advance(VecAt(key), origin));
      st := FileState(Version(vec, deleted), size, diskMTime);
      files := files[key := st];
    }

    /** A version arrived at by adopting or resolving: the vector is taken as it is. */
    method Apply(key: Key, v: Version, size: nat, diskMTime: int)
      modifies this
      ensures files == old(files)[key := FileState(Version(Clone(v.vec), v.deleted), size, diskMTime)]
    {
      var vec := CloneVec(v.vec);
      files := files[key := FileState(Version(vec, v.deleted), size, diskMTime)];
    }

    method Fingerprint(key: Key, size: nat, diskMTime: int) returns (same: bool)
      ensures same <==> key in files && files[key].size == size && files[key].diskMTime == diskMTime
    {
      same := key in files && files[key].size == size && files[key].diskMTime == diskMTime;
    }
  }

  // ---- what a scan makes of one key -------------------------------------------

  /** Whether ScanLocal finds a file under this key that sync carries. */
  predicate Carried(c: Copy) {
    c.file.Some? && |c.file.value.bytes| <= MaxSyncFile
  }

  /** ScanLocal on one key. walked: scanRoot visits the key's path; swept: a live entry
      without a file there is a deletion (not so for workspace keys while that sync is off). */
  function Scanned(c: Copy, self: Node, walked: bool, swept: bool): Copy {
    if walked && c.file.Some? then
      if Carried(c) then Versioned(c, self) else c
    else if Live(c) && swept then
      Copy(Some(FileState(Version(Advance(VecOf(c), self), true), 0, 0)), c.file)
    else c
  }

  /** The scan's promise for a key in the tree: a carried file has an entry with its
      fingerprint, a live entry has a file, the vector only grew, and a second scan of an
      unchanged tree stamps nothing. */
  lemma ScanAgrees(c: Copy, self: Node)
    ensures var s := Scanned(c, self, true, true);
      && s.file == c.file
      && (Carried(c) ==> s.entry.Some? && Matches(s.entry.value, s.file))
      && (Live(s) ==> s.file.Some?)
      && Leq(VecOf(c), VecOf(s))
      && (s != c ==> VecOf(s) == Advance(VecOf(c), self))
      && Scanned(s, self, true, true) == s
  {
  }

  /** A scan deletes exactly what is gone: an entry becomes a tombstone only where there is no file,
      and there always, unless its keys are not swept. A file that grew over the cap stays as the
      manifest has it, and so does a file that is as it was stamped. */
  lemma ScanDeletesOnlyGone(c: Copy, self: Node, swept: bool)
    ensures var s := Scanned(c, self, true, swept);
      && (Live(c) ==> (Live(s) <==> c.file.Some? || !swept))
      && (c.file.Some? && |c.file.value.bytes| > 104857600 ==> s == c)
      && (c.file.Some? && c.entry.Some? && Matches(c.entry.value, c.file) ==> s == c)
      && (Carried(c) <==> c.file.Some? && |c.file.value.bytes| <= 104857600)
      && (Carried(c) && s != c ==> Live(s) && VecOf(s) == Advance(VecOf(c), self))
      && (c.file.None? && !Live(c) ==> s == c)
      && (c.file.None? && Live(c) && swept ==> s.entry.Some? && VecOf(s) == Advance(VecOf(c), self))
  {
  }

  /** The entry of a scanned file is live, unless the file is empty with modification time
      0 and stands where a tombstone does: that one has the tombstone's fingerprint. */
  lemma ScanLiveIff(c: Copy, self: Node)
    requires Formed(c) && Carried(c)
    ensures Live(Scanned(c, self, true, true)) <==>
      !(c.entry.Some? && !Live(c) && c.file.value.bytes == [] && c.file.value.mtime == 0)
  {
  }

  function WithFile(disk: map<Key, File>, key: Key, f: Option<File>): map<Key, File> {
    if f.Some? then disk[key := f.value] else disk - {key}
  }

  class Engine {
    const self: Node
    const rules: Key -> Rules
    const valid: Key -> bool
    const workspaceOn: bool
    const man: Manifest
    var disk: map<Key, File>
    var conflicts: seq<(Key, Bytes)>  // sync-conflicts, oldest first
    var pushes: seq<Key>              // keys handed to pushAll, oldest first

    constructor (self: Node, rules: Key -> Rules, valid: Key -> bool, workspaceOn: bool, disk: map<Key, File>)
      ensures this.self == self && this.rules == rules && this.valid == valid && this.workspaceOn == workspaceOn
      ensures fresh(man) && man.files == map[] && this.disk == disk && conflicts == [] && pushes == []
    {
      this.self, this.rules, this.valid, this.workspaceOn := self, rules, valid, workspaceOn;
      man := new Manifest();
      this.disk, conflicts, pushes := disk, [], [];
    }

    function FileAt(key: Key): Option<File>
      reads this
    {
      if key in disk then Some(disk[key]) else None
    }

    function CopyOf(key: Key): Copy
      reads this, man
    {
      Copy(if key in man.files then Some(man.files[key]) else None, FileAt(key))
    }

    function Swept(key: Key): bool {
      workspaceOn || !(WorkspacePrefix <= key)
    }

    /** An entry without a file becomes a tombstone, but under the workspace while that is not
        synced. */
    lemma WorkspaceIsSpared(key: Key, c: Copy)
      requires Live(c) && c.file.None?
      ensures Live(Scanned(c, self, true, Swept(key))) <==> !workspaceOn && "@workspace/" <= key
    {
    }

    /** Only this key's copy changed, to l's; l's loser was saved and its push started. */
    twostate predicate Became(key: Key, l: Landed)
      reads this, man
    {
      && l.copy.entry.Some?
      && man.files == old(man.files)[key := l.copy.entry.value]
      && disk == WithFile(old(disk), key, l.copy.file)
      && conflicts == old(conflicts) + (if l.saved.Some? then [(key, l.saved.value)] else [])
      && pushes == old(pushes) + (if l.push then [key] else [])
    }

    method PushAll(key: Key)
      modifies `pushes
      ensures pushes == old(pushes) + [key]
    {
      pushes := pushes + [key];
    }

    method BackupConflict(key: Key, body: Bytes)
      modifies `conflicts
      ensures conflicts == old(conflicts) + (if Backup(body).Some? then [(key, body)] else [])
    {
      if |body| == 0 {
        return;
      }
      conflicts := conflicts + [(key, body)];
    }

    /** A write through the app-data or workspace API that just landed on disk. */
    method LocalWrite(key: Key)
      modifies man, `pushes
      ensures if valid(key) && old(Carried(CopyOf(key))) then
          && man.files == old(man.files)[key := Stamp(Version(Advance(old(VecOf(CopyOf(key))), self), false),
              FileAt(key))]
          && pushes == old(pushes) + [key]
        else unchanged(man) && pushes == old(pushes)
    {
      if !valid(key) || key !in disk || |disk[key].bytes| > MaxSyncFile {
        return;
      }
      var _ := man.Bump(key, self, false, |disk[key].bytes|, disk[key].mtime);
      PushAll(key);
    }

    /** A delete through the API: tombstoned in the manifest. */
    method LocalDelete(key: Key)
      modifies man, `pushes
      ensures if valid(key) then
          && man.files == old(man.files)[key := FileState(Version(Advance(old(VecOf(CopyOf(key))), self), true), 0, 0)]
          && pushes == old(pushes) + [key]
        else unchanged(man) && pushes == old(pushes)
    {
      if !valid(key) {
        return;
      }
      var _ := man.Bump(key, self, true, 0, 0);
      PushAll(key);
    }

    /** Lands a peer's version of key. mt is the modification time the file system gives
        the file if it is written. None: the key is refused and nothing changes. */
    method ApplyRemote(key: Key, body: Bytes, rv: Version, mt: int) returns (o: Option<Outcome>)
      modifies this, man
      ensures !valid(key) ==> o.None? && unchanged(this) && unchanged(man)
      ensures valid(key) ==>
        var l := Land(rules(key), self, old(CopyOf(key)), body, rv, mt);
        o == Some(l.outcome) && Became(key, l)
    {
      if !valid(key) {
        return None;
      }
      var local := VersionUnseen(key);
      if local.None? {
        AdoptRemote(key, body, rv, mt);
        return Some(Applied);
      }
      var r := ApplyOver(key, body, rv, local.value, mt);
      return Some(r);
    }

    /** Versions content on disk the manifest has not seen, and gets the entry. */
    method VersionUnseen(key: Key) returns (local: Option<FileState>)
      modifies man
      ensures local == CopyOf(key).entry && CopyOf(key) == Versioned(old(CopyOf(key)), self)
      ensures man.files == if local.Some? then old(man.files)[key := local.value] else old(man.files)
    {
      local := man.Get(key);
      if key in disk {
        var fi := disk[key];
        var known := man.Fingerprint(key, |fi.bytes|, fi.mtime);
        if local.None? || !known {
          var st := man.Bump(key, self, false, |fi.bytes|, fi.mtime);
          local := Some(st);
        }
      }
    }

    /** The three-way comparison with an entry of our own. */
    method ApplyOver(key: Key, body: Bytes, rv: Version, local: FileState, mt: int) returns (o: Outcome)
      requires CopyOf(key).entry == Some(local)
      modifies this, man
      ensures var c := old(CopyOf(key));
        var l := if Lt(local.ver.vec, rv.vec) then Adopt(body, rv, mt)
          else if Superseded(local, rv) then Landed(c, Stale, None, false)
          else Resolve(rules(key), c, body, rv, mt);
        o == l.outcome && Became(key, l)
    {
      var ours := local.ver;
      var below := VecLeq(ours.vec, rv.vec);
      var above := VecLeq(rv.vec, ours.vec);
      if above && (!below || ours.deleted == rv.deleted) {
        o := Stale;
      } else if below && !above {
        AdoptRemote(key, body, rv, mt);
        o := Applied;
      } else {
        o := ResolveConcurrent(key, body, rv, local, mt);
      }
    }

    method AdoptRemote(key: Key, body: Bytes, rv: Version, mt: int)
      modifies this, man
      ensures Became(key, Adopt(body, rv, mt))
    {
      if rv.deleted {
        disk := disk - {key};
        man.Apply(key, rv, 0, 0);
      } else {
        disk := disk[key := File(body, mt)];
        man.Apply(key, rv, |body|, mt);
      }
    }

    method KeepOurs(key: Key, v: Vec)
      requires Normal(v)
      modifies man, `pushes
      ensures Became(key, Keep(old(CopyOf(key)), v, Stale, None))
    {
      NormalExt(Clone(v), v);
      man.Apply(key, Version(v, false), SizeOf(FileAt(key)), MTimeOf(FileAt(key)));
      PushAll(key);
    }

    method TakeBytes(key: Key, bytes: Bytes, v: Vec, mt: int)
      requires Normal(v)
      modifies this, man
      ensures Became(key, Replace(bytes, mt, v, Stale, None))
    {
      NormalExt(Clone(v), v);
      disk := disk[key := File(bytes, mt)];
      man.Apply(key, Version(v, false), |bytes|, mt);
      PushAll(key);
    }

    method ResolveConcurrent(key: Key, body: Bytes, rv: Version, local: FileState, mt: int) returns (o: Outcome)
      requires CopyOf(key).entry == Some(local)
      modifies this, man
      ensures var l := Resolve(rules(key), old(CopyOf(key)), body, rv, mt);
        o == l.outcome && Became(key, l)
    {
      var max := MaxVec(local.ver.vec, rv.vec);
      if local.ver.deleted != rv.deleted {
        if rv.deleted {
          KeepOurs(key, max);
          return KeptLive;
        }
        TakeBytes(key, body, max, mt);
        return Resurrected;
      }
      if local.ver.deleted {
        NormalExt(Clone(max), max);
        man.Apply(key, Version(max, true), 0, 0);
        return Stale;
      }
      if rules(key).mergeable {
        var m := MergeConcurrent(key, body, max, mt);
        if m.Some? {
          return m.value;
        }
      }
      o := ResolveByHash(key, body, max, mt);
    }

    /** The deterministic winner by content hash; the loser is preserved. */
    method ResolveByHash(key: Key, body: Bytes, max: Vec, mt: int) returns (o: Outcome)
      requires Normal(max)
      modifies this, man
      ensures var c := old(CopyOf(key));
        var ours := BytesOf(c.file);
        var l := if ours == body then Keep(c, max, Stale, None)
          else if rules(key).hash(body) > rules(key).hash(ours) then Replace(body, mt, max, Resolved, Backup(ours))
          else Keep(c, max, Resolved, Backup(body));
        o == l.outcome && Became(key, l)
    {
      var ours := BytesOf(FileAt(key));
      if ours == body {
        KeepOurs(key, max);
        return Stale;
      }
      if rules(key).hash(body) > rules(key).hash(ours) {
        BackupConflict(key, ours);
        TakeBytes(key, body, max, mt);
        return Resolved;
      }
      BackupConflict(key, body);
      KeepOurs(key, max);
      return Resolved;
    }

    /** None: our own copy does not parse, and the caller falls through to the hashes. */
    method MergeConcurrent(key: Key, body: Bytes, max: Vec, mt: int) returns (o: Option<Outcome>)
      requires rules(key).mergeable && Normal(max)
      modifies this, man
      ensures var u := UnionOf(rules(key), old(FileAt(key)), body);
        match u
        case Unhandled => o.None? && unchanged(this) && unchanged(man)
        case KeepOurs => o == Some(KeptLive) && Became(key, Keep(old(CopyOf(key)), max, KeptLive, None))
        case NothingNew => o == Some(Stale) && Became(key, Keep(old(CopyOf(key)), max, Stale, None))
        case NewBytes(m) => o == Some(Merged) && Became(key, Replace(m, mt, max, Merged, None))
    {
      var merge := rules(key).merge;
      if key !in disk {
        return None;
      }
      var ours := disk[key].bytes;
      if merge(ours, ours).None? {
        return None;
      }
      if merge(body, body).None? {
        KeepOurs(key, max);
        return Some(KeptLive);
      }
      var merged := merge(ours, body);
      if merged.None? {
        return None;
      }
      if merged.value == ours {
        KeepOurs(key, max);
        return Some(Stale);
      }
      TakeBytes(key, merged.value, max, mt);
      return Some(Merged);
    }

    /** One file of the walk. */
    method ScanFile(key: Key)
      requires key in disk
      modifies man, `pushes
      ensures man.files.Keys == old(man.files.Keys) + (if |disk[key].bytes| <= MaxSyncFile then {key} else {})
      ensures forall k :: k != key ==> CopyOf(k) == old(CopyOf(k))
      ensures CopyOf(key) == Scanned(old(CopyOf(key)), self, true, Swept(key))
      ensures pushes == old(pushes) + if CopyOf(key) != old(CopyOf(key)) then [key] else []
    {
      var fi := disk[key];
      if |fi.bytes| <= MaxSyncFile {
        var known := man.Fingerprint(key, |fi.bytes|, fi.mtime);
        if !known {
          var _ := man.Bump(key, self, false, |fi.bytes|, fi.mtime);
          PushAll(key);
        }
      }
    }

    /** One live entry the walk saw no file for. */
    method SweepEntry(key: Key)
      requires key in man.files && !man.files[key].ver.deleted
      modifies man, `pushes
      ensures forall k :: k != key ==> CopyOf(k) == old(CopyOf(k))
      ensures CopyOf(key) == Copy(Some(FileState(Version(Advance(VecOf(old(CopyOf(key))), self), true), 0, 0)),
          FileAt(key))
      ensures CopyOf(key) != old(CopyOf(key))
      ensures pushes == old(pushes) + [key]
    {
      var _ := man.Bump(key, self, true, 0, 0);
      PushAll(key);
    }

    /** The keys pushed since a state are those whose copies changed since. */
    twostate predicate PushedChanges()
      reads this, man
    {
      && old(pushes) <= pushes
      && forall k :: k in pushes[|old(pushes)|..] <==> CopyOf(k) != old(CopyOf(k))
    }

    /** Picks up what bypassed the API: first every file in the trees, then every live
        entry no file was seen for. */
    method ScanLocal()
      modifies man, `pushes
      ensures forall k :: CopyOf(k) == Scanned(old(CopyOf(k)), self, valid(k), Swept(k))
      ensures PushedChanges()
    {
      var seen := ScanRoots();
      label walked:
      SweepDeleted(seen);
      ghost var p0, p1 := |old(pushes)|, |old@walked(pushes)|;
      assert pushes[p0..] == old@walked(pushes)[p0..] + pushes[p1..];
      forall k
        ensures CopyOf(k) == Scanned(old(CopyOf(k)), self, valid(k), Swept(k))
        ensures k in pushes[p0..] <==> CopyOf(k) != old(CopyOf(k))
      {
        assert k !in seen ==> old@walked(CopyOf(k)) == old(CopyOf(k));
      }
    }

    /** Every file in the trees; gives the keys it saw a file for. */
    method ScanRoots() returns (seen: set<Key>)
      modifies man, `pushes
      ensures forall k :: k in seen <==> k in disk && valid(k)
      ensures forall k :: CopyOf(k) == if k in seen then Scanned(old(CopyOf(k)), self, true, Swept(k))
          else old(CopyOf(k))
      ensures PushedChanges()
    {
      seen := {};
      var todo := disk.Keys;
      while todo != {}
        invariant todo <= disk.Keys
        invariant forall k :: k in seen <==> k in disk && k !in todo && valid(k)
        invariant forall k :: CopyOf(k) == if k in seen then Scanned(old(CopyOf(k)), self, true, Swept(k))
            else old(CopyOf(k))
        invariant PushedChanges()
        decreases todo
      {
        var key :| key in todo;
        if valid(key) {
          assert key !in seen;
          label before:
          ScanFile(key);
          ghost var n := |old(pushes)|;
          assert pushes[n..] == old@before(pushes)[n..] + pushes[|old@before(pushes)|..];
          seen := seen + {key};
        }
        todo := todo - {key};
      }
    }

    /** Every live entry the walk saw no file for is a deletion. */
    method SweepDeleted(seen: set<Key>)
      modifies man, `pushes
      ensures forall k :: CopyOf(k) == if k in seen then old(CopyOf(k))
          else Scanned(old(CopyOf(k)), self, false, Swept(k))
      ensures PushedChanges()
    {
      var snapshot := man.files;
      var todo := snapshot.Keys;
      while todo != {}
        invariant todo <= snapshot.Keys
        invariant forall k :: CopyOf(k) == if k in seen || k in todo then old(CopyOf(k))
            else Scanned(old(CopyOf(k)), self, false, Swept(k))
        invariant PushedChanges()
        decreases todo
      {
        var key :| key in todo;
        assert CopyOf(key) == old(CopyOf(key));
        if !snapshot[key].ver.deleted && key !in seen && Swept(key) {
          label before:
          SweepEntry(key);
          ghost var n := |old(pushes)|;
          assert pushes[n..] == old@before(pushes)[n..] + [key];
        }
        todo := todo - {key};
      }
    }
  }
}
