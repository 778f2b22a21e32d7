/** Record documents under sync: what two nodes hold after a pass, record by record. */
module SyncedRecords {
  import opened Base
  import opened Vectors
  import opened Copies
  import opened Reconciling
  import opened Unions
  import opened Records

  /** How a document's records are read from its bytes, and written. */
  datatype Format = Format(parse: Bytes -> Option<seq<Rec>>, write: seq<Rec> -> Bytes)

  ghost predicate ReadsBack(f: Format) {
    forall items :: DistinctIds(IdOf, items) ==> f.parse(f.write(items)) == Some(items)
  }

  /** MergeFile for the document. */
  ghost function MergeFile(f: Format, json: Rec -> Bytes, now: int): (Bytes, Bytes) -> Option<Bytes> {
    (ours, theirs) =>
      if f.parse(ours).None? || f.parse(theirs).None? then None
      else Some(f.write(Records.Merged(json, now, f.parse(ours).value, f.parse(theirs).value)))
  }

  /** The records of a file, by id. */
  function RecordsOf(f: Format, file: Option<File>): Recs {
    if file.None? || f.parse(file.value.bytes).None? then map[] else Last(IdOf, f.parse(file.value.bytes).value)
  }

  /** The file is a document with distinct ids. */
  ghost predicate IsDocument(f: Format, file: Option<File>) {
    file.Some? && f.parse(file.value.bytes).Some? && DistinctIds(IdOf, f.parse(file.value.bytes).value)
  }

  ghost predicate UnitedPass(f: Format, json: Rec -> Bytes, now: int, r: Rules, na: Node, a: Copy, b: Copy, ma: int) {
    && Injective(json) && ReadsBack(f) && r.mergeable && r.merge == MergeFile(f, json, now)
    && Undisturbed(a, b) && Live(a) && Live(b) && Concurrent(VecOf(a), VecOf(b))
    && IsDocument(f, a.file) && IsDocument(f, b.file) && InCap(AfterPull(r, na, true, a, b, ma))
  }

  lemma FilesUnite(f: Format, json: Rec -> Bytes, now: int, r: Rules, rb: Rules, na: Node, nb: Node,
      a: Copy, b: Copy, ma: int, mb: int)
    requires UnitedPass(f, json, now, r, na, a, b, ma)
    ensures var a' := AfterPull(r, na, true, a, b, ma);
      var b' := AfterPush(rb, nb, true, b, a, a', mb);
      var xs, ys := f.parse(a.file.value.bytes).value, f.parse(b.file.value.bytes).value;
      && a'.file.Some? && b'.file.Some?
      && a'.file.value.bytes == b'.file.value.bytes == f.write(Records.Merged(json, now, xs, ys))
  {
    OnePassUnites(r, rb, na, nb, a, b, ma, mb);
    OnePassAgrees(r, rb, na, nb, a, b, ma, mb);
  }

  /** Two nodes that each changed a document without knowing of the other's change: after one pass
      both hold the same document, with every record of either, of a common id the one that the
      other is not ahead of, and nothing missing but tombstones past their time. */
  lemma OnePassKeepsRecords(f: Format, json: Rec -> Bytes, now: int, r: Rules, rb: Rules, na: Node, nb: Node,
      a: Copy, b: Copy, ma: int, mb: int, k: Bytes)
    requires UnitedPass(f, json, now, r, na, a, b, ma)
    ensures var a' := AfterPull(r, na, true, a, b, ma);
      && RecordsOf(f, AfterPush(rb, nb, true, b, a, a', mb).file) == RecordsOf(f, a'.file)
      && HoldsBoth(json, now, RecordsOf(f, a.file), RecordsOf(f, b.file), RecordsOf(f, a'.file), k)
  {
    var xs, ys := f.parse(a.file.value.bytes).value, f.parse(b.file.value.bytes).value;
    FilesUnite(f, json, now, r, rb, na, nb, a, b, ma, mb);
    MergedLast(json, now, xs, ys);
    MergedHolds(json, now, xs, ys, k);
  }
}
