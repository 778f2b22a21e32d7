/** An app's saves of its files, one after another under the file lock
    (internal/server/apps.go): stale saves are refused by their sequence stamp, and a
    record document is guarded against the copy on disk. */
module Saves {
  import opened Base
  import opened Guarding

  // ---- guarded documents, id by id ---------------------------------------------------------

  lemma {:induction false} FindAppend(xs: seq<Item>, ys: seq<Item>, id: string)
    ensures Find(xs + ys, id) == if Find(ys, id).Some? then Find(ys, id) else Find(xs, id)
    decreases |ys|
  {
    if ys == [] {
      assert xs + ys == xs;
    } else {
      assert (xs + ys)[..|xs + ys| - 1] == xs + ys[..|ys| - 1];
      FindAppend(xs, ys[..|ys| - 1], id);
    }
  }

  lemma {:induction false} FindIff(items: seq<Item>, id: string)
    ensures Find(items, id).Some? <==> exists i :: 0 <= i < |items| && items[i].id == id
  {
    if items != [] {
      FindIff(items[..|items| - 1], id);
    }
  }

  lemma {:induction false} FindAt(items: seq<Item>, i: nat)
    requires DistinctItems(items) && i < |items|
    ensures Find(items, items[i].id) == Some(items[i].fields)
    decreases |items|
  {
    if i < |items| - 1 {
      FindAt(items[..|items| - 1], i);
    }
  }

  lemma {:induction false} FindJudged(disk: seq<Item>, sent: seq<Item>, id: string)
    ensures Find(JudgedAll(disk, sent), id)
         == match Find(sent, id) case None => None case Some(f) => Some(JudgedItem(disk, Item(id, f)).fields)
    decreases |sent|
  {
    if sent != [] {
      var front := sent[..|sent| - 1];
      assert JudgedAll(disk, sent)[..|sent| - 1] == JudgedAll(disk, front);
      FindJudged(disk, front, id);
    }
  }

  lemma {:induction false} FindKept(now: int, disk: seq<Item>, sent: seq<Item>, id: string)
    requires DistinctItems(disk)
    ensures Find(Kept(now, disk, sent), id)
         == if Find(sent, id).None? && Find(disk, id).Some? && !Gone(now, Find(disk, id).value)
            then Find(disk, id) else None
    decreases |disk|
  {
    if disk != [] {
      var front, d := disk[..|disk| - 1], disk[|disk| - 1];
      FindKept(now, front, sent, id);
      FindIff(front, d.id);
      FindAppend(Kept(now, front, sent), if Find(sent, d.id).None? && !Gone(now, d.fields) then [d] else [], id);
    }
  }

  /** What a guarded save holds for each id: a record of both sides judged, a new one as
      sent, and disk's where the save left it out, unless that is an expired tombstone. */
  lemma FindGuarded(now: int, disk: seq<Item>, sent: seq<Item>, id: string)
    requires DistinctItems(disk)
    ensures Find(Guarded(now, disk, sent), id)
         == match (Find(sent, id), Find(disk, id))
            case (Some(f), Some(d)) => Some(Judged(f, d))
            case (Some(f), None) => Some(f)
            case (None, Some(d)) => if Gone(now, d) then None else Some(d)
            case (None, None) => None
  {
    FindAppend(JudgedAll(disk, sent), Kept(now, disk, sent), id);
    FindJudged(disk, sent, id);
    FindKept(now, disk, sent, id);
  }

  /** A record that a save leaves out stays as it is on disk, a live one always, and a tombstone
      until 30 days in ms after its deletion. */
  lemma LeftOutStays(now: int, disk: seq<Item>, sent: seq<Item>, id: string)
    requires DistinctItems(disk) && Find(disk, id).Some? && Find(sent, id).None?
    ensures var deleted := Stamp(Find(disk, id).value, "deleted");
      if deleted == 0 || now <= deleted + 2_592_000_000 then Find(Guarded(now, disk, sent), id) == Find(disk, id)
      else Find(Guarded(now, disk, sent), id).None?
  {
    FindGuarded(now, disk, sent, id);
  }

  lemma {:induction false} KeptDistinct(now: int, disk: seq<Item>, sent: seq<Item>)
    requires DistinctItems(disk)
    ensures DistinctItems(Kept(now, disk, sent))
    ensures forall i :: 0 <= i < |Kept(now, disk, sent)| ==>
        Kept(now, disk, sent)[i] in disk && Find(sent, Kept(now, disk, sent)[i].id).None?
    decreases |disk|
  {
    if disk != [] {
      KeptDistinct(now, disk[..|disk| - 1], sent);
    }
  }

  lemma GuardedDistinct(now: int, disk: seq<Item>, sent: seq<Item>)
    requires DistinctItems(disk) && DistinctItems(sent)
    ensures DistinctItems(Guarded(now, disk, sent))
  {
    KeptDistinct(now, disk, sent);
    var kept := Kept(now, disk, sent);
    forall i, j | 0 <= i < |sent| && 0 <= j < |kept| ensures JudgedAll(disk, sent)[i].id != kept[j].id {
      FindIff(sent, kept[j].id);
    }
  }

  lemma {:induction false} NothingKept(now: int, disk: seq<Item>, sent: seq<Item>)
    requires forall i :: 0 <= i < |disk| ==> Find(sent, disk[i].id).Some? || Gone(now, disk[i].fields)
    ensures Kept(now, disk, sent) == []
    decreases |disk|
  {
    if disk != [] {
      NothingKept(now, disk[..|disk| - 1], sent);
    }
  }

  /** Guarding a guarded document against the same copy on disk changes nothing: the save
      reports no change, by the condition GuardLocalWrite reports by. */
  lemma GuardedTwice(now: int, disk: seq<Item>, sent: seq<Item>)
    requires DistinctItems(disk)
    ensures var g := Guarded(now, disk, sent);
      (forall i :: 0 <= i < |g| ==> JudgedHere(disk, g[i])) && Kept(now, disk, g) == [] && Guarded(now, disk, g) == g
  {
    var g := Guarded(now, disk, sent);
    KeptDistinct(now, disk, sent);
    forall i | 0 <= i < |g| ensures JudgedHere(disk, g[i]) && JudgedItem(disk, g[i]) == g[i] {
      if i < |sent| {
        if Find(disk, sent[i].id).Some? {
          JudgedSettled(sent[i].fields, Find(disk, sent[i].id).value);
        }
      } else {
        assert g[i] == Kept(now, disk, sent)[i - |sent|];
        var k :| 0 <= k < |disk| && disk[k] == g[i];
        FindAt(disk, k);
        assert Fill(g[i].fields, g[i].fields) == g[i].fields;
        TakesNothingKeeps(g[i].fields, g[i].fields);
      }
    }
    forall k | 0 <= k < |disk| ensures Find(g, disk[k].id).Some? || Gone(now, disk[k].fields) {
      FindGuarded(now, disk, sent, disk[k].id);
      FindAt(disk, k);
    }
    NothingKept(now, disk, g);
    assert JudgedAll(disk, g) == g;
  }

  // ---- the PUT handler -------------------------------------------------------------------

  /** A file's contents: a record document, or bytes that do not parse as one. */
  datatype Content = Document(items: seq<Item>) | Bytes(text: string)

  /** One PUT: the file, the window behind it ("" when untagged), its stamp (0 when absent),
      the wall clock in ms, the monotonic clock in ns, and the body. */
  datatype Save = Save(file: string, client: string, seqno: int, now: int, clock: int, body: Content)

  datatype Mark = Mark(seqno: int, at: int)

  const KeepFor: int := 600_000_000_000
  const MaxMarks := 256

  datatype State = State(files: map<string, Content>, marks: map<string, Mark>)

  function SeqKey(file: string, client: string): string {
    if client == "" then file
    else file + ['\0'] + if |client| > 64 then client[..64] else client
  }

  function SeqOf(marks: map<string, Mark>, key: string): int {
    if key in marks then marks[key].seqno else 0
  }

  predicate Accepts(st: State, s: Save) {
    s.seqno <= 0 || s.seqno > SeqOf(st.marks, SeqKey(s.file, s.client))
  }

  /** What is written: the body guarded against disk where both are record documents. */
  function Written(documents: set<string>, st: State, s: Save): Content {
    if s.file in documents && s.file in st.files && st.files[s.file].Document? && s.body.Document?
    then Document(Guarded(s.now, st.files[s.file].items, s.body.items))
    else s.body
  }

  function Raised(marks: map<string, Mark>, key: string, seqno: int, clock: int): map<string, Mark> {
    if seqno > SeqOf(marks, key) then marks[key := Mark(seqno, clock)] else marks
  }

  function Pruned(marks: map<string, Mark>, key: string, clock: int): map<string, Mark> {
    if |marks| > MaxMarks then map k | k in marks && (k == key || clock - marks[k].at <= KeepFor) :: marks[k] else marks
  }

  function Put(documents: set<string>, st: State, s: Save): State {
    if !Accepts(st, s) then st
    else
      var key := SeqKey(s.file, s.client);
      State(st.files[s.file := Written(documents, st, s)],
            if s.seqno > 0 then Pruned(Raised(st.marks, key, s.seqno, s.clock), key, s.clock) else st.marks)
  }

  function After(documents: set<string>, st: State, saves: seq<Save>): State {
    if saves == [] then st else Put(documents, After(documents, st, saves[..|saves| - 1]), saves[|saves| - 1])
  }

  class Server {
    /** The files whose records are merged by id. */
    const documents: set<string>
    var files: map<string, Content>
    var appSeq: map<string, Mark>

    constructor (documents: set<string>)
      ensures this.documents == documents && files == map[] && appSeq == map[]
    {
      this.documents, files, appSeq := documents, map[], map[];
    }

    function Now(): State reads this {
      State(files, appSeq)
    }

    predicate SeqNewer(key: string, seqno: int) reads this {
      seqno > if key in appSeq then appSeq[key].seqno else 0
    }

    method RecordSeq(key: string, seqno: int, clock: int)
      modifies `appSeq
      ensures appSeq == Pruned(Raised(old(appSeq), key, seqno, clock), key, clock)
    {
      if SeqNewer(key, seqno) {
        appSeq := appSeq[key := Mark(seqno, clock)];
      }
      if |appSeq| > MaxMarks {
        ghost var all := appSeq;
        var todo := appSeq.Keys;
        while todo != {}
          invariant todo <= all.Keys
          invariant appSeq == map k | k in all && (k in todo || k == key || clock - all[k].at <= KeepFor) :: all[k]
          decreases todo
        {
          var k :| k in todo;
          todo := todo - {k};
          if k != key && clock - appSeq[k].at > KeepFor {
            appSeq := appSeq - {k};
          }
        }
      }
    }

    /** handleAppDataPut: stale saves change nothing; guarded says that disk's was kept. */
    method HandlePut(s: Save) returns (stale: bool, guarded: bool)
      modifies this
      ensures Now() == Put(documents, old(Now()), s) && (stale <==> !Accepts(old(Now()), s))
      ensures !stale && !guarded ==> files[s.file] == s.body
    {
      var key := SeqKey(s.file, s.client);
      if s.seqno > 0 && !SeqNewer(key, s.seqno) {
        return true, false;
      }
      stale, guarded := false, false;
      var body := s.body;
      if s.file in documents && s.file in files && files[s.file].Document? && s.body.Document? {
        var items;
        items, guarded := GuardLocalWrite(s.now, files[s.file].items, s.body.items);
        body := Document(items);
      }
      files := files[s.file := body];
      if s.seqno > 0 {
        RecordSeq(key, s.seqno, s.clock);
      }
    }
  }

  // ---- stamps over any run of saves ---------------------------------------------------------

  ghost predicate Within(saves: seq<Save>, from: int, to: int) {
    forall i :: 0 <= i < |saves| ==> from <= saves[i].clock <= to
  }

  ghost predicate MarkHolds(marks: map<string, Mark>, key: string, seqno: int, at: int) {
    key in marks && marks[key].seqno >= seqno && marks[key].at >= at
  }

  lemma PutKeepsMark(documents: set<string>, st: State, s: Save, key: string, seqno: int, at: int)
    requires MarkHolds(st.marks, key, seqno, at) && at <= s.clock <= at + KeepFor
    ensures MarkHolds(Put(documents, st, s).marks, key, seqno, at)
  {
  }

  lemma {:induction false} RunKeepsMark(documents: set<string>, st: State, saves: seq<Save>, key: string, seqno: int,
      at: int)
    requires MarkHolds(st.marks, key, seqno, at) && Within(saves, at, at + KeepFor)
    ensures MarkHolds(After(documents, st, saves).marks, key, seqno, at)
    decreases |saves|
  {
    if saves != [] {
      var front := saves[..|saves| - 1];
      RunKeepsMark(documents, st, front, key, seqno, at);
      PutKeepsMark(documents, After(documents, st, front), saves[|saves| - 1], key, seqno, at);
    }
  }

  /** Whatever else is saved in between and whatever marks are pruned: for ten minutes after
      a stamped save is accepted, no save of the same writer and file with the same or an
      older stamp is, so it changes nothing. */
  lemma OlderSaveRefused(documents: set<string>, st: State, first: Save, between: seq<Save>, late: Save)
    requires Accepts(st, first) && 0 < late.seqno <= first.seqno
    requires SeqKey(late.file, late.client) == SeqKey(first.file, first.client)
    requires Within(between, first.clock, first.clock + 600_000_000_000)
    ensures var later := After(documents, Put(documents, st, first), between);
      !Accepts(later, late) && Put(documents, later, late) == later
  {
    var key := SeqKey(first.file, first.client);
    RunKeepsMark(documents, Put(documents, st, first), between, key, first.seqno, first.clock);
  }

  /** Stamps of different windows, or of different files, are never judged against each other: a
      file name holds no NUL, a window's tag counts with its first 64 characters, and no tag is
      a writer of its own. */
  lemma KeysApart(f: string, c: string, g: string, d: string)
    requires '\0' !in f && '\0' !in g && SeqKey(f, c) == SeqKey(g, d)
    ensures f == g && (c == "" <==> d == "")
    ensures (if |c| > 64 then c[..64] else c) == if |d| > 64 then d[..64] else d
  {
    var x, y := SeqKey(f, c), SeqKey(g, d);
    NameEnds(f, c);
    NameEnds(g, d);
    NotShorter(f, c, g, d);
    NotShorter(g, d, f, c);
    assert x[..|f|] == f && y[..|g|] == g;
    assert c != "" ==> x[|f| + 1..] == if |c| > 64 then c[..64] else c;
    assert d != "" ==> y[|g| + 1..] == if |d| > 64 then d[..64] else d;
  }

  lemma NotShorter(f: string, c: string, g: string, d: string)
    requires '\0' !in g && SeqKey(f, c) == SeqKey(g, d)
    ensures |f| >= |g|
  {
    var y := SeqKey(g, d);
    NameEnds(f, c);
    NameEnds(g, d);
    assert forall i :: 0 <= i < |g| ==> y[i] == g[i] && g[i] in g;
  }

  lemma NameEnds(f: string, c: string)
    ensures f <= SeqKey(f, c) && (c == "" ==> SeqKey(f, c) == f)
    ensures c != "" ==> |SeqKey(f, c)| > |f| + 1 && SeqKey(f, c)[|f|] == '\0'
  {
  }

  /** A save of this key went through with a stamp at least as new. */
  ghost predicate TookNewer(documents: set<string>, st: State, saves: seq<Save>, key: string, seqno: int) {
    exists i :: 0 <= i < |saves| && SeqKey(saves[i].file, saves[i].client) == key && saves[i].seqno >= seqno
      && Accepts(After(documents, st, saves[..i]), saves[i])
  }

  /** A save is refused only for an earlier one of the same window and file that was accepted with
      a stamp as new: over any run from an empty table. */
  lemma {:induction false} RefusedForOwnNewer(documents: set<string>, st: State, saves: seq<Save>, late: Save)
    requires st.marks == map[] && !Accepts(After(documents, st, saves), late)
    ensures TookNewer(documents, st, saves, SeqKey(late.file, late.client), late.seqno)
  {
    MarkFromSave(documents, st, saves, SeqKey(late.file, late.client));
  }

  lemma {:induction false} MarkFromSave(documents: set<string>, st: State, saves: seq<Save>, key: string)
    requires st.marks == map[] && key in After(documents, st, saves).marks
    ensures TookNewer(documents, st, saves, key, After(documents, st, saves).marks[key].seqno)
    decreases |saves|
  {
    var n := |saves| - 1;
    var front, s := saves[..n], saves[n];
    MarkAfterPut(documents, After(documents, st, front), s, key);
    if key in After(documents, st, front).marks {
      MarkFromSave(documents, st, front, key);
      TookBefore(documents, st, saves, n, key, After(documents, st, front).marks[key].seqno);
    }
  }

  /** A mark is from before the save, or the save's own. */
  lemma MarkAfterPut(documents: set<string>, st: State, s: Save, key: string)
    requires key in Put(documents, st, s).marks
    ensures var m := Put(documents, st, s).marks[key];
      || (key in st.marks && m == st.marks[key])
      || (Accepts(st, s) && SeqKey(s.file, s.client) == key && s.seqno == m.seqno)
  {
  }

  lemma TookBefore(documents: set<string>, st: State, saves: seq<Save>, n: nat, key: string, seqno: int)
    requires n <= |saves| && TookNewer(documents, st, saves[..n], key, seqno)
    ensures TookNewer(documents, st, saves, key, seqno)
  {
    var front := saves[..n];
    var i :| 0 <= i < |front| && SeqKey(front[i].file, front[i].client) == key && front[i].seqno >= seqno
      && Accepts(After(documents, st, front[..i]), front[i]);
    assert front[i] == saves[i] && front[..i] == saves[..i];
  }

  // ---- records over any run of saves ------------------------------------------------------

  /** Every accepted save of the file is a record document with distinct ids. */
  ghost predicate WellFormed(saves: seq<Save>, file: string) {
    forall i :: 0 <= i < |saves| && saves[i].file == file ==>
      saves[i].body.Document? && DistinctItems(saves[i].body.items)
  }

  ghost predicate HasDocument(st: State, file: string) {
    file in st.files && st.files[file].Document? && DistinctItems(st.files[file].items)
  }

  lemma {:induction false} StaysDocument(documents: set<string>, st: State, saves: seq<Save>, file: string)
    requires HasDocument(st, file) && WellFormed(saves, file)
    ensures HasDocument(After(documents, st, saves), file)
    decreases |saves|
  {
    if saves != [] {
      var front, s := saves[..|saves| - 1], saves[|saves| - 1];
      StaysDocument(documents, st, front, file);
      var before := After(documents, st, front);
      if Accepts(before, s) && s.file == file && file in documents {
        GuardedDistinct(s.now, before.files[file].items, s.body.items);
      }
    }
  }

  /** The record of an id in a stored document. */
  function RecordIn(st: State, file: string, id: string): Option<Fields> {
    if file in st.files && st.files[file].Document? then Find(st.files[file].items, id) else None
  }

  /** This save left out an id that disk held as a tombstone past its time. */
  predicate DropsTombstone(st: State, s: Save, id: string) {
    s.body.Document? && Find(s.body.items, id).None?
    && match RecordIn(st, s.file, id)
       case None => false
       case Some(d) => Stamp(d, "deleted") != 0 && s.now > Stamp(d, "deleted") + 2_592_000_000
  }

  ghost predicate NoLower(was: Fields, f: Fields) {
    Stamp(was, "updated") <= Stamp(f, "updated") && Stamp(was, "placed") <= Stamp(f, "placed")
  }

  lemma SaveKeepsRecord(documents: set<string>, st: State, s: Save, file: string, id: string)
    requires file in documents && HasDocument(st, file) && WellFormed([s], file) && RecordIn(st, file, id).Some?
    ensures var r := RecordIn(Put(documents, st, s), file, id);
      (r.Some? && NoLower(RecordIn(st, file, id).value, r.value))
      || (r.None? && s.file == file && Accepts(st, s) && DropsTombstone(st, s, id))
  {
    assert s == [s][0];
    if Accepts(st, s) && s.file == file {
      FindGuarded(s.now, st.files[file].items, s.body.items, id);
      if Find(s.body.items, id).Some? {
        JudgedStamps(Find(s.body.items, id).value, RecordIn(st, file, id).value);
      }
    }
  }

  /** Over any run of saves, by any windows at any clocks, a record once on disk is still
      there with neither stamp lower, unless some accepted save left it out when it was a
      tombstone past its time. */
  lemma {:induction false} RecordsSurvive(documents: set<string>, st: State, saves: seq<Save>, file: string, id: string)
    requires file in documents && HasDocument(st, file) && WellFormed(saves, file) && RecordIn(st, file, id).Some?
    ensures (exists i ::
              && 0 <= i < |saves| && saves[i].file == file
              && Accepts(After(documents, st, saves[..i]), saves[i])
              && DropsTombstone(After(documents, st, saves[..i]), saves[i], id))
            || (RecordIn(After(documents, st, saves), file, id).Some?
                && NoLower(RecordIn(st, file, id).value, RecordIn(After(documents, st, saves), file, id).value))
    decreases |saves|
  {
    if saves != [] {
      var n := |saves| - 1;
      RecordsSurvive(documents, st, saves[..n], file, id);
      StaysDocument(documents, st, saves[..n], file);
      forall i | 0 <= i < n ensures saves[..n][..i] == saves[..i] {
      }
      if RecordIn(After(documents, st, saves[..n]), file, id).Some? {
        assert [saves[n]][0] == saves[n];
        SaveKeepsRecord(documents, After(documents, st, saves[..n]), saves[n], file, id);
      } else {
        var i :| 0 <= i < n && saves[..n][i].file == file
            && Accepts(After(documents, st, saves[..n][..i]), saves[..n][i])
          && DropsTombstone(After(documents, st, saves[..n][..i]), saves[..n][i], id);
        assert saves[i] == saves[..n][i];
      }
    }
  }
}
