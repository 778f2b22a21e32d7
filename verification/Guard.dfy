/** Judging an app's own save of a record document against the copy on disk
    (internal/peer/guard.go), on parsed documents. */
module Guarding {
  import opened Base
  import opened Records

  /** A JSON value: a number as its whole part, anything else as it is written. */
  datatype Val = Num(n: int) | Other(json: string)

  type Fields = map<string, Val>

  /** A record: its id and all its other fields. */
  datatype Item = Item(id: string, fields: Fields)

  /** An epoch-ms field; absent or unreadable is 0. */
  function Stamp(f: Fields, k: string): int {
    if k in f && f[k].Num? then f[k].n else 0
  }

  predicate PlaceKey(k: string) {
    k == "place" || k == "placed"
  }

  /** dst with src's place on the desk, or with none when src has none. */
  function TakePlace(dst: Fields, src: Fields): Fields {
    map k | k in dst.Keys + src.Keys && (if PlaceKey(k) then k in src else k in dst)
      :: if PlaceKey(k) then src[k] else dst[k]
  }

  /** rec with every field it does not carry taken from d, the place apart. */
  function Fill(rec: Fields, d: Fields): Fields {
    map k | k in rec.Keys + d.Keys && (k in rec || !PlaceKey(k)) :: if k in rec then rec[k] else d[k]
  }

  /** What becomes of a record that disk has too. */
  function Judged(rec: Fields, d: Fields): Fields {
    var su, du, sp, dp := Stamp(rec, "updated"), Stamp(d, "updated"), Stamp(rec, "placed"), Stamp(d, "placed");
    if su < du then (if sp > dp then TakePlace(d, rec) else d)
    else
      var f := if su == du then Fill(rec, d) else rec;
      if dp > sp then TakePlace(f, d) else f
  }

  /** The save takes something from disk for this record. */
  predicate Takes(rec: Fields, d: Fields) {
    var su, du := Stamp(rec, "updated"), Stamp(d, "updated");
    su < du || (su == du && Fill(rec, d) != rec) || Stamp(d, "placed") > Stamp(rec, "placed")
  }

  predicate Gone(now: int, f: Fields) {
    var del := Stamp(f, "deleted");
    del != 0 && now - del > TombstoneTtl
  }

  // ---- one record ------------------------------------------------------------------------

  /** A stamp is the field's number, and 0 where there is none. */
  lemma StampReads(f: Fields, k: string)
    ensures k in f && f[k].Num? ==> f[k] == Num(Stamp(f, k))
    ensures k !in f || f[k].Other? ==> Stamp(f, k) == 0
  {
  }

  /** Neither stamp ever goes down: each is the later of the two sides'. */
  lemma JudgedStamps(rec: Fields, d: Fields)
    ensures Stamp(Judged(rec, d), "updated")
        == if Stamp(rec, "updated") < Stamp(d, "updated") then Stamp(d, "updated") else Stamp(rec, "updated")
    ensures Stamp(Judged(rec, d), "placed")
        == if Stamp(rec, "placed") < Stamp(d, "placed") then Stamp(d, "placed") else Stamp(rec, "placed")
  {
  }

  /** At an equal stamp no field is lost: the save's own fields win, the others are disk's. */
  lemma EqualStampLosesNothing(rec: Fields, d: Fields, k: string)
    requires Stamp(rec, "updated") == Stamp(d, "updated") && k != "place" && k != "placed"
    ensures k in Judged(rec, d) <==> k in rec || k in d
    ensures k in Judged(rec, d) ==> Judged(rec, d)[k] == if k in rec then rec[k] else d[k]
  {
  }

  /** A newer record is the save's in every field but the place: what it dropped stays dropped. */
  lemma NewerIsSents(rec: Fields, d: Fields, k: string)
    requires Stamp(rec, "updated") > Stamp(d, "updated") && k != "place" && k != "placed"
    ensures k in Judged(rec, d) <==> k in rec
    ensures k in rec ==> Judged(rec, d)[k] == rec[k]
  {
  }

  /** What counts as taking something from disk: older words, an older place, or at an equal
      stamp a field that the save lacks. */
  lemma TakesIff(rec: Fields, d: Fields)
    ensures Takes(rec, d) <==>
      || Stamp(rec, "updated") < Stamp(d, "updated") || Stamp(rec, "placed") < Stamp(d, "placed")
      || (Stamp(rec, "updated") == Stamp(d, "updated") && exists k :: k in d && k !in rec && !PlaceKey(k))
  {
    if k :| k in d && k !in rec && !PlaceKey(k) {
      assert k in Fill(rec, d);
    } else {
      assert Fill(rec, d) == rec;
    }
  }

  /** A stale record is disk's in every field but the place. */
  lemma StaleIsDisks(rec: Fields, d: Fields, k: string)
    requires Stamp(rec, "updated") < Stamp(d, "updated") && k != "place" && k != "placed"
    ensures k in Judged(rec, d) <==> k in d
    ensures k in d ==> Judged(rec, d)[k] == d[k]
  {
  }

  /** The place is the later-placed side's; the save's at equal placing, except that a
      stale record keeps disk's. */
  lemma PlaceByItsStamp(rec: Fields, d: Fields, k: string)
    requires k == "place" || k == "placed"
    ensures var from := if Stamp(d, "placed") > Stamp(rec, "placed")
        || (Stamp(d, "placed") == Stamp(rec, "placed") && Stamp(rec, "updated") < Stamp(d, "updated")) then d else rec;
      (k in Judged(rec, d) <==> k in from) && (k in from ==> Judged(rec, d)[k] == from[k])
  {
  }

  /** A judged record takes nothing more from the same copy on disk. */
  lemma JudgedSettled(rec: Fields, d: Fields)
    ensures !Takes(Judged(rec, d), d) && Judged(Judged(rec, d), d) == Judged(rec, d)
  {
    JudgedStamps(rec, d);
    var j := Judged(rec, d);
    if Stamp(j, "updated") == Stamp(d, "updated") {
      forall k | k in d && !PlaceKey(k) ensures k in j {
        if Stamp(rec, "updated") < Stamp(d, "updated") {
          StaleIsDisks(rec, d, k);
        } else {
          EqualStampLosesNothing(rec, d, k);
        }
      }
      assert Fill(j, d) == j;
    }
  }

  lemma TakesNothingKeeps(rec: Fields, d: Fields)
    requires !Takes(rec, d)
    ensures Judged(rec, d) == rec
  {
  }

  // ---- documents -----------------------------------------------------------------------

  ghost predicate DistinctItems(items: seq<Item>) {
    forall i, j :: 0 <= i < j < |items| ==> items[i].id != items[j].id
  }

  /** The record of an id: the last one, as byID keeps it. */
  function Find(items: seq<Item>, id: string): Option<Fields> {
    if items == [] then None
    else if items[|items| - 1].id == id then Some(items[|items| - 1].fields)
    else Find(items[..|items| - 1], id)
  }

  /** An id's record is the last of its id, and an id without one has none. */
  lemma {:induction false} FindIsLast(items: seq<Item>, id: string, i: nat)
    requires i <= |items| && forall j :: i <= j < |items| ==> items[j].id != id
    ensures i == 0 ==> Find(items, id).None?
    ensures i > 0 && items[i - 1].id == id ==> Find(items, id) == Some(items[i - 1].fields)
    decreases |items|
  {
    if i < |items| {
      var front := items[..|items| - 1];
      assert forall j :: 0 <= j < |front| ==> front[j] == items[j];
      FindIsLast(front, id, i);
    }
  }

  /** The records of the save, each judged against disk. */
  function JudgedAll(disk: seq<Item>, sent: seq<Item>): (out: seq<Item>)
    ensures |out| == |sent|
    ensures forall i :: 0 <= i < |sent| ==> out[i] == JudgedItem(disk, sent[i])
  {
    seq(|sent|, i requires 0 <= i < |sent| => JudgedItem(disk, sent[i]))
  }

  function JudgedItem(disk: seq<Item>, rec: Item): Item {
    match Find(disk, rec.id)
    case None => rec
    case Some(d) => Item(rec.id, Judged(rec.fields, d))
  }

  /** Disk's records the save left out, but for tombstones past their time. */
  function Kept(now: int, disk: seq<Item>, sent: seq<Item>): seq<Item> {
    if disk == [] then []
    else
      var d := disk[|disk| - 1];
      Kept(now, disk[..|disk| - 1], sent) + if Find(sent, d.id).None? && !Gone(now, d.fields) then [d] else []
  }

  function Guarded(now: int, disk: seq<Item>, sent: seq<Item>): seq<Item> {
    JudgedAll(disk, sent) + Kept(now, disk, sent)
  }

  /** GuardLocalWrite on two parsed documents. */
  method GuardLocalWrite(now: int, disk: seq<Item>, sent: seq<Item>) returns (out: seq<Item>, changed: bool)
    ensures out == Guarded(now, disk, sent)
    ensures !changed <==> (forall i :: 0 <= i < |sent| ==> JudgedHere(disk, sent[i])) && Kept(now, disk, sent) == []
    ensures !changed ==> out == sent
  {
    var byId := IndexItems(disk);
    out, changed := [], false;
    var i := 0;
    while i < |sent|
      invariant 0 <= i <= |sent|
      invariant out == JudgedAll(disk, sent)[..i]
      invariant changed <==> exists k :: 0 <= k < i && !JudgedHere(disk, sent[k])
    {
      var rec := sent[i];
      if rec.id !in byId {
        out := out + [rec];
      } else {
        var f, took := GuardRecord(rec.fields, byId[rec.id]);
        out := out + [Item(rec.id, f)];
        changed := changed || took;
      }
      i := i + 1;
    }
    assert out == JudgedAll(disk, sent);
    var unsent := Unsent(now, disk, sent);
    out := out + unsent;
    changed := changed || unsent != [];
    if !changed {
      forall k | 0 <= k < |sent| ensures out[k] == sent[k] {
        assert JudgedHere(disk, sent[k]);
        if Find(disk, sent[k].id).Some? {
          TakesNothingKeeps(sent[k].fields, Find(disk, sent[k].id).value);
        }
      }
    }
  }

  /** Disk's records that the save left out and that go on. */
  method Unsent(now: int, disk: seq<Item>, sent: seq<Item>) returns (kept: seq<Item>)
    ensures kept == Kept(now, disk, sent)
  {
    kept := [];
    var seen := IndexItems(sent);
    var n := 0;
    while n < |disk|
      invariant 0 <= n <= |disk| && kept == Kept(now, disk[..n], sent)
    {
      assert disk[..n + 1][..n] == disk[..n];
      var d := disk[n];
      var del := Stamp(d.fields, "deleted");
      if d.id !in seen && !(del != 0 && now - del > TombstoneTtl) {
        kept := kept + [d];
      }
      n := n + 1;
    }
    assert disk[..n] == disk;
  }

  /** The record takes nothing from disk. */
  predicate JudgedHere(disk: seq<Item>, rec: Item) {
    match Find(disk, rec.id)
    case None => true
    case Some(d) => !Takes(rec.fields, d)
  }

  method IndexItems(items: seq<Item>) returns (byId: map<string, Fields>)
    ensures forall id :: Find(items, id) == if id in byId then Some(byId[id]) else None
  {
    byId := map[];
    var i := 0;
    while i < |items|
      invariant 0 <= i <= |items|
      invariant forall id :: Find(items[..i], id) == if id in byId then Some(byId[id]) else None
    {
      assert items[..i + 1][..i] == items[..i];
      byId := byId[items[i].id := items[i].fields];
      i := i + 1;
    }
    assert items[..i] == items;
  }

  /** The three cases of one record, with its fields filled one by one. */
  method GuardRecord(sent: Fields, d: Fields) returns (rec: Fields, took: bool)
    ensures rec == Judged(sent, d) && (took <==> Takes(sent, d))
  {
    rec, took := sent, false;
    var su, du := Stamp(rec, "updated"), Stamp(d, "updated");
    var sp, dp := Stamp(rec, "placed"), Stamp(d, "placed");
    if su < du {
      rec := if sp > dp then TakePlace(d, rec) else d;
      return rec, true;
    }
    if su == du {
      var todo := d.Keys;
      while todo != {}
        invariant todo <= d.Keys
        invariant rec == map k | k in sent.Keys + d.Keys && (k in sent || (!PlaceKey(k) && k !in todo)) ::
            if k in sent then sent[k] else d[k]
        invariant took <==> exists k :: k in d && k !in todo && k !in sent && !PlaceKey(k)
        decreases todo
      {
        var k :| k in todo;
        todo := todo - {k};
        if k != "place" && k != "placed" && k !in rec {
          rec := rec[k := d[k]];
          took := true;
        }
      }
      assert rec == Fill(sent, d);
      assert took <==> Fill(sent, d) != sent by {
        if took {
          var k :| k in d && k !in sent && !PlaceKey(k);
          assert k in Fill(sent, d);
        } else {
          assert Fill(sent, d) == sent;
        }
      }
    }
    if dp > sp {
      rec := TakePlace(rec, d);
      took := true;
    }
  }
}
