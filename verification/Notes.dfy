/** Merging notes, whose words and place on the desk are stamped apart
    (internal/peer/merge.go, mergeNotes). */
module Notes {
  import opened Base
  import opened Listings
  import opened Unions
  import Records

  /** What `updated` stamps: the text, the colour, and that the note is gone. */
  datatype Words = Words(text: Bytes, color: Bytes, created: int, updated: int, deleted: int)

  datatype Place = Place(x: int, y: int, w: int, h: int, shaded: bool)

  /** What `placed` stamps: no place is a note on the pad alone. */
  datatype Desk = Desk(place: Option<Place>, placed: int)

  datatype Note = Note(id: Bytes, words: Words, desk: Desk)

  /** json.Marshal of a note writes id and words first, then the desk fields. */
  datatype Json = Json(words: (Bytes, Words) -> Bytes, desk: Desk -> Bytes) {
    function Of(n: Note): Bytes {
      words(n.id, n.words) + desk(n.desk)
    }
  }

  /** Different notes of one id are written differently. */
  ghost predicate Injective(j: Json) {
    forall x: Note, y: Note :: x.id == y.id && j.Of(x) == j.Of(y) ==> x == y
  }

  /** A difference inside both decides the order of what is longer. */
  lemma {:induction false} LessByFront(a: Bytes, b: Bytes, x: Bytes, y: Bytes)
    requires !(a <= b) && !(b <= a)
    ensures Less(a + x, b + y) <==> Less(a, b)
    decreases |a|
  {
    assert a != [] && b != [];
    if a[0] == b[0] {
      assert a == [a[0]] + a[1..] && b == [b[0]] + b[1..];
      LessByFront(a[1..], b[1..], x, y);
      assert (a + x)[1..] == a[1..] + x && (b + y)[1..] == b[1..] + y;
    }
  }

  lemma {:induction false} LessByBack(a: Bytes, x: Bytes, y: Bytes)
    ensures Less(a + x, a + y) <==> Less(x, y)
    decreases |a|
  {
    if a == [] {
      assert a + x == x && a + y == y;
    } else {
      LessByBack(a[1..], x, y);
      assert (a + x)[1..] == a[1..] + x && (a + y)[1..] == a[1..] + y;
    }
  }

  predicate Wins(j: Json, cand: Note, cur: Note) {
    if cand.words.updated != cur.words.updated then cand.words.updated > cur.words.updated
    else if (cand.words.deleted != 0) != (cur.words.deleted != 0) then cand.words.deleted != 0
    else Less(j.Of(cur), j.Of(cand))
  }

  /** One id on both sides: the winner, with the place that was stamped last. */
  function Unite(j: Json, cur: Note, n: Note): Note {
    var pick := if Wins(j, n, cur) then n else cur;
    var other := if Wins(j, n, cur) then cur else n;
    if other.desk.placed > pick.desk.placed then pick.(desk := other.desk) else pick
  }

  /** x is in nothing ahead of r: its words not changed later, at r's own change not deleted while
      r is not, and in a tie of both not written with greater bytes. */
  ghost predicate NotAhead(j: Json, x: Note, r: Note) {
    && x.words.updated <= r.words.updated
    && (x.words.updated == r.words.updated && x.words.deleted != 0 ==> r.words.deleted != 0)
    && (x.words.updated == r.words.updated && (x.words.deleted != 0 <==> r.words.deleted != 0) ==>
        j.Of(x) == j.Of(r) || exists n :: DiffersAt(j.Of(x), j.Of(r), n))
  }

  /** Which of two notes wins over the other, in their own fields. */
  lemma WinsIff(j: Json, x: Note, r: Note)
    ensures !Wins(j, x, r) <==> NotAhead(j, x, r)
  {
    LessIff(j.Of(x), j.Of(r));
    LessTotal(j.Of(x), j.Of(r));
  }

  /** One note of two: the words of the one that the other is not ahead of, and the desk of the one
      placed last, the winner's where both were placed at once. */
  lemma UniteKeepsNewest(j: Json, x: Note, y: Note)
    requires Injective(j) && x.id == y.id
    ensures var u := Unite(j, x, y);
      || (u.id == x.id && u.words == x.words && NotAhead(j, y, x)
          && u.desk == if y.desk.placed > x.desk.placed then y.desk else x.desk)
      || (u.id == y.id && u.words == y.words && NotAhead(j, x, y)
          && u.desk == if x.desk.placed > y.desk.placed then x.desk else y.desk)
  {
    WinsIff(j, x, y);
    WinsIff(j, y, x);
    LessTotal(j.Of(x), j.Of(y));
  }

  predicate SamePlacing(x: Note, y: Note) {
    x.desk.placed == y.desk.placed ==> x.desk == y.desk
  }

  function LaterDesk(x: Desk, y: Desk): Desk {
    if y.placed > x.placed then y else x
  }

  /** Uniting does not depend on the sides. */
  lemma UniteCommutes(j: Json, x: Note, y: Note)
    requires Injective(j) && x.id == y.id
    ensures Unite(j, x, y) == Unite(j, y, x)
  {
    LessTotal(j.Of(x), j.Of(y));
    LessTotal(j.Of(x), j.Of(x));
  }

  // ---- documents ----------------------------------------------------------------------

  const IdOf: Note -> Bytes := (n: Note) => n.id

  function UniteBy(j: Json): (Note, Note) -> Note {
    (cur, n) => Unite(j, cur, n)
  }

  lemma JoinCommutes(j: Json, a: Doc<Note>, b: Doc<Note>)
    requires Injective(j) && Keyed(IdOf, a) && Keyed(IdOf, b)
    ensures Join(UniteBy(j), a, b) == Join(UniteBy(j), b, a)
  {
    forall k | k in a && k in b ensures Unite(j, a[k], b[k]) == Unite(j, b[k], a[k]) {
      UniteCommutes(j, a[k], b[k]);
    }
  }

  predicate Expired(now: int, n: Note) {
    n.words.deleted != 0 && now - n.words.deleted > Records.TombstoneTtl
  }

  /** A tombstone holds nothing it said, its place included. */
  function Scrub(n: Note): Note {
    if n.words.deleted != 0 then n.(desk := Desk(None, 0)) else n
  }

  function Collect(now: int, d: Doc<Note>): Doc<Note> {
    map k | k in d && !Expired(now, d[k]) :: Scrub(d[k])
  }

  /** Newest-edited first. */
  const ByEdited: Order<Note> := Order((n: Note) => -n.words.updated, IdOf)

  function MergedDoc(j: Json, now: int, local: seq<Note>, remote: seq<Note>): Doc<Note> {
    Collect(now, Over(UniteBy(j), IdOf, Last(IdOf, local), remote))
  }

  lemma MergedKeyed(j: Json, now: int, local: seq<Note>, remote: seq<Note>)
    ensures Keyed(IdOf, Over(UniteBy(j), IdOf, Last(IdOf, local), remote))
        && Keyed(IdOf, MergedDoc(j, now, local, remote))
  {
    OverKeyed(UniteBy(j), IdOf, Last(IdOf, local), remote);
  }

  ghost function Merged(j: Json, now: int, local: seq<Note>, remote: seq<Note>): (out: seq<Note>)
    ensures IsListing(ByEdited, out, MergedDoc(j, now, local, remote))
  {
    MergedKeyed(j, now, local, remote);
    Listing(ByEdited, MergedDoc(j, now, local, remote))
  }

  method MergeNotes(j: Json, now: int, local: seq<Note>, remote: seq<Note>) returns (out: seq<Note>)
    ensures out == Merged(j, now, local, remote)
  {
    var m := IndexLocal(IdOf, local);
    m := UniteOver(UniteBy(j), IdOf, m, remote);
    MergedKeyed(j, now, local, remote);
    out := ListKept(now, m);
    ListingUnique(ByEdited, out, Merged(j, now, local, remote));
  }

  method ListKept(now: int, m: Doc<Note>) returns (out: seq<Note>)
    requires Keyed(IdOf, m)
    ensures IsListing(ByEdited, out, Collect(now, m))
  {
    var kept: Doc<Note> := map[];
    var todo := m.Keys;
    while todo != {}
      invariant todo <= m.Keys
      invariant kept == map k | k in m && k !in todo && !Expired(now, m[k]) :: Scrub(m[k])
      decreases todo
    {
      var k :| k in todo;
      todo := todo - {k};
      var n := m[k];
      if !(n.words.deleted != 0 && now - n.words.deleted > Records.TombstoneTtl) {
        if n.words.deleted != 0 {
          n := n.(desk := Desk(None, 0));
        }
        kept := kept[k := n];
      }
    }
    assert kept == Collect(now, m);
    out := ListValues(ByEdited, kept);
  }

  /** Two nodes that merge each other's notes get the identical list. */
  lemma MergeCommutes(j: Json, now: int, a: seq<Note>, b: seq<Note>)
    requires Injective(j) && DistinctIds(IdOf, a) && DistinctIds(IdOf, b)
    ensures Merged(j, now, a, b) == Merged(j, now, b, a)
  {
    OverDistinct(UniteBy(j), IdOf, Last(IdOf, a), b);
    OverDistinct(UniteBy(j), IdOf, Last(IdOf, b), a);
    JoinCommutes(j, Last(IdOf, a), Last(IdOf, b));
    ListingUnique(ByEdited, Merged(j, now, a, b), Merged(j, now, b, a));
  }

  /** A tombstone's time: 30 days in ms. */
  predicate PastItsTime(now: int, w: Words) {
    w.deleted != 0 && now > w.deleted + 2_592_000_000
  }

  /** A merge keeps n: whole if it is live, without its place if it is a tombstone, and not at all
      past a tombstone's time. */
  predicate HoldsOf(now: int, m: Doc<Note>, k: Bytes, n: Note) {
    if PastItsTime(now, n.words) then k !in m
    else k in m && m[k] == Note(n.id, n.words, if n.words.deleted != 0 then Desk(None, 0) else n.desk)
  }

  /** What merging two lists of notes gives holds every id of either: alone as it was, or united. */
  lemma MergedHolds(j: Json, now: int, a: seq<Note>, b: seq<Note>, k: Bytes)
    requires DistinctIds(IdOf, a) && DistinctIds(IdOf, b)
    ensures var x, y, m := Last(IdOf, a), Last(IdOf, b), Last(IdOf, Merged(j, now, a, b));
      if k in x && k in y then HoldsOf(now, m, k, Unite(j, x[k], y[k]))
      else if k in x then HoldsOf(now, m, k, x[k])
      else if k in y then HoldsOf(now, m, k, y[k])
      else k !in m
  {
    MergedKeyed(j, now, a, b);
    LastOfListing(ByEdited, Merged(j, now, a, b), MergedDoc(j, now, a, b));
    OverDistinct(UniteBy(j), IdOf, Last(IdOf, a), b);
  }

  /** The list is newest-edited first, by the ids' bytes among notes of one moment. */
  lemma MergedInOrder(j: Json, now: int, a: seq<Note>, b: seq<Note>, i: nat, k: nat)
    requires i < k < |Merged(j, now, a, b)|
    ensures var x, y := Merged(j, now, a, b)[i], Merged(j, now, a, b)[k];
      x.words.updated > y.words.updated
      || (x.words.updated == y.words.updated && exists n :: DiffersAt(x.id, y.id, n))
  {
    var m := Merged(j, now, a, b);
    assert ByEdited.Before(m[i], m[k]);
    LessIff(m[i].id, m[k].id);
  }

  lemma JoinSelf(j: Json, d: Doc<Note>)
    ensures Join(UniteBy(j), d, d) == d
  {
    assert forall n :: Unite(j, n, n) == n;
  }

  /** What was collected once is collected whole. */
  lemma CollectTwice(now: int, d: Doc<Note>)
    ensures Collect(now, Collect(now, d)) == Collect(now, d)
  {
  }

  /** The canonical form of merged notes is the notes themselves. */
  lemma MergedIsCanonical(j: Json, now: int, a: seq<Note>, b: seq<Note>)
    ensures var m := Merged(j, now, a, b); Merged(j, now, m, m) == m
  {
    var m, d := Merged(j, now, a, b), MergedDoc(j, now, a, b);
    MergedKeyed(j, now, a, b);
    LastOfListing(ByEdited, m, d);
    assert Last(IdOf, m) == d;
    OverDistinct(UniteBy(j), IdOf, d, m);
    JoinSelf(j, d);
    CollectTwice(now, Over(UniteBy(j), IdOf, Last(IdOf, a), b));
    ListingUnique(ByEdited, Merged(j, now, m, m), m);
  }
}
