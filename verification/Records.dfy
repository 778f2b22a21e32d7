/** Record-by-record merging of todo, clock and place documents (internal/peer/merge.go). */
module Records {
  import opened Base
  import opened Listings
  import opened Unions

  /** A record: the fields merging looks at, and all the others as they are. deleted is a
      tombstone's stamp in ms, 0 for a live record. */
  datatype Rec = Rec(id: Bytes, created: int, updated: int, deleted: int, rest: Bytes)

  const TombstoneTtl: int := 30 * 24 * 3600 * 1000

  /** json.Marshal of a record: different records, different bytes. */
  ghost predicate Injective(json: Rec -> Bytes) {
    forall x, y :: json(x) == json(y) ==> x == y
  }

  /** The candidate replaces the current record of the same id. */
  predicate Wins(json: Rec -> Bytes, cand: Rec, cur: Rec) {
    if cand.updated != cur.updated then cand.updated > cur.updated
    else if (cand.deleted != 0) != (cur.deleted != 0) then cand.deleted != 0
    else Less(json(cur), json(cand))
  }

  function Best(json: Rec -> Bytes, cur: Rec, cand: Rec): Rec {
    if Wins(json, cand, cur) then cand else cur
  }

  /** Wins is a strict total order: of two different records exactly one wins. */
  lemma WinsTotal(json: Rec -> Bytes, x: Rec, y: Rec)
    requires Injective(json)
    ensures !Wins(json, x, x)
    ensures x != y ==> (Wins(json, x, y) <==> !Wins(json, y, x))
  {
    LessTotal(json(x), json(y));
    LessTotal(json(x), json(x));
  }

  lemma WinsTransitive(json: Rec -> Bytes, x: Rec, y: Rec, z: Rec)
    requires Wins(json, x, y) && Wins(json, y, z)
    ensures Wins(json, x, z)
  {
    if x.updated == z.updated && (x.deleted != 0) == (z.deleted != 0) {
      LessTransitive(json(z), json(y), json(x));
    }
  }

  /** x is in nothing ahead of r: not changed later, at r's own change not deleted while r is
      not, and in a tie of both not written with greater bytes. */
  ghost predicate NotAhead(json: Rec -> Bytes, x: Rec, r: Rec) {
    && x.updated <= r.updated
    && (x.updated == r.updated && x.deleted != 0 ==> r.deleted != 0)
    && (x.updated == r.updated && (x.deleted != 0 <==> r.deleted != 0) ==>
        json(x) == json(r) || exists n :: DiffersAt(json(x), json(r), n))
  }

  /** Which of two records replaces the other, in their own fields. */
  lemma WinsIff(json: Rec -> Bytes, x: Rec, r: Rec)
    ensures !Wins(json, x, r) <==> NotAhead(json, x, r)
  {
    LessIff(json(x), json(r));
    LessTotal(json(x), json(r));
  }

  lemma BestLaws(json: Rec -> Bytes, x: Rec, y: Rec, z: Rec)
    requires Injective(json)
    ensures Best(json, x, x) == x
    ensures Best(json, x, y) == Best(json, y, x)
    ensures Best(json, x, Best(json, y, z)) == Best(json, Best(json, x, y), z)
  {
    WinsTotal(json, x, y);
    WinsTotal(json, y, z);
    WinsTotal(json, x, z);
    if Wins(json, x, y) && Wins(json, y, z) { WinsTransitive(json, x, y, z); }
    if Wins(json, z, y) && Wins(json, y, x) { WinsTransitive(json, z, y, x); }
    if Wins(json, x, z) && Wins(json, z, y) { WinsTransitive(json, x, z, y); }
    if Wins(json, y, x) && Wins(json, x, z) { WinsTransitive(json, y, x, z); }
  }

  const IdOf: Rec -> Bytes := (x: Rec) => x.id

  function BestBy(json: Rec -> Bytes): (Rec, Rec) -> Rec {
    (cur, cand) => Best(json, cur, cand)
  }

  type Recs = Doc<Rec>

  lemma JoinIdempotent(json: Rec -> Bytes, a: Recs)
    requires Injective(json)
    ensures Join(BestBy(json), a, a) == a
  {
    forall k | k in a ensures Best(json, a[k], a[k]) == a[k] {
      BestLaws(json, a[k], a[k], a[k]);
    }
  }

  lemma JoinCommutative(json: Rec -> Bytes, a: Recs, b: Recs)
    requires Injective(json)
    ensures Join(BestBy(json), a, b) == Join(BestBy(json), b, a)
  {
    forall k | k in a && k in b ensures Best(json, a[k], b[k]) == Best(json, b[k], a[k]) {
      BestLaws(json, a[k], b[k], b[k]);
    }
  }

  lemma JoinAssociative(json: Rec -> Bytes, a: Recs, b: Recs, c: Recs)
    requires Injective(json)
    ensures Join(BestBy(json), a, Join(BestBy(json), b, c)) == Join(BestBy(json), Join(BestBy(json), a, b), c)
  {
    var l, r := Join(BestBy(json), a, Join(BestBy(json), b, c)), Join(BestBy(json), Join(BestBy(json), a, b), c);
    forall k | k in l ensures l[k] == r[k] {
      if k in a && k in b && k in c {
        BestLaws(json, a[k], b[k], c[k]);
      }
    }
  }

  /** Every id is kept at a record nothing else in either document wins over. */
  lemma JoinKeepsGreatest(json: Rec -> Bytes, a: Recs, b: Recs, k: Bytes)
    requires Injective(json) && k in Join(BestBy(json), a, b)
    ensures var x := Join(BestBy(json), a, b)[k];
      && ((k in a && x == a[k]) || (k in b && x == b[k]))
      && (k in a ==> !Wins(json, a[k], x)) && (k in b ==> !Wins(json, b[k], x))
  {
    if k in a { WinsTotal(json, a[k], a[k]); }
    if k in b { WinsTotal(json, b[k], b[k]); }
    if k in a && k in b { WinsTotal(json, a[k], b[k]); }
  }

  /** Of a record that both documents have, the one kept is nothing's junior: the later change
      stays, at one change the deletion, at one of those the greater bytes. */
  lemma JoinKeepsNewest(json: Rec -> Bytes, a: Recs, b: Recs, k: Bytes)
    requires Injective(json) && k in a && k in b
    ensures k in Join(BestBy(json), a, b)
    ensures var r := Join(BestBy(json), a, b)[k];
      (r == a[k] || r == b[k]) && NotAhead(json, a[k], r) && NotAhead(json, b[k], r)
  {
    JoinKeepsGreatest(json, a, b, k);
    var r := Join(BestBy(json), a, b)[k];
    WinsIff(json, a[k], r);
    WinsIff(json, b[k], r);
  }

  // ---- tombstones past their time ---------------------------------------------------

  predicate Expired(now: int, x: Rec) {
    x.deleted != 0 && now - x.deleted > TombstoneTtl
  }

  function Collect(now: int, d: Recs): Recs {
    map k | k in d && !Expired(now, d[k]) :: d[k]
  }

  ghost predicate NoneExpired(now: int, d: Recs) {
    forall k :: k in d ==> !Expired(now, d[k])
  }

  lemma JoinNoneExpired(json: Rec -> Bytes, now: int, a: Recs, b: Recs)
    requires NoneExpired(now, a) && NoneExpired(now, b)
    ensures NoneExpired(now, Join(BestBy(json), a, b))
        && Collect(now, Join(BestBy(json), a, b)) == Join(BestBy(json), a, b)
  {
  }

  // ---- documents as lists -------------------------------------------------------------

  /** Todos, clocks and places are listed by creation. */
  const ByCreated: Order<Rec> := Order((x: Rec) => x.created, IdOf)

  /** What merging two lists comes to. */
  function MergedDoc(json: Rec -> Bytes, now: int, local: seq<Rec>, remote: seq<Rec>): Recs {
    Collect(now, Over(BestBy(json), IdOf, Last(IdOf, local), remote))
  }

  ghost function Merged(json: Rec -> Bytes, now: int, local: seq<Rec>, remote: seq<Rec>): (out: seq<Rec>)
    ensures IsListing(ByCreated, out, MergedDoc(json, now, local, remote))
  {
    OverKeyed(BestBy(json), IdOf, Last(IdOf, local), remote);
    Listing(ByCreated, MergedDoc(json, now, local, remote))
  }

  /** mergeTodos, mergeClocks and mergePlaces on parsed documents. */
  method MergeRecords(json: Rec -> Bytes, now: int, local: seq<Rec>, remote: seq<Rec>) returns (out: seq<Rec>)
    ensures out == Merged(json, now, local, remote)
  {
    var m := IndexLocal(IdOf, local);
    m := UniteOver(BestBy(json), IdOf, m, remote);
    OverKeyed(BestBy(json), IdOf, Last(IdOf, local), remote);
    out := ListLive(now, m);
    ListingUnique(ByCreated, out, Merged(json, now, local, remote));
  }

  /** The records left after tombstones past their time are dropped, sorted. */
  method ListLive(now: int, m: Recs) returns (out: seq<Rec>)
    requires Keyed(IdOf, m)
    ensures IsListing(ByCreated, out, Collect(now, m))
  {
    var kept := m;
    var todo := m.Keys;
    while todo != {}
      invariant todo <= m.Keys
      invariant kept == map k | k in m && (k in todo || !Expired(now, m[k])) :: m[k]
      decreases todo
    {
      var k :| k in todo;
      todo := todo - {k};
      if m[k].deleted != 0 && now - m[k].deleted > TombstoneTtl {
        kept := kept - {k};
      }
    }
    assert kept == Collect(now, m);
    out := ListValues(ByCreated, kept);
  }

  // ---- merging lists is a join ----------------------------------------------------------

  /** For lists with distinct ids a merge is the join of the two documents, collected. */
  lemma MergedIsJoin(json: Rec -> Bytes, now: int, a: seq<Rec>, b: seq<Rec>)
    requires Injective(json) && DistinctIds(IdOf, a) && DistinctIds(IdOf, b)
    ensures MergedDoc(json, now, a, b) == Collect(now, Join(BestBy(json), Last(IdOf, a), Last(IdOf, b)))
  {
    OverDistinct(BestBy(json), IdOf, Last(IdOf, a), b);
  }

  /** What a merge gives is again a list with distinct ids, of the merged document. */
  lemma MergedLast(json: Rec -> Bytes, now: int, a: seq<Rec>, b: seq<Rec>)
    ensures Last(IdOf, Merged(json, now, a, b)) == MergedDoc(json, now, a, b)
        && DistinctIds(IdOf, Merged(json, now, a, b))
  {
    OverKeyed(BestBy(json), IdOf, Last(IdOf, a), b);
    LastOfListing(ByCreated, Merged(json, now, a, b), MergedDoc(json, now, a, b));
  }

  /** A tombstone's time: 30 days in ms. */
  predicate PastItsTime(now: int, x: Rec) {
    x.deleted != 0 && now > x.deleted + 2_592_000_000
  }

  predicate HoldsOf(now: int, m: Recs, k: Bytes, r: Rec) {
    if PastItsTime(now, r) then k !in m else k in m && m[k] == r
  }

  /** m holds every id of x or y, at a record that the other's is not ahead of; only tombstones
      past their time are missing, no live record ever. */
  ghost predicate HoldsBoth(json: Rec -> Bytes, now: int, x: Recs, y: Recs, m: Recs, k: Bytes) {
    if k in x && k in y then
      || (HoldsOf(now, m, k, x[k]) && NotAhead(json, y[k], x[k]))
      || (HoldsOf(now, m, k, y[k]) && NotAhead(json, x[k], y[k]))
    else if k in x then HoldsOf(now, m, k, x[k])
    else if k in y then HoldsOf(now, m, k, y[k])
    else k !in m
  }

  /** What merging two lists gives holds both. */
  lemma MergedHolds(json: Rec -> Bytes, now: int, a: seq<Rec>, b: seq<Rec>, k: Bytes)
    requires Injective(json) && DistinctIds(IdOf, a) && DistinctIds(IdOf, b)
    ensures HoldsBoth(json, now, Last(IdOf, a), Last(IdOf, b), Last(IdOf, Merged(json, now, a, b)), k)
  {
    MergedLast(json, now, a, b);
    MergedIsJoin(json, now, a, b);
    if k in Last(IdOf, a) && k in Last(IdOf, b) {
      JoinKeepsNewest(json, Last(IdOf, a), Last(IdOf, b), k);
    }
  }

  /** The list is in the order of creation, and of the ids' bytes among records of one moment. */
  lemma MergedInOrder(json: Rec -> Bytes, now: int, a: seq<Rec>, b: seq<Rec>, i: nat, j: nat)
    requires i < j < |Merged(json, now, a, b)|
    ensures var x, y := Merged(json, now, a, b)[i], Merged(json, now, a, b)[j];
      x.created < y.created || (x.created == y.created && exists n :: DiffersAt(x.id, y.id, n))
  {
    var m := Merged(json, now, a, b);
    assert ByCreated.Before(m[i], m[j]);
    LessIff(m[i].id, m[j].id);
  }

  /** Equal documents are listed equally. */
  lemma SameDocSameList(json: Rec -> Bytes, now: int, a: seq<Rec>, b: seq<Rec>, c: seq<Rec>, d: seq<Rec>)
    requires MergedDoc(json, now, a, b) == MergedDoc(json, now, c, d)
    ensures Merged(json, now, a, b) == Merged(json, now, c, d)
  {
    ListingUnique(ByCreated, Merged(json, now, a, b), Merged(json, now, c, d));
  }

  /** Two nodes that merge each other's document get the identical list. */
  lemma MergeCommutes(json: Rec -> Bytes, now: int, a: seq<Rec>, b: seq<Rec>)
    requires Injective(json) && DistinctIds(IdOf, a) && DistinctIds(IdOf, b)
    ensures Merged(json, now, a, b) == Merged(json, now, b, a)
  {
    MergedIsJoin(json, now, a, b);
    MergedIsJoin(json, now, b, a);
    JoinCommutative(json, Last(IdOf, a), Last(IdOf, b));
    SameDocSameList(json, now, a, b, b, a);
  }

  // ---- when the grouping matters ------------------------------------------------------------

  function Entry(d: Recs, k: Bytes): Option<Rec> {
    if k in d then Some(d[k]) else None
  }

  function Keep(now: int, x: Option<Rec>): Option<Rec> {
    if x.Some? && Expired(now, x.value) then None else x
  }

  function BestEntry(json: Rec -> Bytes, x: Option<Rec>, y: Option<Rec>): Option<Rec> {
    if x.None? then y else if y.None? then x else Some(Best(json, x.value, y.value))
  }

  /** What two documents merged at now hold for an id. */
  function MergedEntry(json: Rec -> Bytes, now: int, x: Option<Rec>, y: Option<Rec>): Option<Rec> {
    Keep(now, BestEntry(json, x, y))
  }

  /** With z merged last: where the best of the three is past its time, z alone decides. */
  lemma MergedLastDecides(json: Rec -> Bytes, now: int, x: Option<Rec>, y: Option<Rec>, z: Option<Rec>)
    ensures var m := BestEntry(json, BestEntry(json, x, y), z);
      MergedEntry(json, now, MergedEntry(json, now, x, y), z) == if Keep(now, m) == m then m else Keep(now, z)
  {
  }

  lemma BestEntryLaws(json: Rec -> Bytes, x: Option<Rec>, y: Option<Rec>, z: Option<Rec>)
    requires Injective(json)
    ensures BestEntry(json, x, y) == BestEntry(json, y, x)
    ensures BestEntry(json, BestEntry(json, x, y), z) == BestEntry(json, x, BestEntry(json, y, z))
  {
    if x.Some? && y.Some? {
      BestLaws(json, x.value, y.value, if z.Some? then z.value else y.value);
    }
  }

  /** For one id the two groupings agree unless the best of the three records is past its time
      and what the first and the last copy keep differs. */
  lemma GroupingOfOne(json: Rec -> Bytes, now: int, x: Option<Rec>, y: Option<Rec>, z: Option<Rec>)
    requires Injective(json)
    ensures var m := BestEntry(json, x, BestEntry(json, y, z));
      MergedEntry(json, now, MergedEntry(json, now, x, y), z) == MergedEntry(json, now, x, MergedEntry(json, now, y, z))
      <==> Keep(now, m) == m || Keep(now, x) == Keep(now, z)
  {
    MergedLastDecides(json, now, x, y, z);
    MergedLastDecides(json, now, z, y, x);
    BestEntryLaws(json, x, y, z);
    BestEntryLaws(json, z, y, x);
    BestEntryLaws(json, y, z, x);
    BestEntryLaws(json, x, MergedEntry(json, now, y, z), z);
  }

  /** What merging two lists holds for an id. */
  lemma EntryOfMerged(json: Rec -> Bytes, now: int, a: seq<Rec>, b: seq<Rec>, k: Bytes)
    requires Injective(json) && DistinctIds(IdOf, a) && DistinctIds(IdOf, b)
    ensures Entry(Last(IdOf, Merged(json, now, a, b)), k)
      == MergedEntry(json, now, Entry(Last(IdOf, a), k), Entry(Last(IdOf, b), k))
  {
    MergedLast(json, now, a, b);
    MergedIsJoin(json, now, a, b);
  }

  /** Two lists hold the same for an id. */
  predicate SameAt(a: seq<Rec>, b: seq<Rec>, k: Bytes) {
    Entry(Last(IdOf, a), k) == Entry(Last(IdOf, b), k)
  }

  /** Merged lists are the same list exactly when they hold the same for every id. */
  lemma SameEntriesSameList(json: Rec -> Bytes, now: int, a: seq<Rec>, b: seq<Rec>, c: seq<Rec>, d: seq<Rec>)
    ensures var m, n := Merged(json, now, a, b), Merged(json, now, c, d); m == n <==> forall k :: SameAt(m, n, k)
  {
    var m, n := Merged(json, now, a, b), Merged(json, now, c, d);
    MergedLast(json, now, a, b);
    MergedLast(json, now, c, d);
    var p, q := Last(IdOf, m), Last(IdOf, n);
    if forall k :: SameAt(m, n, k) {
      forall k ensures k in p <==> k in q {
        assert SameAt(m, n, k);
      }
      forall k | k in p ensures p[k] == q[k] {
        assert SameAt(m, n, k);
      }
      SameDocSameList(json, now, a, b, c, d);
    }
  }

  /** For one id of three lists. */
  lemma GroupingsAt(json: Rec -> Bytes, now: int, a: seq<Rec>, b: seq<Rec>, c: seq<Rec>, k: Bytes)
    requires Injective(json) && DistinctIds(IdOf, a) && DistinctIds(IdOf, b) && DistinctIds(IdOf, c)
    ensures var x, y, z := Last(IdOf, a), Last(IdOf, b), Last(IdOf, c);
      SameAt(Merged(json, now, Merged(json, now, a, b), c), Merged(json, now, a, Merged(json, now, b, c)), k)
      <==> Agreeing(now, Join(BestBy(json), x, Join(BestBy(json), y, z)), x, z, k)
  {
    MergedLast(json, now, a, b);
    MergedLast(json, now, b, c);
    EntryOfMerged(json, now, a, b, k);
    EntryOfMerged(json, now, Merged(json, now, a, b), c, k);
    EntryOfMerged(json, now, b, c, k);
    EntryOfMerged(json, now, a, Merged(json, now, b, c), k);
    GroupingOfOne(json, now, Entry(Last(IdOf, a), k), Entry(Last(IdOf, b), k), Entry(Last(IdOf, c), k));
    EntryOfJoin(json, Last(IdOf, a), Last(IdOf, b), Last(IdOf, c), k);
  }

  /** Where the best record for the id is a tombstone past its time, both keep the same. */
  predicate Agreeing(now: int, best: Recs, x: Recs, z: Recs, k: Bytes) {
    k in best && Expired(now, best[k]) ==> Keep(now, Entry(x, k)) == Keep(now, Entry(z, k))
  }

  /** The order three nodes merge in does not matter exactly when, for every id whose best
      record is a tombstone past its time, the first and the last copy keep the same. */
  lemma MergeAssociatesIff(json: Rec -> Bytes, now: int, a: seq<Rec>, b: seq<Rec>, c: seq<Rec>)
    requires Injective(json) && DistinctIds(IdOf, a) && DistinctIds(IdOf, b) && DistinctIds(IdOf, c)
    ensures var x, y, z := Last(IdOf, a), Last(IdOf, b), Last(IdOf, c);
      var best := Join(BestBy(json), x, Join(BestBy(json), y, z));
      Merged(json, now, Merged(json, now, a, b), c) == Merged(json, now, a, Merged(json, now, b, c))
      <==> forall k :: Agreeing(now, best, x, z, k)
  {
    var ab, bc := Merged(json, now, a, b), Merged(json, now, b, c);
    var x, z := Last(IdOf, a), Last(IdOf, c);
    var best := Join(BestBy(json), x, Join(BestBy(json), Last(IdOf, b), z));
    SameEntriesSameList(json, now, ab, c, a, bc);
    if k :| !Agreeing(now, best, x, z, k) {
      GroupingsAt(json, now, a, b, c, k);
    } else {
      forall k ensures SameAt(Merged(json, now, ab, c), Merged(json, now, a, bc), k) {
        GroupingsAt(json, now, a, b, c, k);
      }
    }
  }

  lemma EntryOfJoin(json: Rec -> Bytes, a: Recs, b: Recs, c: Recs, k: Bytes)
    ensures Entry(Join(BestBy(json), a, Join(BestBy(json), b, c)), k)
      == BestEntry(json, Entry(a, k), BestEntry(json, Entry(b, k), Entry(c, k)))
  {
  }

  /** The canonical form of a merged document is the document. Merging again what is merged in
      already changes nothing, exactly when of no id whose best record is a tombstone past its
      time the other copy keeps a record. */
  lemma MergeAbsorbs(json: Rec -> Bytes, now: int, a: seq<Rec>, b: seq<Rec>)
    requires Injective(json) && DistinctIds(IdOf, a) && DistinctIds(IdOf, b)
    ensures var x, y := Last(IdOf, a), Last(IdOf, b);
      var m := Merged(json, now, a, b);
      && Merged(json, now, m, m) == m
      && (Merged(json, now, m, b) == m <==> forall k :: Agreeing(now, Join(BestBy(json), x, y), map[], y, k))
  {
    var m := Merged(json, now, a, b);
    var x, y := Last(IdOf, a), Last(IdOf, b);
    SameEntriesSameList(json, now, m, b, a, b);
    SameEntriesSameList(json, now, m, m, a, b);
    forall k ensures SameAt(Merged(json, now, m, m), m, k) {
      AbsorbedAt(json, now, a, b, k);
    }
    if k :| !Agreeing(now, Join(BestBy(json), x, y), map[], y, k) {
      AbsorbedAt(json, now, a, b, k);
    } else {
      forall k ensures SameAt(Merged(json, now, m, b), m, k) {
        AbsorbedAt(json, now, a, b, k);
      }
    }
  }

  lemma AbsorbedAt(json: Rec -> Bytes, now: int, a: seq<Rec>, b: seq<Rec>, k: Bytes)
    requires Injective(json) && DistinctIds(IdOf, a) && DistinctIds(IdOf, b)
    ensures var x, y := Last(IdOf, a), Last(IdOf, b);
      var m := Merged(json, now, a, b);
      && SameAt(Merged(json, now, m, m), m, k)
      && (SameAt(Merged(json, now, m, b), m, k) <==> Agreeing(now, Join(BestBy(json), x, y), map[], y, k))
  {
    var m := Merged(json, now, a, b);
    MergedLast(json, now, a, b);
    EntryOfMerged(json, now, a, b, k);
    EntryOfMerged(json, now, m, b, k);
    EntryOfMerged(json, now, m, m, k);
    var x, y := Entry(Last(IdOf, a), k), Entry(Last(IdOf, b), k);
    MergedLastDecides(json, now, x, y, y);
    BestEntryLaws(json, x, y, y);
    BestEntrySame(json, y);
    BestEntrySame(json, Entry(Last(IdOf, m), k));
  }

  lemma BestEntrySame(json: Rec -> Bytes, x: Option<Rec>)
    requires Injective(json)
    ensures BestEntry(json, x, x) == x
  {
    if x.Some? {
      WinsTotal(json, x.value, x.value);
    }
  }

  /** In particular while no tombstone is past its time. */
  lemma MergeAssociates(json: Rec -> Bytes, now: int, a: seq<Rec>, b: seq<Rec>, c: seq<Rec>)
    requires Injective(json) && DistinctIds(IdOf, a) && DistinctIds(IdOf, b) && DistinctIds(IdOf, c)
    requires NoneExpired(now, Last(IdOf, a)) && NoneExpired(now, Last(IdOf, b)) && NoneExpired(now, Last(IdOf, c))
    ensures Merged(json, now, Merged(json, now, a, b), c) == Merged(json, now, a, Merged(json, now, b, c))
  {
    JoinNoneExpired(json, now, Last(IdOf, b), Last(IdOf, c));
    JoinNoneExpired(json, now, Last(IdOf, a), Join(BestBy(json), Last(IdOf, b), Last(IdOf, c)));
    MergeAssociatesIff(json, now, a, b, c);
  }

  /** An instance where it matters: the tombstone is dropped together with the live record it
      beat, and that record comes back from another copy. */
  lemma ExpiryBreaksAssociativity(json: Rec -> Bytes, now: int)
    requires Injective(json) && now > TombstoneTtl + 1
    ensures var gone := [Rec([1], 0, 2, now - TombstoneTtl - 1, [])];
      var live := [Rec([1], 0, 1, 0, [])];
      Merged(json, now, Merged(json, now, gone, live), live) != Merged(json, now, gone, Merged(json, now, live, live))
  {
    var gone, live := Rec([1], 0, 2, now - TombstoneTtl - 1, []), Rec([1], 0, 1, 0, []);
    assert Last(IdOf, [gone]) == map[[1] := gone] && Last(IdOf, [live]) == map[[1] := live];
    MergeAssociatesIff(json, now, [gone], [live], [live]);
    var l, g := Last(IdOf, [live]), Last(IdOf, [gone]);
    var j := Join(BestBy(json), g, Join(BestBy(json), l, l));
    assert j[[1]] == gone && Expired(now, j[[1]]);
    assert !Agreeing(now, j, g, l, [1]);
  }

  // ---- any number of nodes ----------------------------------------------------------------

  /** A merge of two of the documents there are so far, at some time; its result is one more. */
  datatype Merging = Merging(into: nat, from: nat, now: int)

  /** Documents are numbered: n originals, then one for each merge. */
  ghost predicate Possible(n: nat, run: seq<Merging>) {
    forall t :: 0 <= t < |run| ==> run[t].into < n + t && run[t].from < n + t
  }

  ghost function Document(json: Rec -> Bytes, originals: seq<seq<Rec>>, run: seq<Merging>, d: nat): seq<Rec>
    requires Possible(|originals|, run) && d < |originals| + |run|
    decreases d
  {
    if d < |originals| then originals[d]
    else
      var m := run[d - |originals|];
      Merged(json, m.now, Document(json, originals, run, m.into), Document(json, originals, run, m.from))
  }

  /** The originals that have found their way into a document. */
  ghost function Absorbed(n: nat, run: seq<Merging>, d: nat): set<nat>
    requires Possible(n, run) && d < n + |run|
    decreases d
  {
    if d < n then {d}
    else Absorbed(n, run, run[d - n].into) + Absorbed(n, run, run[d - n].from)
  }

  ghost predicate Originals(originals: seq<seq<Rec>>, run: seq<Merging>) {
    && Possible(|originals|, run)
    && (forall o :: o in originals ==> DistinctIds(IdOf, o))
    && forall o, m :: o in originals && m in run ==> NoneExpired(m.now, Last(IdOf, o))
  }

  /** One of these originals has x for the id. */
  ghost predicate HeldBy(originals: seq<seq<Rec>>, these: set<nat>, k: Bytes, x: Rec) {
    exists i :: i in these && i < |originals| && Entry(Last(IdOf, originals[i]), k) == Some(x)
  }

  /** Exactly the ids of these originals, each at the record no other of them wins over. */
  ghost predicate BestOfAll(json: Rec -> Bytes, originals: seq<seq<Rec>>, these: set<nat>, d: Recs) {
    && (forall k :: k in d ==> HeldBy(originals, these, k, d[k]))
    && (forall k, x :: HeldBy(originals, these, k, x) ==> k in d && !Wins(json, x, d[k]))
  }

  lemma BestOfAllUnique(json: Rec -> Bytes, originals: seq<seq<Rec>>, these: set<nat>, d: Recs, e: Recs)
    requires Injective(json) && BestOfAll(json, originals, these, d) && BestOfAll(json, originals, these, e)
    ensures d == e
  {
    forall k | k in d ensures k in e && d[k] == e[k] {
      WinsTotal(json, d[k], e[k]);
    }
  }

  lemma HeldByEither(originals: seq<seq<Rec>>, s: set<nat>, t: set<nat>, k: Bytes, x: Rec)
    ensures HeldBy(originals, s + t, k, x) <==> HeldBy(originals, s, k, x) || HeldBy(originals, t, k, x)
  {
  }

  /** Nothing either side holds wins over the join. */
  lemma BestOfBothAt(json: Rec -> Bytes, originals: seq<seq<Rec>>, s: set<nat>, d: Recs, e: Recs, k: Bytes, x: Rec)
    requires Injective(json) && BestOfAll(json, originals, s, d) && HeldBy(originals, s, k, x)
    ensures k in d && !Wins(json, x, Join(BestBy(json), d, e)[k]) && !Wins(json, x, Join(BestBy(json), e, d)[k])
  {
    JoinKeepsGreatest(json, d, e, k);
    JoinKeepsGreatest(json, e, d, k);
    NotBeyond(json, x, d[k], Join(BestBy(json), d, e)[k]);
    NotBeyond(json, x, d[k], Join(BestBy(json), e, d)[k]);
  }

  lemma BestOfBoth(json: Rec -> Bytes, originals: seq<seq<Rec>>, s: set<nat>, t: set<nat>, d: Recs, e: Recs)
    requires Injective(json) && BestOfAll(json, originals, s, d) && BestOfAll(json, originals, t, e)
    ensures BestOfAll(json, originals, s + t, Join(BestBy(json), d, e))
  {
    var j := Join(BestBy(json), d, e);
    forall k | k in j ensures HeldBy(originals, s + t, k, j[k]) {
      HeldByEither(originals, s, t, k, j[k]);
      JoinKeepsGreatest(json, d, e, k);
    }
    forall k, x | HeldBy(originals, s + t, k, x) ensures k in j && !Wins(json, x, j[k]) {
      HeldByEither(originals, s, t, k, x);
      if HeldBy(originals, s, k, x) {
        BestOfBothAt(json, originals, s, d, e, k, x);
      } else {
        BestOfBothAt(json, originals, t, e, d, k, x);
      }
    }
  }

  lemma NotBeyond(json: Rec -> Bytes, x: Rec, y: Rec, z: Rec)
    requires Injective(json)
    ensures !Wins(json, x, y) && !Wins(json, y, z) ==> !Wins(json, x, z)
  {
    WinsTotal(json, x, y);
    WinsTotal(json, y, z);
    WinsTotal(json, x, z);
    if Wins(json, z, y) && Wins(json, y, x) {
      WinsTransitive(json, z, y, x);
    }
  }

  /** Every document, however it came about, holds the best of the originals it absorbed. */
  lemma {:induction false} DocumentIsBest(json: Rec -> Bytes, originals: seq<seq<Rec>>, run: seq<Merging>, d: nat)
    requires Injective(json) && Originals(originals, run) && d < |originals| + |run|
    ensures DistinctIds(IdOf, Document(json, originals, run, d))
    ensures BestOfAll(json, originals, Absorbed(|originals|, run, d), Last(IdOf, Document(json, originals, run, d)))
    decreases d
  {
    if d < |originals| {
      OriginalIsBest(json, originals, d);
    } else {
      var m := run[d - |originals|];
      var a, b := Document(json, originals, run, m.into), Document(json, originals, run, m.from);
      var s, t := Absorbed(|originals|, run, m.into), Absorbed(|originals|, run, m.from);
      DocumentIsBest(json, originals, run, m.into);
      DocumentIsBest(json, originals, run, m.from);
      BestNotExpired(json, originals, run, m, s, Last(IdOf, a));
      BestNotExpired(json, originals, run, m, t, Last(IdOf, b));
      MergedLast(json, m.now, a, b);
      MergedIsJoin(json, m.now, a, b);
      JoinNoneExpired(json, m.now, Last(IdOf, a), Last(IdOf, b));
      BestOfBoth(json, originals, s, t, Last(IdOf, a), Last(IdOf, b));
    }
  }

  /** In the records' own fields: over any run of merges a document holds, of every id of the
      originals it absorbed, one of their records that none of the others is ahead of. */
  lemma DocumentIsNewest(json: Rec -> Bytes, originals: seq<seq<Rec>>, run: seq<Merging>, d: nat, i: nat, k: Bytes)
    requires Injective(json) && Originals(originals, run) && d < |originals| + |run|
    requires i in Absorbed(|originals|, run, d) && i < |originals| && k in Last(IdOf, originals[i])
    ensures var m := Last(IdOf, Document(json, originals, run, d));
      && k in m && NotAhead(json, Last(IdOf, originals[i])[k], m[k])
      && HeldBy(originals, Absorbed(|originals|, run, d), k, m[k])
  {
    DocumentIsBest(json, originals, run, d);
    var m, x := Last(IdOf, Document(json, originals, run, d)), Last(IdOf, originals[i])[k];
    assert Entry(Last(IdOf, originals[i]), k) == Some(x);
    assert HeldBy(originals, Absorbed(|originals|, run, d), k, x);
    WinsIff(json, x, m[k]);
  }

  lemma OriginalIsBest(json: Rec -> Bytes, originals: seq<seq<Rec>>, i: nat)
    requires Injective(json) && i < |originals|
    ensures BestOfAll(json, originals, {i}, Last(IdOf, originals[i]))
  {
    var d := Last(IdOf, originals[i]);
    forall k, x ensures HeldBy(originals, {i}, k, x) <==> k in d && d[k] == x {
      if k in d && d[k] == x {
        assert i in {i} && Entry(Last(IdOf, originals[i]), k) == Some(x);
      }
    }
    forall x: Rec ensures !Wins(json, x, x) {
      WinsTotal(json, x, x);
    }
  }

  lemma BestNotExpired(json: Rec -> Bytes, originals: seq<seq<Rec>>, run: seq<Merging>, m: Merging, s: set<nat>,
      d: Recs)
    requires Originals(originals, run) && m in run && BestOfAll(json, originals, s, d)
    ensures NoneExpired(m.now, d)
  {
    forall k | k in d ensures !Expired(m.now, d[k]) {
      var i :| i in s && i < |originals| && Entry(Last(IdOf, originals[i]), k) == Some(d[k]);
      assert originals[i] in originals;
    }
  }

  /** Nodes that merge each other's documents, merged before or not, in whatever order and
      however often: two documents that have absorbed the same originals hold the same records,
      and where both are merged they are the identical list. */
  lemma NodesAgree(json: Rec -> Bytes, originals: seq<seq<Rec>>, run: seq<Merging>, d: nat, e: nat)
    requires Injective(json) && Originals(originals, run)
    requires d < |originals| + |run| && e < |originals| + |run|
    requires Absorbed(|originals|, run, d) == Absorbed(|originals|, run, e)
    ensures var x, y := Document(json, originals, run, d), Document(json, originals, run, e);
      Last(IdOf, x) == Last(IdOf, y) && (d >= |originals| && e >= |originals| ==> x == y)
  {
    var x, y := Document(json, originals, run, d), Document(json, originals, run, e);
    DocumentIsBest(json, originals, run, d);
    DocumentIsBest(json, originals, run, e);
    BestOfAllUnique(json, originals, Absorbed(|originals|, run, d), Last(IdOf, x), Last(IdOf, y));
    if d >= |originals| && e >= |originals| {
      DocumentListed(json, originals, run, d);
      DocumentListed(json, originals, run, e);
      ListingUnique(ByCreated, x, y);
    }
  }

  /** A merged document is its own listing. */
  lemma DocumentListed(json: Rec -> Bytes, originals: seq<seq<Rec>>, run: seq<Merging>, d: nat)
    requires Possible(|originals|, run) && |originals| <= d < |originals| + |run|
    ensures var x := Document(json, originals, run, d); IsListing(ByCreated, x, Last(IdOf, x))
  {
    var m := run[d - |originals|];
    MergedLast(json, m.now, Document(json, originals, run, m.into), Document(json, originals, run, m.from));
  }
}
