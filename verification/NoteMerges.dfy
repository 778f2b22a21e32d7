/** When the order in which three nodes merge their notes does not matter: what each merge
    returns has lost its old tombstones and the places of the others
    (internal/peer/merge.go, mergeNotes). */
module NoteMerges {
  import opened Base
  import opened Listings
  import opened Unions
  import opened Notes
  import opened NoteJson
  import opened NoteGroups

  // ---- one id -----------------------------------------------------------------------------------

  /** What is left of a note at the end of a merge. */
  function Kept(now: int, x: Option<Note>): Option<Note> {
    if x.None? || Expired(now, x.value) then None else Some(Scrub(x.value))
  }

  function UnitedEntry(x: Option<Note>, y: Option<Note>): Option<Note> {
    if x.None? then y else if y.None? then x else Some(United(x.value, y.value))
  }

  /** What two documents merged at now hold for an id. */
  function MergedEntry(now: int, x: Option<Note>, y: Option<Note>): Option<Note> {
    Kept(now, UnitedEntry(x, y))
  }

  /** The one whose words win. */
  function Better(x: Option<Note>, y: Option<Note>): Option<Note> {
    if x.None? then y else if y.None? then x else if Outdoes(y.value, x.value) then y else x
  }

  predicate Dead(x: Option<Note>) {
    x.Some? && x.value.words.deleted != 0
  }

  predicate Alive(x: Option<Note>) {
    x.Some? && x.value.words.deleted == 0
  }

  predicate OneId(x: Option<Note>, y: Option<Note>) {
    x.Some? && y.Some? ==> x.value.id == y.value.id
  }

  /** x is there, and y does not win over it. */
  predicate Tops(x: Option<Note>, y: Option<Note>) {
    x.Some? && (y.Some? ==> !Outdoes(y.value, x.value))
  }

  function LaterOf(d: Desk, n: Option<Note>): Desk {
    if n.None? then d else LaterDesk(d, n.value.desk)
  }

  // ---- the exact condition ------------------------------------------------------------------------

  /** A live note over a tombstone p that won over the other: merged with p after p lost its
      place, it ends with the place it does when it meets the other two as they are. */
  predicate PlaceStays(now: int, p: Note, live: Note, y: Option<Note>, x: Option<Note>) {
    LaterOf(LaterOf(live.desk, y), x) == if Expired(now, p) then live.desk else LaterDesk(live.desk, Off)
  }

  /** Where the best is live: a place is lost together with a tombstone that a merge scrubbed or
      dropped, or two places with one stamp meet. */
  predicate AliveAgrees(now: int, x: Option<Note>, y: Option<Note>, z: Option<Note>) {
    var p, q := Better(x, y), Better(y, z);
    if Dead(p) then z.Some? && PlaceStays(now, p.value, z.value, y, x)
    else if Dead(q) then x.Some? && PlaceStays(now, q.value, x.value, y, z)
    else x.Some? && y.Some? && z.Some? ==> !DesksBreak(x.value, y.value, z.value)
  }

  /** A tombstone that would lose to m with its place behind it, and wins without it. */
  function Revived(now: int, w: Option<Note>, m: Note): Option<Note> {
    if w.Some? && !Expired(now, w.value) && RunsOn(w.value.words, m.words) then Some(Scrub(w.value)) else None
  }

  /** Where the best is a tombstone: past its time it is dropped in the first merge of the one
      grouping and in the last of the other, and a tombstone whose stamp runs on in its may win
      once it is scrubbed. */
  predicate DeadAgrees(now: int, x: Option<Note>, y: Option<Note>, z: Option<Note>) {
    if Tops(x, y) && Tops(x, z) then
      Revived(now, Better(y, z), x.value) == if Expired(now, x.value) then Kept(now, z) else None
    else if Tops(z, x) && Tops(z, y) then
      Revived(now, Better(x, y), z.value) == if Expired(now, z.value) then Kept(now, x) else None
    else
      y.Some? && Expired(now, y.value) ==> Kept(now, x) == Kept(now, z)
  }

  predicate Agrees(now: int, x: Option<Note>, y: Option<Note>, z: Option<Note>) {
    var m := Better(Better(x, y), z);
    if Alive(m) then AliveAgrees(now, x, y, z) else DeadAgrees(now, x, y, z)
  }

  // ---- both sides of one merge ----------------------------------------------------------------------

  lemma UnitedWords(x: Option<Note>, y: Option<Note>)
    requires OneId(x, y)
    ensures var u, p := UnitedEntry(x, y), Better(x, y);
      && (u.Some? <==> p.Some?)
      && (u.Some? ==> u.value.id == p.value.id && u.value.words == p.value.words)
    ensures UnitedEntry(x, y) == UnitedEntry(y, x)
  {
    if x.Some? && y.Some? {
      UniteApart(x.value, y.value);
    }
  }

  /** A scrubbed or dropped tombstone against a third. */
  lemma AfterDead(now: int, p: Note, z: Option<Note>)
    requires p.words.deleted != 0 && (z.Some? ==> z.value.id == p.id)
    ensures MergedEntry(now, Kept(now, Some(p)), z) ==
      if Expired(now, p) then Kept(now, z)
      else if z.Some? && Beats(p.id, HeadOf(z.value), Head(p.words, true)) then
        Kept(now, Some(z.value.(desk := LaterDesk(z.value.desk, Off))))
      else Some(Scrub(p))
  {
    if z.Some? && !Expired(now, p) {
      var s := Scrub(p);
      assert HeadOf(s) == Head(p.words, true);
      UniteApart(s, z.value);
      DesksApart(s, z.value);
      WinsTotal(s, z.value);
      if s.words != z.value.words {
        WinsByHead(z.value, s);
      }
    }
  }

  /** Merging a first pair whose better one is a tombstone leaves that, scrubbed or dropped. */
  lemma FirstDead(now: int, x: Option<Note>, y: Option<Note>)
    requires OneId(x, y) && !Alive(Better(x, y))
    ensures MergedEntry(now, x, y) == Kept(now, Better(x, y))
  {
    UnitedWords(x, y);
  }

  lemma FirstAlive(now: int, x: Option<Note>, y: Option<Note>)
    requires OneId(x, y) && Alive(Better(x, y))
    ensures MergedEntry(now, x, y) == UnitedEntry(x, y) && Alive(UnitedEntry(x, y))
  {
    UnitedWords(x, y);
  }

  /** Whether the better of two is live is decided before their bytes are. */
  lemma BetterLife(x: Option<Note>, y: Option<Note>, u: Note)
    requires OneId(x, y) && x.Some? && y.Some? && u.id == x.value.id && u.words == x.value.words
    requires (x.value.words.deleted != 0) != (y.value.words.deleted != 0)
    ensures Outdoes(y.value, u) == Outdoes(y.value, x.value)
  {
  }

  /** The best of three is live: what merging z last leaves. */
  lemma LastAlive(now: int, x: Option<Note>, y: Option<Note>, z: Option<Note>)
    requires OneId(x, y) && OneId(y, z) && OneId(x, z) && Alive(Better(Better(x, y), z))
    ensures var p := Better(x, y);
      if Dead(p) then
        && Alive(z)
        && MergedEntry(now, MergedEntry(now, x, y), z)
          == Some(z.value.(desk := if Expired(now, p.value) then z.value.desk else LaterDesk(z.value.desk, Off)))
      else MergedEntry(now, MergedEntry(now, x, y), z) == UnitedEntry(UnitedEntry(x, y), z)
  {
    var p, u := Better(x, y), UnitedEntry(x, y);
    UnitedWords(x, y);
    if Alive(p) {
      FirstAlive(now, x, y);
      UnitedWords(u, z);
      if z.Some? && z.value.words.deleted != 0 {
        BetterLife(p, z, u.value);
      }
    } else {
      FirstDead(now, x, y);
      if Dead(p) {
        AfterDead(now, p.value, z);
        BetterLife(p, z, Scrub(p.value));
      }
    }
  }

  /** The best of three is a tombstone: what merging z last leaves. */
  lemma LastDead(now: int, x: Option<Note>, y: Option<Note>, z: Option<Note>)
    requires OneId(x, y) && OneId(y, z) && OneId(x, z) && !Alive(Better(Better(x, y), z))
    ensures var p := Better(x, y);
      MergedEntry(now, MergedEntry(now, x, y), z) ==
      if Dead(p) && !Expired(now, p.value)
         && !(z.Some? && Beats(z.value.id, HeadOf(z.value), Head(p.value.words, true)))
      then Some(Scrub(p.value)) else Kept(now, z)
  {
    var p, u := Better(x, y), UnitedEntry(x, y);
    UnitedWords(x, y);
    if Alive(p) {
      FirstAlive(now, x, y);
      BetterLife(p, z, u.value);
      UnitedWords(u, z);
    } else {
      FirstDead(now, x, y);
      if Dead(p) {
        AfterDead(now, p.value, z);
        if Alive(z) {
          BetterLife(p, z, Scrub(p.value));
        }
      }
    }
  }

  // ---- both groupings -----------------------------------------------------------------------------

  lemma MirroredEntry(now: int, x: Option<Note>, y: Option<Note>, z: Option<Note>)
    requires OneId(x, y) && OneId(y, z) && OneId(x, z)
    ensures MergedEntry(now, x, MergedEntry(now, y, z)) == MergedEntry(now, MergedEntry(now, z, y), x)
    ensures UnitedEntry(x, UnitedEntry(y, z)) == UnitedEntry(UnitedEntry(z, y), x)
  {
    UnitedWords(y, z);
    UnitedWords(x, MergedEntry(now, y, z));
    UnitedWords(x, UnitedEntry(y, z));
  }

  lemma BetterEither(x: Option<Note>, y: Option<Note>)
    requires OneId(x, y)
    ensures var p, q := Better(x, y), Better(y, x);
      && p.Some? == q.Some?
      && (p.Some? ==> p.value.id == q.value.id && p.value.words == q.value.words)
  {
    if x.Some? && y.Some? {
      OutdoesTotal(x.value, y.value);
    }
  }

  lemma BestTops(x: Option<Note>, y: Option<Note>, z: Option<Note>)
    requires OneId(x, y) && OneId(y, z) && OneId(x, z)
    ensures var m := Better(Better(x, y), z);
      && (m == x || m == y || m == z)
      && (x.Some? || y.Some? || z.Some? ==> Tops(m, x) && Tops(m, y) && Tops(m, z))
  {
    if x.Some? && y.Some? { BeatsTotal(x.value.id, HeadOf(x.value), HeadOf(y.value)); }
    if x.Some? && z.Some? { BeatsTotal(x.value.id, HeadOf(x.value), HeadOf(z.value)); }
    if y.Some? && z.Some? { BeatsTotal(y.value.id, HeadOf(y.value), HeadOf(z.value)); }
    if x.Some? && y.Some? && z.Some? {
      var id, f, g, h := x.value.id, HeadOf(x.value), HeadOf(y.value), HeadOf(z.value);
      BeatsTransitive(id, h, f, g);
      BeatsTransitive(id, h, g, f);
    }
    if x.Some? { BeatsTotal(x.value.id, HeadOf(x.value), HeadOf(x.value)); }
    if y.Some? { BeatsTotal(y.value.id, HeadOf(y.value), HeadOf(y.value)); }
    if z.Some? { BeatsTotal(z.value.id, HeadOf(z.value), HeadOf(z.value)); }
  }

  /** The best of three from the other side has the same words. */
  lemma BestEither(x: Option<Note>, y: Option<Note>, z: Option<Note>)
    requires OneId(x, y) && OneId(y, z) && OneId(x, z)
    ensures var m, n := Better(Better(x, y), z), Better(Better(z, y), x);
      && m.Some? == n.Some?
      && (m.Some? ==> m.value.words == n.value.words)
  {
    BestTops(x, y, z);
    BestTops(z, y, x);
    var m, n := Better(Better(x, y), z), Better(Better(z, y), x);
    if m.Some? && n.Some? {
      OutdoesTotal(m.value, n.value);
    }
  }

  /** The newest note ends with the place stamped last. */
  lemma NewestPlaces(m: Note, y: Option<Note>, x: Option<Note>)
    requires y.Some? ==> y.value.id == m.id && y.value.words.updated < m.words.updated
    requires x.Some? ==> x.value.id == m.id && x.value.words.updated < m.words.updated
    ensures UnitedEntry(UnitedEntry(Some(m), y), x) == Some(m.(desk := LaterOf(LaterOf(m.desk, y), x)))
  {
  }

  lemma DeadBetter(x: Option<Note>, y: Option<Note>, z: Option<Note>)
    requires Dead(Better(x, y)) && Alive(Better(Better(x, y), z))
    ensures Alive(z)
    ensures x.Some? ==> x.value.words.updated < z.value.words.updated
    ensures y.Some? ==> y.value.words.updated < z.value.words.updated
    ensures OneId(y, z) ==> Better(y, z) == z
  {
  }

  lemma AliveFirst(now: int, x: Option<Note>, y: Option<Note>, z: Option<Note>)
    requires OneId(x, y) && OneId(y, z) && OneId(x, z) && Alive(Better(Better(x, y), z)) && Dead(Better(x, y))
    ensures z.Some?
    ensures MergedEntry(now, MergedEntry(now, x, y), z) == MergedEntry(now, x, MergedEntry(now, y, z))
      <==> PlaceStays(now, Better(x, y).value, z.value, y, x)
  {
    DeadBetter(x, y, z);
    LastAlive(now, x, y, z);
    BestEither(x, y, z);
    BetterEither(y, z);
    LastAlive(now, z, y, x);
    MirroredEntry(now, x, y, z);
    NewestPlaces(z.value, y, x);
  }

  /** With a live best no stamps run on. */
  lemma LiveUnbroken(x: Note, y: Note, z: Note)
    requires x.id == y.id == z.id && Alive(Better(Better(Some(x), Some(y)), Some(z)))
    requires Alive(Better(Some(x), Some(y))) && Alive(Better(Some(y), Some(z)))
    ensures !WordsBreak(x, y, z)
  {
    BestTops(Some(x), Some(y), Some(z));
  }

  lemma AliveThroughout(now: int, x: Option<Note>, y: Option<Note>, z: Option<Note>)
    requires OneId(x, y) && OneId(y, z) && OneId(x, z) && Alive(Better(Better(x, y), z))
    requires !Dead(Better(x, y)) && !Dead(Better(y, z))
    ensures MergedEntry(now, MergedEntry(now, x, y), z) == MergedEntry(now, x, MergedEntry(now, y, z))
      <==> (x.Some? && y.Some? && z.Some? ==> !DesksBreak(x.value, y.value, z.value))
  {
    LastAlive(now, x, y, z);
    BestEither(x, y, z);
    BetterEither(y, z);
    LastAlive(now, z, y, x);
    MirroredEntry(now, x, y, z);
    if x.Some? && y.Some? && z.Some? {
      LiveUnbroken(x.value, y.value, z.value);
      UniteAssociatesIff(x.value, y.value, z.value);
    }
  }

  /** The best is a tombstone and merged first: it stays, scrubbed, or leaves the last alone. */
  lemma BestFirst(now: int, m: Option<Note>, i: Option<Note>, o: Option<Note>)
    requires OneId(m, i) && OneId(i, o) && OneId(m, o) && Dead(m) && Tops(m, i) && Tops(m, o)
    ensures MergedEntry(now, MergedEntry(now, m, i), o)
      == if Expired(now, m.value) then Kept(now, o) else Some(Scrub(m.value))
  {
    LastDead(now, m, i, o);
    if o.Some? { NotBeyond(o.value, m.value); }
  }

  /** Merged last, it meets the better of the others scrubbed. */
  lemma BestLast(now: int, m: Option<Note>, i: Option<Note>, o: Option<Note>)
    requires OneId(m, i) && OneId(i, o) && OneId(m, o) && Dead(m) && Tops(m, i) && Tops(m, o)
    ensures var q := Better(i, o);
      MergedEntry(now, MergedEntry(now, i, o), m)
      == if Revived(now, q, m.value).Some? then Revived(now, q, m.value) else Kept(now, m)
  {
    var q := Better(i, o);
    BestEither(m, o, i);
    BetterEither(i, o);
    LastDead(now, i, o, m);
    if q.Some? { Withstands(q.value, m.value); }
  }

  /** x is best, a tombstone. */
  lemma DeadFirst(now: int, x: Option<Note>, y: Option<Note>, z: Option<Note>)
    requires OneId(x, y) && OneId(y, z) && OneId(x, z) && Dead(x) && Tops(x, y) && Tops(x, z)
    ensures MergedEntry(now, MergedEntry(now, x, y), z) == MergedEntry(now, x, MergedEntry(now, y, z))
      <==> Revived(now, Better(y, z), x.value) == if Expired(now, x.value) then Kept(now, z) else None
  {
    BestFirst(now, x, y, z);
    BestLast(now, x, y, z);
    UnitedWords(y, z);
    UnitedWords(x, MergedEntry(now, y, z));
  }

  /** z is. */
  lemma DeadLast(now: int, x: Option<Note>, y: Option<Note>, z: Option<Note>)
    requires OneId(x, y) && OneId(y, z) && OneId(x, z) && Dead(z) && Tops(z, x) && Tops(z, y)
    ensures MergedEntry(now, MergedEntry(now, x, y), z) == MergedEntry(now, x, MergedEntry(now, y, z))
      <==> Revived(now, Better(x, y), z.value) == if Expired(now, z.value) then Kept(now, x) else None
  {
    DeadFirst(now, z, y, x);
    BetterEither(x, y);
    MirroredEntry(now, x, y, z);
    MirroredEntry(now, z, y, x);
  }

  /** y is. */
  lemma DeadMiddle(now: int, x: Option<Note>, y: Option<Note>, z: Option<Note>)
    requires OneId(x, y) && OneId(y, z) && OneId(x, z) && Dead(y) && Tops(y, x) && Tops(y, z)
    ensures MergedEntry(now, MergedEntry(now, x, y), z) == MergedEntry(now, x, MergedEntry(now, y, z))
      <==> (Expired(now, y.value) ==> Kept(now, x) == Kept(now, z))
  {
    BestFirst(now, y, x, z);
    BestFirst(now, y, z, x);
    UnitedWords(x, y);
    MirroredEntry(now, x, y, z);
    UnitedWords(y, z);
  }

  /** What does not win over a note does not win over its words scrubbed, and the other way round
      leaves the same where neither wins. */
  lemma NotBeyond(z: Note, x: Note)
    requires z.id == x.id && !Outdoes(z, x)
    ensures !Beats(x.id, HeadOf(z), Head(x.words, true))
  {
    BareBeats(x.id, x.words);
    BeatsTotal(x.id, Head(x.words, true), HeadOf(x));
    BeatsTotal(x.id, HeadOf(z), HeadOf(x));
    BeatsTotal(x.id, HeadOf(z), Head(x.words, true));
    BeatsTransitive(x.id, HeadOf(z), Head(x.words, true), HeadOf(x));
  }

  /** A note that does not win over x: scrubbed it withstands x only where its stamp runs on in
      x's, or where the words are the same. */
  lemma Withstands(q: Note, x: Note)
    requires q.id == x.id && !Outdoes(q, x)
    ensures q.words != x.words ==>
      (Beats(x.id, HeadOf(x), Head(q.words, true)) <==> !RunsOn(q.words, x.words))
  {
    if q.words != x.words {
      Stands(x.id, q.words, HeadOf(x));
      OutdoesTotal(x, q);
    }
  }

  /** For one id the two groupings agree exactly then. */
  lemma GroupingOfOne(now: int, x: Option<Note>, y: Option<Note>, z: Option<Note>)
    requires OneId(x, y) && OneId(y, z) && OneId(x, z)
    ensures MergedEntry(now, MergedEntry(now, x, y), z) == MergedEntry(now, x, MergedEntry(now, y, z))
      <==> Agrees(now, x, y, z)
  {
    var m := Better(Better(x, y), z);
    if Alive(m) {
      AliveGrouping(now, x, y, z);
    } else {
      BestTops(x, y, z);
      if Tops(x, y) && Tops(x, z) {
        SameTop(x, m);
        DeadFirst(now, x, y, z);
      } else if Tops(z, x) && Tops(z, y) {
        SameTop(z, m);
        DeadLast(now, x, y, z);
      } else if y.Some? {
        DeadMiddle(now, x, y, z);
      }
    }
  }

  lemma AliveGrouping(now: int, x: Option<Note>, y: Option<Note>, z: Option<Note>)
    requires OneId(x, y) && OneId(y, z) && OneId(x, z) && Alive(Better(Better(x, y), z))
    ensures MergedEntry(now, MergedEntry(now, x, y), z) == MergedEntry(now, x, MergedEntry(now, y, z))
      <==> AliveAgrees(now, x, y, z)
  {
    if Dead(Better(x, y)) {
      AliveFirst(now, x, y, z);
    } else if Dead(Better(y, z)) {
      BestEither(x, y, z);
      BetterEither(y, z);
      AliveFirst(now, z, y, x);
      MirroredEntry(now, x, y, z);
      MirroredEntry(now, z, y, x);
    } else {
      AliveThroughout(now, x, y, z);
    }
  }

  lemma SameTop(x: Option<Note>, m: Option<Note>)
    requires x.Some? && m.Some? && OneId(x, m) && Tops(x, m) && Tops(m, x)
    ensures x.value.words == m.value.words
  {
    OutdoesTotal(x.value, m.value);
  }

  // ---- whole lists ----------------------------------------------------------------------------------

  function Entry(items: seq<Note>, k: Bytes): Option<Note> {
    var d := Last(IdOf, items);
    if k in d then Some(d[k]) else None
  }

  ghost function MergedNotes(now: int, a: seq<Note>, b: seq<Note>): seq<Note> {
    Merged(Marshal, now, a, b)
  }

  /** What merging gives is again a list with distinct ids, the listing of the merged document. */
  lemma MergedLast(now: int, a: seq<Note>, b: seq<Note>)
    ensures var m := MergedNotes(now, a, b);
      && DistinctIds(IdOf, m) && Last(IdOf, m) == MergedDoc(Marshal, now, a, b)
      && IsListing(ByEdited, m, Last(IdOf, m))
  {
    MergedKeyed(Marshal, now, a, b);
    LastOfListing(ByEdited, MergedNotes(now, a, b), MergedDoc(Marshal, now, a, b));
  }

  /** What merging two lists holds for an id. */
  lemma EntryOfMerged(now: int, a: seq<Note>, b: seq<Note>, k: Bytes)
    requires DistinctIds(IdOf, a) && DistinctIds(IdOf, b)
    ensures Entry(MergedNotes(now, a, b), k) == MergedEntry(now, Entry(a, k), Entry(b, k))
  {
    MergedLast(now, a, b);
    OverDistinct(UniteBy(Marshal), IdOf, Last(IdOf, a), b);
  }

  predicate SameAt(a: seq<Note>, b: seq<Note>, k: Bytes) {
    Entry(a, k) == Entry(b, k)
  }

  /** Merged lists are the same list exactly when they hold the same for every id. */
  lemma SameEntriesSameList(now: int, a: seq<Note>, b: seq<Note>, c: seq<Note>, d: seq<Note>)
    ensures var m, n := MergedNotes(now, a, b), MergedNotes(now, c, d); m == n <==> forall k :: SameAt(m, n, k)
  {
    var m, n := MergedNotes(now, a, b), MergedNotes(now, c, d);
    MergedLast(now, a, b);
    MergedLast(now, c, d);
    if forall k :: SameAt(m, n, k) {
      SameDocument(m, n);
      ListingUnique(ByEdited, m, n);
    }
  }

  lemma SameDocument(m: seq<Note>, n: seq<Note>)
    requires forall k :: SameAt(m, n, k)
    ensures Last(IdOf, m) == Last(IdOf, n)
  {
    var p, q := Last(IdOf, m), Last(IdOf, n);
    forall k ensures k in p <==> k in q {
      assert SameAt(m, n, k);
    }
    forall k | k in p ensures p[k] == q[k] {
      assert SameAt(m, n, k);
    }
  }

  lemma EntryId(a: seq<Note>, k: Bytes)
    ensures Entry(a, k).Some? ==> Entry(a, k).value.id == k
  {
  }

  lemma GroupingsAt(now: int, a: seq<Note>, b: seq<Note>, c: seq<Note>, k: Bytes)
    requires DistinctIds(IdOf, a) && DistinctIds(IdOf, b) && DistinctIds(IdOf, c)
    ensures SameAt(MergedNotes(now, MergedNotes(now, a, b), c), MergedNotes(now, a, MergedNotes(now, b, c)), k)
      <==> Agrees(now, Entry(a, k), Entry(b, k), Entry(c, k))
  {
    MergedLast(now, a, b);
    MergedLast(now, b, c);
    EntryOfMerged(now, a, b, k);
    EntryOfMerged(now, MergedNotes(now, a, b), c, k);
    EntryOfMerged(now, b, c, k);
    EntryOfMerged(now, a, MergedNotes(now, b, c), k);
    EntryId(a, k);
    EntryId(b, k);
    EntryId(c, k);
    GroupingOfOne(now, Entry(a, k), Entry(b, k), Entry(c, k));
  }

  /** The order three nodes merge their notes in does not matter exactly when for every id what
      the three copies hold agrees. */
  lemma MergeAssociatesIff(now: int, a: seq<Note>, b: seq<Note>, c: seq<Note>)
    requires DistinctIds(IdOf, a) && DistinctIds(IdOf, b) && DistinctIds(IdOf, c)
    ensures MergedNotes(now, MergedNotes(now, a, b), c) == MergedNotes(now, a, MergedNotes(now, b, c))
      <==> forall k :: Agrees(now, Entry(a, k), Entry(b, k), Entry(c, k))
  {
    var ab, bc := MergedNotes(now, a, b), MergedNotes(now, b, c);
    SameEntriesSameList(now, ab, c, a, bc);
    if k :| !Agrees(now, Entry(a, k), Entry(b, k), Entry(c, k)) {
      GroupingsAt(now, a, b, c, k);
    } else {
      forall k ensures SameAt(MergedNotes(now, ab, c), MergedNotes(now, a, bc), k) {
        GroupingsAt(now, a, b, c, k);
      }
    }
  }

  ghost predicate AllLive(d: Doc<Note>) {
    forall k :: k in d ==> d[k].words.deleted == 0
  }

  ghost predicate AllSamePlacing(a: Doc<Note>, b: Doc<Note>) {
    forall k :: k in a && k in b ==> SamePlacing(a[k], b[k])
  }

  /** In particular where nothing is deleted and equal `placed` stamps mean equal places. */
  lemma MergeAssociates(now: int, a: seq<Note>, b: seq<Note>, c: seq<Note>)
    requires DistinctIds(IdOf, a) && DistinctIds(IdOf, b) && DistinctIds(IdOf, c)
    requires var x, y, z := Last(IdOf, a), Last(IdOf, b), Last(IdOf, c);
      AllLive(x) && AllLive(y) && AllLive(z) && AllSamePlacing(x, y) && AllSamePlacing(y, z) && AllSamePlacing(x, z)
    ensures MergedNotes(now, MergedNotes(now, a, b), c) == MergedNotes(now, a, MergedNotes(now, b, c))
  {
    forall k ensures Agrees(now, Entry(a, k), Entry(b, k), Entry(c, k)) {
      LiveAgrees(now, Entry(a, k), Entry(b, k), Entry(c, k));
    }
    MergeAssociatesIff(now, a, b, c);
  }

  lemma LiveAgrees(now: int, x: Option<Note>, y: Option<Note>, z: Option<Note>)
    requires !Dead(x) && !Dead(y) && !Dead(z)
    requires x.Some? && y.Some? ==> SamePlacing(x.value, y.value)
    requires y.Some? && z.Some? ==> SamePlacing(y.value, z.value)
    requires x.Some? && z.Some? ==> SamePlacing(x.value, z.value)
    ensures Agrees(now, x, y, z)
  {
    if x.Some? && y.Some? && z.Some? {
      PlacedUnbroken(x.value, y.value, z.value);
    }
  }

  /** An instance where it matters: a deletion, an older copy with the latest place and a newer
      copy. Merged with the deletion first, the older copy's place is scrubbed with it. */
  lemma PlaceLost(now: int, id: Bytes, w: Words, p: Place, q: Place)
    requires w.deleted == 0
    ensures var gone := Note(id, w.(updated := 2, deleted := 2), Off);
      var earlier := Note(id, w.(updated := 1), Desk(Some(p), 5));
      var later := Note(id, w.(updated := 3), Desk(Some(q), 3));
      MergedNotes(now, MergedNotes(now, [gone], [earlier]), [later])
        != MergedNotes(now, [gone], MergedNotes(now, [earlier], [later]))
  {
    var gone := Note(id, w.(updated := 2, deleted := 2), Off);
    var earlier := Note(id, w.(updated := 1), Desk(Some(p), 5));
    var later := Note(id, w.(updated := 3), Desk(Some(q), 3));
    EntryOfOne(gone);
    EntryOfOne(earlier);
    EntryOfOne(later);
    MergeAssociatesIff(now, [gone], [earlier], [later]);
    PlaceDisagrees(now, gone, earlier, later);
  }

  lemma PlaceDisagrees(now: int, gone: Note, earlier: Note, later: Note)
    requires gone.words.deleted != 0 && earlier.words.deleted == later.words.deleted == 0
    requires earlier.words.updated < gone.words.updated < later.words.updated
    requires 0 <= later.desk.placed < earlier.desk.placed && gone.desk == Off
    ensures !Agrees(now, Some(gone), Some(earlier), Some(later))
  {
  }

  lemma EntryOfOne(n: Note)
    ensures Entry([n], n.id) == Some(n)
  {
    assert [n][..0] == [];
  }
}
