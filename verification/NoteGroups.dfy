/** When the order in which three nodes unite a note does not matter (internal/peer/merge.go). */
module NoteGroups {
  import opened Base
  import opened Listings
  import opened Unions
  import opened Decimals
  import opened Notes
  import opened NoteJson

  // ---- what decides between different words --------------------------------------------------

  /** No fields of the desk at all: behind the words comes the closing brace, not a comma. */
  const Off := Desk(None, 0)

  predicate Bare(d: Desk) {
    d == Off
  }

  /** As much of a note as decides against other words: the words, and whether they are all. */
  datatype Head = Head(words: Words, bare: bool)

  function HeadOf(n: Note): Head {
    Head(n.words, Bare(n.desk))
  }

  function HeadText(id: Bytes, h: Head): Bytes {
    WordsText(id, h.words) + [if h.bare then 125 else 44]
  }

  predicate Beats(id: Bytes, cand: Head, cur: Head) {
    if cand.words.updated != cur.words.updated then cand.words.updated > cur.words.updated
    else if (cand.words.deleted != 0) != (cur.words.deleted != 0) then cand.words.deleted != 0
    else Less(HeadText(id, cur), HeadText(id, cand))
  }

  /** Tombstones of the same words, where the one's `deleted`, as it is written, begins the
      other's (5 and 50): only there the bytes behind the words count. */
  predicate RunsOn(w: Words, v: Words) {
    && w.deleted != 0 && v.deleted != 0 && w.(deleted := 0) == v.(deleted := 0)
    && Decimal(w.deleted) < Decimal(v.deleted)
  }

  lemma HeadsApart(id: Bytes, h: Head, g: Head)
    requires (h.words.deleted != 0) == (g.words.deleted != 0) && HeadText(id, h) <= HeadText(id, g)
    ensures h.words == g.words
  {
    var w, v, x, y := h.words, g.words, [if h.bare then 125 else 44], [if g.bare then 125 else 44];
    var p, q := DeletedPart(w) + x, DeletedPart(v) + y;
    HeadEnds(id, w, x, v, y);
    DeletedStart(w, x);
    DeletedStart(v, y);
    NumberEnds(w.updated, p, v.updated, q);
    if w.deleted != 0 {
      AppendBehind(DeletedKey, Decimal(w.deleted), x);
      AppendBehind(DeletedKey, Decimal(v.deleted), y);
      SameKey(DeletedKey, Decimal(w.deleted) + x, Decimal(v.deleted) + y);
      NumberEnds(w.deleted, x, v.deleted, y);
    }
  }

  lemma DeskFirst(d: Desk)
    ensures DeskText(d) != [] && DeskText(d)[0] == if Bare(d) then 125 else 44
  {
    DeskStart(d);
  }

  lemma StartsWithHead(n: Note)
    ensures DeskText(n.desk) != [] && Marshal.Of(n) == HeadText(n.id, HeadOf(n)) + DeskText(n.desk)[1..]
  {
    var t := DeskText(n.desk);
    DeskFirst(n.desk);
    assert t == [t[0]] + t[1..];
    AppendBehind(WordsText(n.id, n.words), [t[0]], t[1..]);
  }

  /** Between different words the head decides. */
  lemma WinsByHead(x: Note, y: Note)
    requires x.id == y.id && x.words != y.words
    ensures Wins(Marshal, x, y) <==> Beats(x.id, HeadOf(x), HeadOf(y))
  {
    if (x.words.deleted != 0) == (y.words.deleted != 0) {
      var a, b := HeadText(x.id, HeadOf(x)), HeadText(x.id, HeadOf(y));
      if a <= b { HeadsApart(x.id, HeadOf(x), HeadOf(y)); }
      if b <= a { HeadsApart(x.id, HeadOf(y), HeadOf(x)); }
      StartsWithHead(x);
      StartsWithHead(y);
      LessByFront(b, a, DeskText(y.desk)[1..], DeskText(x.desk)[1..]);
    }
  }

  lemma BeatsTotal(id: Bytes, h: Head, g: Head)
    ensures !Beats(id, h, h)
    ensures h != g ==> (Beats(id, h, g) <==> !Beats(id, g, h))
  {
    var a, b := HeadText(id, h), HeadText(id, g);
    LessTotal(a, a);
    LessTotal(a, b);
    if (h.words.deleted != 0) == (g.words.deleted != 0) && a == b {
      HeadsApart(id, h, g);
      assert a[|a| - 1] == b[|b| - 1];
    }
  }

  lemma BeatsTransitive(id: Bytes, h: Head, g: Head, f: Head)
    ensures Beats(id, h, g) && Beats(id, g, f) ==> Beats(id, h, f)
  {
    var a, b, c := HeadText(id, h), HeadText(id, g), HeadText(id, f);
    if Less(c, b) && Less(b, a) {
      LessTransitive(c, b, a);
    }
  }

  /** Words with nothing behind them beat the same words with something. */
  lemma BareBeats(id: Bytes, w: Words)
    ensures Beats(id, Head(w, true), Head(w, false))
  {
    LessByBack(WordsText(id, w), [44], [125]);
  }

  /** What is between two continuations of a text continues it. */
  lemma {:induction false} Between(w: Bytes, x: Bytes, y: Bytes, t: Bytes)
    requires Less(w + x, t) && Less(t, w + y)
    ensures w <= t
    decreases |w|
  {
    if w != [] {
      var v, u := w[1..], t[1..];
      assert (w + x)[1..] == v + x && (w + y)[1..] == v + y;
      assert (w + x)[0] == w[0] == (w + y)[0] == t[0];
      Between(v, x, y, u);
      assert t[..|w|] == [t[0]] + u[..|v|] == [w[0]] + v == w;
    }
  }

  /** Whether words are all there is matters against other words exactly where those run on. */
  lemma RunsOnIff(id: Bytes, w: Words, h: Head)
    requires h.words != w
    ensures Beats(id, Head(w, true), h) && Beats(id, h, Head(w, false)) <==> RunsOn(w, h.words)
  {
    if RunsOn(w, h.words) {
      RunsOnSplits(id, w, h);
    } else if Beats(id, Head(w, true), h) && Beats(id, h, Head(w, false)) {
      SplitRunsOn(id, w, h);
    }
  }

  lemma RunsOnSplits(id: Bytes, w: Words, h: Head)
    requires RunsOn(w, h.words)
    ensures Beats(id, Head(w, true), h) && Beats(id, h, Head(w, false))
  {
    var v, c := h.words, [if h.bare then 125 else 44];
    var m, n := Decimal(w.deleted), Decimal(v.deleted);
    var more := n[|m|..];
    DecimalBytes(v.deleted);
    assert n == m + more && NumberByte(more[0]);
    LongerText(id, w, v, more);
    AppendBehind(WordsText(id, w), more, c);
    assert (more + c)[0] == more[0];
    LessByBack(WordsText(id, w), more + c, [125]);
    LessByBack(WordsText(id, w), [44], more + c);
  }

  lemma LongerText(id: Bytes, w: Words, v: Words, more: Bytes)
    requires w.deleted != 0 && v.deleted != 0 && w.(deleted := 0) == v.(deleted := 0)
    requires Decimal(v.deleted) == Decimal(w.deleted) + more
    ensures WordsText(id, v) == WordsText(id, w) + more
  {
    AppendBehind(DeletedKey, Decimal(w.deleted), more);
    assert DeletedPart(v) + [] == DeletedPart(v) == DeletedPart(w) + more;
    Regroup(id, w, more);
    Regroup(id, v, []);
    assert WordsText(id, v) + [] == WordsText(id, v);
  }

  lemma SplitRunsOn(id: Bytes, w: Words, h: Head)
    requires h.words != w && Beats(id, Head(w, true), h) && Beats(id, h, Head(w, false))
    ensures RunsOn(w, h.words)
  {
    var c: Bytes := [if h.bare then 125 else 44];
    Between(WordsText(id, w), [44], [125], HeadText(id, h));
    WordsBegin(id, w, h.words, c);
    DeletionBegins(w, h.words, c);
  }

  lemma WordsBegin(id: Bytes, w: Words, v: Words, c: Bytes)
    requires WordsText(id, w) <= WordsText(id, v) + c && w.updated == v.updated
    ensures w.text == v.text && w.color == v.color && w.created == v.created && DeletedPart(w) <= DeletedPart(v) + c
  {
    assert WordsText(id, w) + [] == WordsText(id, w) && DeletedPart(w) + [] == DeletedPart(w);
    HeadEnds(id, w, [], v, c);
    SameKey(Decimal(w.updated), DeletedPart(w), DeletedPart(v) + c);
  }

  lemma DeletionBegins(w: Words, v: Words, c: Bytes)
    requires (w.deleted != 0) == (v.deleted != 0) && |c| == 1 && !NumberByte(c[0])
    requires DeletedPart(w) <= DeletedPart(v) + c
    ensures w.deleted == v.deleted || (w.deleted != 0 && Decimal(w.deleted) < Decimal(v.deleted))
  {
    if w.deleted != 0 {
      AppendBehind(DeletedKey, Decimal(v.deleted), c);
      SameKey(DeletedKey, Decimal(w.deleted), Decimal(v.deleted) + c);
      WithinNumber(w.deleted, v.deleted, c);
    }
  }

  lemma WithinNumber(m: int, n: int, c: Bytes)
    requires |c| == 1 && !NumberByte(c[0]) && Decimal(m) <= Decimal(n) + c
    ensures m == n || Decimal(m) < Decimal(n)
  {
    DecimalBytes(m);
    var k := |Decimal(n)|;
    var i := if k < |Decimal(m)| then k else 0;
    assert Decimal(m)[i] == (Decimal(n) + c)[i];
    assert Decimal(m) <= Decimal(n);
    if Decimal(m) == Decimal(n) {
      DecimalInjective(m, n);
    }
  }

  /** How h stands to some words, with a desk behind them or not. */
  lemma Stands(id: Bytes, w: Words, h: Head)
    requires h.words != w
    ensures if RunsOn(w, h.words) then Beats(id, h, Head(w, false)) && !Beats(id, h, Head(w, true))
            else Beats(id, h, Head(w, false)) == Beats(id, h, Head(w, true))
  {
    RunsOnIff(id, w, h);
    BareBeats(id, w);
    BeatsTotal(id, Head(w, true), h);
    BeatsTotal(id, Head(w, false), h);
    BeatsTransitive(id, h, Head(w, true), Head(w, false));
  }

  // ---- two notes ------------------------------------------------------------------------------

  predicate Outdoes(x: Note, y: Note) {
    Beats(x.id, HeadOf(x), HeadOf(y))
  }

  function United(x: Note, y: Note): Note {
    Unite(Marshal, x, y)
  }

  /** The union takes words and place apart, each from the side that changed it last. */
  lemma UniteApart(x: Note, y: Note)
    requires x.id == y.id
    ensures United(x, y).id == x.id && United(x, y) == United(y, x)
    ensures United(x, y).words == if Outdoes(y, x) then y.words else x.words
    ensures United(x, y).desk.placed == LaterDesk(x.desk, y.desk).placed
    ensures SamePlacing(x, y) ==> United(x, y).desk == LaterDesk(x.desk, y.desk)
  {
    MarshalTellsApart();
    UniteCommutes(Marshal, x, y);
    WinsTotal(x, y);
    if x.words != y.words {
      WinsByHead(y, x);
    }
  }

  lemma WinsTotal(x: Note, y: Note)
    requires x.id == y.id
    ensures !Wins(Marshal, x, x)
    ensures x != y ==> (Wins(Marshal, x, y) <==> !Wins(Marshal, y, x))
  {
    MarshalTellsApart();
    LessTotal(Marshal.Of(x), Marshal.Of(y));
    LessTotal(Marshal.Of(x), Marshal.Of(x));
  }

  lemma WinsTransitive(x: Note, y: Note, z: Note)
    ensures Wins(Marshal, x, y) && Wins(Marshal, y, z) ==> Wins(Marshal, x, z)
  {
    var a, b, c := Marshal.Of(x), Marshal.Of(y), Marshal.Of(z);
    if Less(c, b) && Less(b, a) {
      LessTransitive(c, b, a);
    }
  }

  // ---- three notes ----------------------------------------------------------------------------

  /** Uniting t with i turns how t's words stand to o's: they run on in o's, and the union is on
      the desk where t is not, or the other way round. */
  predicate Turns(t: Note, i: Note, o: Note) {
    RunsOn(t.words, o.words) && Bare(t.desk) != Bare(United(t, i).desk)
  }

  /** x, which nothing beats, is turned against the last by y, or the better of those two against
      x by the other. */
  predicate OuterTurned(x: Note, y: Note, z: Note) {
    Turns(x, y, z) || (if Outdoes(z, y) then Turns(z, y, x) else Turns(y, z, x))
  }

  /** y is turned against one of the outer two by the other, and not both with the same end. */
  predicate MiddleTurned(x: Note, y: Note, z: Note) {
    Turns(y, x, z) != Turns(y, z, x) || (Turns(y, x, z) && x.words != z.words)
  }

  /** The grouping decides the words. */
  predicate WordsBreak(x: Note, y: Note, z: Note) {
    if !Outdoes(y, x) && !Outdoes(z, x) then OuterTurned(x, y, z)
    else if !Outdoes(x, z) && !Outdoes(y, z) then OuterTurned(z, y, x)
    else MiddleTurned(x, y, z)
  }

  /** The grouping decides the place: exactly two have the latest stamp, their places differ, and
      who of the two wins depends on when the third is united. */
  predicate DesksBreak(x: Note, y: Note, z: Note) {
    var a, b, c := x.desk.placed, y.desk.placed, z.desk.placed;
    if a == b > c then x.desk != y.desk && Wins(Marshal, x, y) != Wins(Marshal, x, United(y, z))
    else if b == c > a then y.desk != z.desk && Wins(Marshal, z, y) != Wins(Marshal, z, United(x, y))
    else a == c > b && x.desk != z.desk && Wins(Marshal, x, United(y, z)) == Wins(Marshal, z, United(x, y))
  }

  /** The grouping decides what the note becomes. */
  predicate Breaks(x: Note, y: Note, z: Note) {
    WordsBreak(x, y, z) || DesksBreak(x, y, z)
  }

  /** Words that withstood one note, against the next. */
  lemma ThirdWords(t: Note, i: Note, o: Note)
    requires t.id == i.id == o.id && !Outdoes(i, t)
    ensures United(United(t, i), o).words == if Outdoes(o, t) != Turns(t, i, o) then o.words else t.words
  {
    UniteApart(t, i);
    UniteApart(United(t, i), o);
    if o.words != t.words {
      Stands(t.id, t.words, HeadOf(o));
    }
  }

  lemma RunsOnOrder(w: Words, v: Words, u: Words)
    ensures !RunsOn(w, w) && !(RunsOn(w, v) && RunsOn(v, w)) && (RunsOn(w, v) && RunsOn(v, u) ==> w != u)
  {
  }

  lemma OutdoesTotal(x: Note, y: Note)
    requires x.id == y.id
    ensures !(Outdoes(x, y) && Outdoes(y, x)) && (!Outdoes(x, y) && !Outdoes(y, x) ==> x.words == y.words)
  {
    BeatsTotal(x.id, HeadOf(x), HeadOf(y));
  }

  /** With x not beaten; that z is not is the mirror image. */
  lemma FirstOnTop(x: Note, y: Note, z: Note)
    requires x.id == y.id == z.id && !Outdoes(y, x) && !Outdoes(z, x)
    ensures United(x, United(y, z)).words == United(United(x, y), z).words <==> !OuterTurned(x, y, z)
  {
    var t, i := if Outdoes(z, y) then z else y, if Outdoes(z, y) then y else z;
    OutdoesTotal(y, z);
    OutdoesTotal(x, t);
    UniteApart(t, i);
    UniteApart(x, United(y, z));
    ThirdWords(x, y, z);
    ThirdWords(t, i, x);
    RunsOnOrder(x.words, z.words, x.words);
    RunsOnOrder(y.words, x.words, z.words);
  }

  lemma LastOnTop(x: Note, y: Note, z: Note)
    requires x.id == y.id == z.id && !Outdoes(x, z) && !Outdoes(y, z)
    ensures United(x, United(y, z)).words == United(United(x, y), z).words <==> !OuterTurned(z, y, x)
  {
    Mirrored(x, y, z);
    FirstOnTop(z, y, x);
  }

  lemma SecondOnTop(x: Note, y: Note, z: Note)
    requires x.id == y.id == z.id && !Outdoes(x, y) && !Outdoes(z, y)
    ensures United(x, United(y, z)).words == United(United(x, y), z).words <==> !MiddleTurned(x, y, z)
  {
    UniteApart(x, y);
    UniteApart(x, United(y, z));
    ThirdWords(y, x, z);
    ThirdWords(y, z, x);
    RunsOnOrder(y.words, z.words, x.words);
    RunsOnOrder(y.words, x.words, z.words);
  }

  lemma OneOnTop(x: Note, y: Note, z: Note)
    requires x.id == y.id == z.id
    ensures (!Outdoes(y, x) && !Outdoes(z, x)) || (!Outdoes(x, z) && !Outdoes(y, z))
      || (!Outdoes(x, y) && !Outdoes(z, y))
  {
    var id, f, g, h := x.id, HeadOf(x), HeadOf(y), HeadOf(z);
    BeatsTotal(id, f, g);
    BeatsTotal(id, g, h);
    BeatsTotal(id, f, h);
    BeatsTransitive(id, f, g, h);
    BeatsTransitive(id, h, g, f);
  }

  lemma GroupingWords(x: Note, y: Note, z: Note)
    requires x.id == y.id == z.id
    ensures United(x, United(y, z)).words == United(United(x, y), z).words <==> !WordsBreak(x, y, z)
  {
    if !Outdoes(y, x) && !Outdoes(z, x) {
      FirstOnTop(x, y, z);
    } else if !Outdoes(x, z) && !Outdoes(y, z) {
      LastOnTop(x, y, z);
    } else {
      OneOnTop(x, y, z);
      SecondOnTop(x, y, z);
    }
  }

  /** The two groupings from the other side. */
  lemma Mirrored(x: Note, y: Note, z: Note)
    requires x.id == y.id == z.id
    ensures United(x, United(y, z)) == United(United(z, y), x) && United(United(x, y), z) == United(z, United(y, x))
  {
    UniteApart(x, y);
    UniteApart(y, z);
    UniteApart(x, United(y, z));
    UniteApart(United(x, y), z);
  }

  lemma DesksApart(x: Note, y: Note)
    requires x.id == y.id
    ensures var u := United(x, y);
      && u.id == x.id
      && u.desk == if x.desk.placed > y.desk.placed then x.desk
                   else if y.desk.placed > x.desk.placed || Wins(Marshal, y, x) then y.desk else x.desk
  {
  }

  lemma GroupingDesks(x: Note, y: Note, z: Note)
    requires x.id == y.id == z.id
    ensures United(x, United(y, z)).desk == United(United(x, y), z).desk <==> !DesksBreak(x, y, z)
  {
    var a, b, c := x.desk.placed, y.desk.placed, z.desk.placed;
    DesksApart(x, y);
    DesksApart(y, z);
    DesksApart(x, United(y, z));
    DesksApart(United(x, y), z);
    if a == b == c {
      AllAtOnce(x, y, z);
    } else {
      WinsTotal(x, y);
      WinsTotal(y, z);
      WinsTotal(x, United(y, z));
      WinsTotal(United(x, y), z);
    }
  }

  /** With equal stamps the union is the winner, whole. */
  lemma AllAtOnce(x: Note, y: Note, z: Note)
    requires x.id == y.id == z.id && x.desk.placed == y.desk.placed == z.desk.placed
    ensures United(x, United(y, z)) == United(United(x, y), z)
  {
    WinsTotal(x, y);
    WinsTotal(y, z);
    WinsTotal(x, z);
    WinsTransitive(x, y, z);
    WinsTransitive(z, y, x);
    WinsTransitive(y, x, z);
    WinsTransitive(z, x, y);
    WinsTransitive(x, z, y);
    WinsTransitive(y, z, x);
  }

  /** Three notes of one id unite to the same note in either grouping exactly when the grouping
      decides neither the words nor the place. */
  lemma UniteAssociatesIff(x: Note, y: Note, z: Note)
    requires x.id == y.id == z.id
    ensures United(x, United(y, z)) == United(United(x, y), z) <==> !Breaks(x, y, z)
  {
    GroupingWords(x, y, z);
    GroupingDesks(x, y, z);
    UniteApart(y, z);
    UniteApart(x, United(y, z));
    UniteApart(x, y);
    UniteApart(United(x, y), z);
  }

  /** Not two tombstones whose stamps run on. */
  predicate StampsApart(w: Words, v: Words) {
    !RunsOn(w, v) && !RunsOn(v, w)
  }

  /** Equal `placed` stamps mean equal places, and tombstones' stamps are told apart. */
  predicate Alike(x: Note, y: Note) {
    SamePlacing(x, y) && StampsApart(x.words, y.words)
  }

  lemma ApartUnbroken(x: Note, y: Note, z: Note)
    requires StampsApart(x.words, y.words) && StampsApart(y.words, z.words) && StampsApart(x.words, z.words)
    ensures !WordsBreak(x, y, z)
  {
  }

  lemma PlacedUnbroken(x: Note, y: Note, z: Note)
    requires SamePlacing(x, y) && SamePlacing(y, z) && SamePlacing(x, z)
    ensures !DesksBreak(x, y, z)
  {
  }

  /** In particular where both hold of each pair. */
  lemma UniteAssociates(x: Note, y: Note, z: Note)
    requires x.id == y.id == z.id && Alike(x, y) && Alike(y, z) && Alike(x, z)
    ensures !Breaks(x, y, z) && United(x, United(y, z)) == United(United(x, y), z)
  {
    ApartUnbroken(x, y, z);
    PlacedUnbroken(x, y, z);
    UniteAssociatesIff(x, y, z);
  }

  /** An instance where it matters: three tombstones of one note, deleted at 5, 5 and 50 by clocks
      that far apart, one of them still on the desk. */
  lemma StampsRunOn(id: Bytes, w: Words, p: Place) returns (x: Note, y: Note, z: Note)
    requires w.deleted == 5
    ensures x.id == y.id == z.id == id && x.words == y.words == w && z.words == w.(deleted := 50)
    ensures SamePlacing(x, y) && SamePlacing(y, z) && SamePlacing(x, z)
    ensures United(x, United(y, z)).words != United(United(x, y), z).words
  {
    x, y := Note(id, w, Desk(Some(p), 5)), Note(id, w, Off);
    z := Note(id, w.(deleted := 50), Off);
    assert Decimal(5) == [53] && Decimal(50) == Decimal(5) + [48];
    assert RunsOn(w, z.words);
    BareBeats(id, w);
    RunsOnIff(id, w, HeadOf(z));
    OutdoesTotal(x, y);
    OutdoesTotal(y, z);
    UniteApart(y, x);
    GroupingWords(x, y, z);
  }

  // ---- whole documents ------------------------------------------------------------------------

  /** Joining three documents of notes: the groupings agree exactly when they do for every note
      that all three hold. */
  lemma JoinAssociatesIff(a: Doc<Note>, b: Doc<Note>, c: Doc<Note>)
    requires Keyed(IdOf, a) && Keyed(IdOf, b) && Keyed(IdOf, c)
    ensures var f := UniteBy(Marshal);
      Join(f, a, Join(f, b, c)) == Join(f, Join(f, a, b), c)
      <==> forall k :: k in a && k in b && k in c ==> !Breaks(a[k], b[k], c[k])
  {
    if k :| k in a && k in b && k in c && Breaks(a[k], b[k], c[k]) {
      JoinsAt(a, b, c, k);
    } else {
      forall k | k in a.Keys + b.Keys + c.Keys ensures SameJoinedAt(a, b, c, k) {
        JoinsAt(a, b, c, k);
      }
      SameJoined(a, b, c);
    }
  }

  predicate SameJoinedAt(a: Doc<Note>, b: Doc<Note>, c: Doc<Note>, k: Bytes)
    requires k in a.Keys + b.Keys + c.Keys
  {
    var f := UniteBy(Marshal);
    Join(f, a, Join(f, b, c))[k] == Join(f, Join(f, a, b), c)[k]
  }

  lemma SameJoined(a: Doc<Note>, b: Doc<Note>, c: Doc<Note>)
    requires forall k :: k in a.Keys + b.Keys + c.Keys ==> SameJoinedAt(a, b, c, k)
    ensures var f := UniteBy(Marshal); Join(f, a, Join(f, b, c)) == Join(f, Join(f, a, b), c)
  {
    var f := UniteBy(Marshal);
    assert Join(f, a, Join(f, b, c)).Keys == a.Keys + b.Keys + c.Keys == Join(f, Join(f, a, b), c).Keys;
    forall k | k in a.Keys + b.Keys + c.Keys ensures Join(f, a, Join(f, b, c))[k] == Join(f, Join(f, a, b), c)[k] {
      assert SameJoinedAt(a, b, c, k);
    }
  }

  lemma JoinsAt(a: Doc<Note>, b: Doc<Note>, c: Doc<Note>, k: Bytes)
    requires Keyed(IdOf, a) && Keyed(IdOf, b) && Keyed(IdOf, c) && k in a.Keys + b.Keys + c.Keys
    ensures SameJoinedAt(a, b, c, k) <==> !(k in a && k in b && k in c && Breaks(a[k], b[k], c[k]))
  {
    if k in a && k in b && k in c {
      UniteAssociatesIff(a[k], b[k], c[k]);
    }
  }

  ghost predicate AllAlike(a: Doc<Note>, b: Doc<Note>) {
    forall k :: k in a && k in b ==> Alike(a[k], b[k])
  }

  lemma JoinAssociates(a: Doc<Note>, b: Doc<Note>, c: Doc<Note>)
    requires Keyed(IdOf, a) && Keyed(IdOf, b) && Keyed(IdOf, c)
    requires AllAlike(a, b) && AllAlike(b, c) && AllAlike(a, c)
    ensures var f := UniteBy(Marshal); Join(f, a, Join(f, b, c)) == Join(f, Join(f, a, b), c)
  {
    JoinAssociatesIff(a, b, c);
    forall k | k in a && k in b && k in c ensures !Breaks(a[k], b[k], c[k]) {
      UniteAssociates(a[k], b[k], c[k]);
    }
  }
}
