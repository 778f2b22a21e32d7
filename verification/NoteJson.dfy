/** How json.Marshal writes a note, in the order of noteItem's fields
    (internal/peer/merge.go). */
module NoteJson {
  import opened Base
  import opened Decimals
  import opened Notes

  // ---- strings -----------------------------------------------------------------------------

  const Quote: byte := 34
  const Backslash: byte := 92

  function Hex(n: int): byte
    requires 0 <= n < 16
  {
    if n < 10 then (48 + n) as byte else (87 + n) as byte
  }

  /** One byte of a string: quoted, named, by its code (<, > and & too), or as it is. */
  function Escape(b: byte): Bytes {
    if b == Quote || b == Backslash then [Backslash, b]
    else if b == 8 then [Backslash, 98]
    else if b == 9 then [Backslash, 116]
    else if b == 10 then [Backslash, 110]
    else if b == 12 then [Backslash, 102]
    else if b == 13 then [Backslash, 114]
    else if b < 32 || b == 60 || b == 62 || b == 38 then
      [Backslash, 117, 48, 48, Hex(b as int / 16), Hex(b as int % 16)]
    else [b]
  }

  function Escaped(s: Bytes): Bytes {
    if s == [] then [] else Escape(s[0]) + Escaped(s[1..])
  }

  function Quoted(s: Bytes): Bytes {
    [Quote] + (Escaped(s) + [Quote])
  }

  lemma HexApart(m: nat, n: nat)
    requires m < 256 && n < 256 && Hex(m / 16) == Hex(n / 16) && Hex(m % 16) == Hex(n % 16)
    ensures m == n
  {
  }

  lemma EscapesApart(b: byte, c: byte)
    requires Escape(b) <= Escape(c)
    ensures b == c
  {
    var p, q := Escape(b), Escape(c);
    assert p[0] == q[0];
    if |p| > 1 {
      assert p[1] == q[1];
    }
    if |p| == 6 && |q| == 6 {
      assert p[4] == q[4] && p[5] == q[5];
      HexApart(b as int, c as int);
    }
  }

  lemma Fronts(p: Bytes, x: Bytes, q: Bytes, y: Bytes)
    requires p + x <= q + y
    ensures p <= q || q <= p
    ensures p == q ==> x <= y
  {
    var z := q + y;
    assert p == (p + x)[..|p|] == z[..|p|] && q == z[..|q|];
    if |p| <= |q| {
      assert p == q[..|p|];
    } else {
      assert q == p[..|q|];
    }
    if p == q {
      assert x == (p + x)[|p|..] && y == z[|q|..];
    }
  }

  lemma EscapedStart(s: Bytes)
    ensures s != [] ==> Escaped(s) != [] && Escaped(s)[0] != Quote
  {
    if s != [] {
      assert Escape(s[0])[0] == Escaped(s)[0];
    }
  }

  lemma {:induction false} EscapedEnds(s: Bytes, x: Bytes, t: Bytes, y: Bytes)
    requires Escaped(s) + ([Quote] + x) <= Escaped(t) + ([Quote] + y)
    ensures s == t && x <= y
    decreases |s| + |t|
  {
    EscapedStart(s);
    EscapedStart(t);
    assert (Escaped(s) + ([Quote] + x))[0] == (Escaped(t) + ([Quote] + y))[0];
    if s == [] && t == [] {
      assert [] + ([Quote] + x) == [Quote] + x && [] + ([Quote] + y) == [Quote] + y;
      Fronts([Quote], x, [Quote], y);
    } else if s != [] && t != [] {
      var p, q, u, v := Escape(s[0]), Escape(t[0]), Escaped(s[1..]), Escaped(t[1..]);
      AppendBehind(p, u, [Quote] + x);
      AppendBehind(q, v, [Quote] + y);
      Fronts(p, u + ([Quote] + x), q, v + ([Quote] + y));
      if p <= q {
        EscapesApart(s[0], t[0]);
      } else {
        EscapesApart(t[0], s[0]);
      }
      EscapedEnds(s[1..], x, t[1..], y);
      assert s == [s[0]] + s[1..] && t == [t[0]] + t[1..];
    }
  }

  /** A string ends at its closing quote. */
  lemma QuotedEnds(s: Bytes, x: Bytes, t: Bytes, y: Bytes)
    requires Quoted(s) + x <= Quoted(t) + y
    ensures s == t && x <= y
  {
    AppendBehind([Quote], Escaped(s) + [Quote], x);
    AppendBehind([Quote], Escaped(t) + [Quote], y);
    AppendBehind(Escaped(s), [Quote], x);
    AppendBehind(Escaped(t), [Quote], y);
    Fronts([Quote], Escaped(s) + ([Quote] + x), [Quote], Escaped(t) + ([Quote] + y));
    EscapedEnds(s, x, t, y);
  }

  // ---- a note's fields ----------------------------------------------------------------------

  const IdKey := Lit("{\"id\":")
  const TextKey := Lit(",\"text\":")
  const ColorKey := Lit(",\"color\":")
  const CreatedKey := Lit(",\"created\":")
  const UpdatedKey := Lit(",\"updated\":")
  const DeletedKey := Lit(",\"deleted\":")
  const PlaceKey := Lit(",\"place\":{\"x\":")
  const YKey := Lit(",\"y\":")
  const WKey := Lit(",\"w\":")
  const HKey := Lit(",\"h\":")
  const ShadedPart := Lit(",\"shaded\":true")
  const PlacedKey := Lit(",\"placed\":")
  const Brace: Bytes := [125]

  function DeletedPart(w: Words): Bytes {
    if w.deleted == 0 then [] else DeletedKey + Decimal(w.deleted)
  }

  function Stamps(w: Words): Bytes {
    CreatedKey + (Decimal(w.created) + (UpdatedKey + (Decimal(w.updated) + DeletedPart(w))))
  }

  function ColorPart(w: Words): Bytes {
    if w.color == [] then [] else ColorKey + Quoted(w.color)
  }

  function WordsText(id: Bytes, w: Words): Bytes {
    IdKey + (Quoted(id) + (TextKey + (Quoted(w.text) + (ColorPart(w) + Stamps(w)))))
  }

  function PlacePart(d: Desk): Bytes {
    match d.place
    case None => []
    case Some(p) =>
      PlaceKey + (Decimal(p.x) + (YKey + (Decimal(p.y) + (WKey + (Decimal(p.w) + (HKey + (Decimal(p.h)
        + ((if p.shaded then ShadedPart else []) + Brace))))))))
  }

  function PlacedPart(d: Desk): Bytes {
    (if d.placed == 0 then [] else PlacedKey + Decimal(d.placed)) + Brace
  }

  function DeskText(d: Desk): Bytes {
    PlacePart(d) + PlacedPart(d)
  }

  /** json.Marshal of a noteItem. */
  const Marshal: Json := Json(WordsText, DeskText)

  // ---- the pieces are read off again ---------------------------------------------------------------

  /** The same key in front. */
  lemma SameKey(k: Bytes, x: Bytes, y: Bytes)
    requires k + x <= k + y
    ensures x <= y
  {
    Fronts(k, x, k, y);
  }

  /** Pieces whose first bytes differ somewhere do not begin one another. */
  lemma KeysDiffer(k: Bytes, x: Bytes, l: Bytes, y: Bytes, i: nat)
    requires i < |k| && i < |l| && k[i] != l[i]
    ensures !(k + x <= l + y)
  {
    assert (k + x)[i] == k[i] && (l + y)[i] == l[i];
  }

  lemma ColorIsNotCreated(z: Bytes, y: Bytes)
    ensures !(ColorKey + z <= CreatedKey + y) && !(CreatedKey + y <= ColorKey + z)
  {
    KeysDiffer(ColorKey, z, CreatedKey, y, 3);
    KeysDiffer(CreatedKey, y, ColorKey, z, 3);
  }

  lemma ColorEnds(w: Words, x: Bytes, v: Words, y: Bytes)
    requires ColorPart(w) + (CreatedKey + x) <= ColorPart(v) + (CreatedKey + y)
    ensures w.color == v.color && x <= y
  {
    if w.color != [] {
      AppendBehind(ColorKey, Quoted(w.color), CreatedKey + x);
      ColorIsNotCreated(Quoted(w.color) + (CreatedKey + x), y);
    }
    if v.color != [] {
      AppendBehind(ColorKey, Quoted(v.color), CreatedKey + y);
      ColorIsNotCreated(Quoted(v.color) + (CreatedKey + y), x);
    }
    assert [] + (CreatedKey + x) == CreatedKey + x && [] + (CreatedKey + y) == CreatedKey + y;
    if w.color == [] && v.color == [] {
      SameKey(CreatedKey, x, y);
    } else if w.color != [] && v.color != [] {
      SameKey(ColorKey, Quoted(w.color) + (CreatedKey + x), Quoted(v.color) + (CreatedKey + y));
      QuotedEnds(w.color, CreatedKey + x, v.color, CreatedKey + y);
      SameKey(CreatedKey, x, y);
    }
  }

  /** Everything in front of the stamps is told apart. */
  lemma TextEnds(id: Bytes, w: Words, x: Bytes, v: Words, y: Bytes)
    requires WordsText(id, w) + x <= WordsText(id, v) + y
    ensures w.text == v.text && w.color == v.color
    ensures Decimal(w.created) + (UpdatedKey + (Decimal(w.updated) + (DeletedPart(w) + x)))
         <= Decimal(v.created) + (UpdatedKey + (Decimal(v.updated) + (DeletedPart(v) + y)))
  {
    Regroup(id, w, x);
    Regroup(id, v, y);
    var p, q := StampsThen(w, x), StampsThen(v, y);
    SameKey(IdKey, Quoted(id) + (TextKey + (Quoted(w.text) + (ColorPart(w) + (CreatedKey + p)))),
            Quoted(id) + (TextKey + (Quoted(v.text) + (ColorPart(v) + (CreatedKey + q)))));
    SameKey(Quoted(id), TextKey + (Quoted(w.text) + (ColorPart(w) + (CreatedKey + p))),
            TextKey + (Quoted(v.text) + (ColorPart(v) + (CreatedKey + q))));
    SameKey(TextKey, Quoted(w.text) + (ColorPart(w) + (CreatedKey + p)),
        Quoted(v.text) + (ColorPart(v) + (CreatedKey + q)));
    QuotedEnds(w.text, ColorPart(w) + (CreatedKey + p), v.text, ColorPart(v) + (CreatedKey + q));
    ColorEnds(w, p, v, q);
  }

  /** And so is when they were written. */
  lemma HeadEnds(id: Bytes, w: Words, x: Bytes, v: Words, y: Bytes)
    requires WordsText(id, w) + x <= WordsText(id, v) + y
    ensures w.text == v.text && w.color == v.color && w.created == v.created
    ensures Decimal(w.updated) + (DeletedPart(w) + x) <= Decimal(v.updated) + (DeletedPart(v) + y)
  {
    TextEnds(id, w, x, v, y);
    UpdatedStart();
    KeyEnds(UpdatedKey, w.created, Decimal(w.updated) + (DeletedPart(w) + x),
            v.created, Decimal(v.updated) + (DeletedPart(v) + y));
  }

  lemma UpdatedStart()
    ensures UpdatedKey != [] && UpdatedKey[0] == 44
  {
  }

  /** A number ends at the key behind it. */
  lemma KeyEnds(k: Bytes, m: int, a: Bytes, n: int, b: Bytes)
    requires k != [] && !NumberByte(k[0]) && Decimal(m) + (k + a) <= Decimal(n) + (k + b)
    ensures m == n && a <= b
  {
    NumberEnds(m, k + a, n, k + b);
    SameKey(k, a, b);
  }

  lemma DeletedStart(w: Words, x: Bytes)
    requires x != [] && !NumberByte(x[0])
    ensures DeletedPart(w) + x != [] && !NumberByte((DeletedPart(w) + x)[0])
  {
    assert DeletedKey[0] == 44;
    assert w.deleted != 0 ==> (DeletedPart(w) + x)[0] == DeletedKey[0];
    assert w.deleted == 0 ==> DeletedPart(w) + x == x;
  }

  function StampsThen(w: Words, x: Bytes): Bytes {
    Decimal(w.created) + (UpdatedKey + (Decimal(w.updated) + (DeletedPart(w) + x)))
  }

  lemma Regroup(id: Bytes, w: Words, x: Bytes)
    ensures WordsText(id, w) + x
         == IdKey + (Quoted(id) + (TextKey + (Quoted(w.text) + (ColorPart(w) + (CreatedKey + StampsThen(w, x))))))
  {
    var a := Decimal(w.updated) + DeletedPart(w);
    var b := Decimal(w.created) + (UpdatedKey + a);
    AppendBehind(Decimal(w.updated), DeletedPart(w), x);
    AppendBehind(UpdatedKey, a, x);
    AppendBehind(Decimal(w.created), UpdatedKey + a, x);
    AppendBehind(CreatedKey, b, x);
    var c := CreatedKey + b;
    AppendBehind(ColorPart(w), c, x);
    AppendBehind(Quoted(w.text), ColorPart(w) + c, x);
    AppendBehind(TextKey, Quoted(w.text) + (ColorPart(w) + c), x);
    AppendBehind(Quoted(id), TextKey + (Quoted(w.text) + (ColorPart(w) + c)), x);
    AppendBehind(IdKey, Quoted(id) + (TextKey + (Quoted(w.text) + (ColorPart(w) + c))), x);
  }

  // ---- whole notes are told apart -----------------------------------------------------------------

  lemma BraceIsNoKey(z: Bytes)
    ensures !(Brace <= PlacedKey + z) && !(PlacedKey + z <= Brace)
  {
    assert (PlacedKey + z)[0] == PlacedKey[0];
  }

  lemma PlacedEnds(d: Desk, e: Desk)
    requires PlacedPart(d) <= PlacedPart(e)
    ensures d.placed == e.placed
  {
    assert [] + Brace == Brace;
    if d.placed != 0 {
      AppendBehind(PlacedKey, Decimal(d.placed), Brace);
      BraceIsNoKey(Decimal(d.placed) + Brace);
    }
    if e.placed != 0 {
      AppendBehind(PlacedKey, Decimal(e.placed), Brace);
      BraceIsNoKey(Decimal(e.placed) + Brace);
    }
    if d.placed != 0 && e.placed != 0 {
      SameKey(PlacedKey, Decimal(d.placed) + Brace, Decimal(e.placed) + Brace);
      NumberEnds(d.placed, Brace, e.placed, Brace);
    }
  }

  function Shading(p: Place): Bytes {
    (if p.shaded then ShadedPart else []) + Brace
  }

  /** A place, and what follows its closing brace. */
  function PlaceThen(p: Place, x: Bytes): Bytes {
    Decimal(p.x) + (YKey + (Decimal(p.y) + (WKey + (Decimal(p.w) + (HKey + (Decimal(p.h) + (Shading(p) + x)))))))
  }

  lemma RegroupPlace(d: Desk, x: Bytes)
    requires d.place.Some?
    ensures PlacePart(d) + x == PlaceKey + PlaceThen(d.place.value, x)
  {
    var p := d.place.value;
    var a := Decimal(p.h) + Shading(p);
    var b := Decimal(p.w) + (HKey + a);
    var c := Decimal(p.y) + (WKey + b);
    AppendBehind(Decimal(p.h), Shading(p), x);
    AppendBehind(HKey, a, x);
    AppendBehind(Decimal(p.w), HKey + a, x);
    AppendBehind(WKey, b, x);
    AppendBehind(Decimal(p.y), WKey + b, x);
    AppendBehind(YKey, c, x);
    AppendBehind(Decimal(p.x), YKey + c, x);
    AppendBehind(PlaceKey, Decimal(p.x) + (YKey + c), x);
  }

  lemma ShadingEnds(p: Place, x: Bytes, q: Place, y: Bytes)
    requires Shading(p) + x <= Shading(q) + y
    ensures p.shaded == q.shaded && x <= y
  {
    AppendBehind(if p.shaded then ShadedPart else [], Brace, x);
    AppendBehind(if q.shaded then ShadedPart else [], Brace, y);
    assert [] + (Brace + x) == Brace + x && [] + (Brace + y) == Brace + y;
    KeysDiffer(ShadedPart, Brace + x, Brace, y, 0);
    KeysDiffer(Brace, x, ShadedPart, Brace + y, 0);
    if p.shaded && q.shaded {
      SameKey(ShadedPart, Brace + x, Brace + y);
    }
    if p.shaded == q.shaded {
      SameKey(Brace, x, y);
    }
  }

  lemma PlaceEnds(p: Place, x: Bytes, q: Place, y: Bytes)
    requires PlaceThen(p, x) <= PlaceThen(q, y)
    ensures p == q && x <= y
  {
    var a, b := Decimal(p.h) + (Shading(p) + x), Decimal(q.h) + (Shading(q) + y);
    var c, d := Decimal(p.w) + (HKey + a), Decimal(q.w) + (HKey + b);
    var e, f := Decimal(p.y) + (WKey + c), Decimal(q.y) + (WKey + d);
    NumberEnds(p.x, YKey + e, q.x, YKey + f);
    SameKey(YKey, e, f);
    NumberEnds(p.y, WKey + c, q.y, WKey + d);
    SameKey(WKey, c, d);
    NumberEnds(p.w, HKey + a, q.w, HKey + b);
    SameKey(HKey, a, b);
    NumberEnds(p.h, Shading(p) + x, q.h, Shading(q) + y);
    ShadingEnds(p, x, q, y);
  }

  lemma PlacedIsNoPlace(d: Desk, z: Bytes)
    ensures !(PlacedPart(d) <= PlaceKey + z) && !(PlaceKey + z <= PlacedPart(d))
  {
    if d.placed != 0 {
      AppendBehind(PlacedKey, Decimal(d.placed), Brace);
      KeysDiffer(PlacedKey, Decimal(d.placed) + Brace, PlaceKey, z, 7);
      KeysDiffer(PlaceKey, z, PlacedKey, Decimal(d.placed) + Brace, 7);
    } else {
      assert PlacedPart(d) == Brace + [];
      KeysDiffer(Brace, [], PlaceKey, z, 0);
      KeysDiffer(PlaceKey, z, Brace, [], 0);
    }
  }

  lemma DeskEnds(d: Desk, e: Desk)
    requires DeskText(d) <= DeskText(e)
    ensures d == e
  {
    assert [] + PlacedPart(d) == PlacedPart(d) && [] + PlacedPart(e) == PlacedPart(e);
    if d.place.Some? {
      RegroupPlace(d, PlacedPart(d));
      PlacedIsNoPlace(e, PlaceThen(d.place.value, PlacedPart(d)));
    }
    if e.place.Some? {
      RegroupPlace(e, PlacedPart(e));
      PlacedIsNoPlace(d, PlaceThen(e.place.value, PlacedPart(e)));
    }
    if d.place.Some? && e.place.Some? {
      SameKey(PlaceKey, PlaceThen(d.place.value, PlacedPart(d)), PlaceThen(e.place.value, PlacedPart(e)));
      PlaceEnds(d.place.value, PlacedPart(d), e.place.value, PlacedPart(e));
    }
    PlacedEnds(d, e);
  }

  /** The desk fields begin with a brace or with a key in "p". */
  lemma DeskStart(d: Desk)
    ensures var t := DeskText(d);
      t != [] && (t[0] == 125 || (t[0] == 44 && |t| > 2 && t[2] == 112))
  {
  }

  lemma DeskIsNoDeletion(d: Desk, z: Bytes)
    ensures !(DeskText(d) <= DeletedKey + z) && !(DeletedKey + z <= DeskText(d))
  {
    DeskStart(d);
    var i := if DeskText(d)[0] == 125 then 0 else 2;
    assert (DeletedKey + z)[i] == DeletedKey[i];
  }

  lemma DeletionEnds(w: Words, d: Desk, v: Words, e: Desk)
    requires DeletedPart(w) + DeskText(d) <= DeletedPart(v) + DeskText(e)
    ensures w.deleted == v.deleted && d == e
  {
    DeskStart(d);
    DeskStart(e);
    assert [] + DeskText(d) == DeskText(d) && [] + DeskText(e) == DeskText(e);
    if w.deleted != 0 {
      AppendBehind(DeletedKey, Decimal(w.deleted), DeskText(d));
      DeskIsNoDeletion(e, Decimal(w.deleted) + DeskText(d));
    }
    if v.deleted != 0 {
      AppendBehind(DeletedKey, Decimal(v.deleted), DeskText(e));
      DeskIsNoDeletion(d, Decimal(v.deleted) + DeskText(e));
    }
    if w.deleted != 0 && v.deleted != 0 {
      SameKey(DeletedKey, Decimal(w.deleted) + DeskText(d), Decimal(v.deleted) + DeskText(e));
      NumberEnds(w.deleted, DeskText(d), v.deleted, DeskText(e));
    }
    DeskEnds(d, e);
  }

  lemma NoteApart(x: Note, y: Note)
    requires x.id == y.id && Marshal.Of(x) == Marshal.Of(y)
    ensures x == y
  {
    var w, v, p, q := x.words, y.words, DeskText(x.desk), DeskText(y.desk);
    HeadEnds(x.id, w, p, v, q);
    DeskStart(x.desk);
    DeskStart(y.desk);
    DeletedStart(w, p);
    DeletedStart(v, q);
    NumberEnds(w.updated, DeletedPart(w) + p, v.updated, DeletedPart(v) + q);
    DeletionEnds(w, x.desk, v, y.desk);
  }

  /** So the two sides of a merge of notes can be swapped under json.Marshal. */
  lemma MarshalTellsApart()
    ensures Injective(Marshal)
  {
    forall x: Note, y: Note | x.id == y.id && Marshal.Of(x) == Marshal.Of(y) ensures x == y {
      NoteApart(x, y);
    }
  }
}
