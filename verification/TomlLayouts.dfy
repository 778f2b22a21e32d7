/** However an array of strings is laid out, the reader of Codex's configuration reads what it means
    (internal/server/agentstatus.go; TOML v1.0.0, sections "Comment", "String" and "Array"). A
    layout is written in front of what follows it. */
module TomlLayouts {
  import opened Base
  import opened Toml

  // ---- white space and comments --------------------------------------------------------------

  datatype Piece = Space(b: byte) | Comment(text: Bytes)

  predicate FinePiece(p: Piece) {
    match p
    case Space(b) => b == 32 || b == 9 || b == 13 || b == 10
    case Comment(text) => forall i :: 0 <= i < |text| ==> text[i] != 10
  }

  type Gap = seq<Piece>

  ghost predicate FineGap(g: Gap) {
    forall i :: 0 <= i < |g| ==> FinePiece(g[i])
  }

  function GapThen(g: Gap, x: Bytes): Bytes {
    if g == [] then x
    else
      match g[0]
      case Space(b) => [b] + GapThen(g[1..], x)
      case Comment(text) => [35] + (text + ([10] + GapThen(g[1..], x)))
  }

  lemma {:induction false} CommentPassed(text: Bytes, x: Bytes)
    requires forall i :: 0 <= i < |text| ==> text[i] != 10
    ensures PastComment(text + ([10] + x)) == [10] + x
  {
    if text == [] {
      assert text + ([10] + x) == [10] + x;
    } else {
      assert (text + ([10] + x))[1..] == text[1..] + ([10] + x);
      CommentPassed(text[1..], x);
    }
  }

  lemma {:induction false} GapSkipped(g: Gap, x: Bytes)
    requires FineGap(g)
    ensures Skip(GapThen(g, x)) == Skip(x)
    decreases |g|
  {
    if g != [] {
      var rest := GapThen(g[1..], x);
      assert FinePiece(g[0]);
      GapSkipped(g[1..], x);
      match g[0]
      case Space(b) =>
        assert ([b] + rest)[1..] == rest;
      case Comment(text) =>
        CommentPassed(text, rest);
        assert ([35] + (text + ([10] + rest)))[1..] == text + ([10] + rest);
        assert ([10] + rest)[1..] == rest;
    }
  }

  // ---- strings ---------------------------------------------------------------------------------

  function HexOf(b: byte): nat {
    if 48 <= b <= 57 then b as nat - 48
    else if 65 <= b <= 70 then b as nat - 55
    else if 97 <= b <= 102 then b as nat - 87
    else 0
  }

  predicate IsHex(b: byte) {
    48 <= b <= 57 || 65 <= b <= 70 || 97 <= b <= 102
  }

  function HexNumber(ds: Bytes): nat {
    if ds == [] then 0 else 16 * HexNumber(ds[..|ds| - 1]) + HexOf(ds[|ds| - 1])
  }

  lemma {:induction false} HexIsParsed(ds: Bytes)
    requires forall i :: 0 <= i < |ds| ==> IsHex(ds[i])
    ensures ParseHex(ds) == Some(HexNumber(ds))
    decreases |ds|
  {
    if ds != [] {
      HexIsParsed(ds[..|ds| - 1]);
      assert IsHex(ds[|ds| - 1]);
    }
  }

  /** A byte that stands for itself, a short escape, or a code point by its number. */
  datatype Atom = Raw(b: byte) | Short(letter: byte) | Number(letter: byte, digits: Bytes)

  ghost predicate FineAtom(a: Atom) {
    match a
    case Raw(b) => b != 34 && b != 92
    case Short(c) => c == 110 || c == 116 || c == 114 || c == 34 || c == 92
    case Number(c, ds) =>
      ((c == 117 && |ds| == 4) || (c == 85 && |ds| == 8)) && forall i :: 0 <= i < |ds| ==> IsHex(ds[i])
  }

  /** \n, \t, \r, the quote and the backslash; U+FFFD for what is no code point. */
  function AtomMeans(a: Atom): Bytes {
    match a
    case Raw(b) => [b]
    case Short(c) => [if c == 110 then 10 else if c == 116 then 9 else if c == 114 then 13 else c]
    case Number(_, ds) => Utf8(if IsRune(HexNumber(ds)) then HexNumber(ds) else 0xFFFD)
  }

  function AtomThen(a: Atom, x: Bytes): Bytes {
    match a
    case Raw(b) => [b] + x
    case Short(c) => [92] + ([c] + x)
    case Number(c, ds) => [92] + ([c] + (ds + x))
  }

  datatype Text = Basic(atoms: seq<Atom>) | Literal(bytes: Bytes)

  ghost predicate FineText(t: Text) {
    match t
    case Basic(atoms) => forall i :: 0 <= i < |atoms| ==> FineAtom(atoms[i])
    case Literal(bytes) => forall i :: 0 <= i < |bytes| ==> bytes[i] != 39 && bytes[i] != 10
  }

  function AtomsMean(atoms: seq<Atom>): Bytes {
    if atoms == [] then [] else AtomMeans(atoms[0]) + AtomsMean(atoms[1..])
  }

  function Means(t: Text): Bytes {
    match t
    case Basic(atoms) => AtomsMean(atoms)
    case Literal(bytes) => bytes
  }

  function AtomsThen(atoms: seq<Atom>, x: Bytes): Bytes {
    if atoms == [] then [34] + x else AtomThen(atoms[0], AtomsThen(atoms[1..], x))
  }

  function TextThen(t: Text, x: Bytes): Bytes {
    match t
    case Basic(atoms) => [34] + AtomsThen(atoms, x)
    case Literal(bytes) => [39] + (bytes + ([39] + x))
  }

  lemma AtomRead(a: Atom, x: Bytes)
    requires FineAtom(a) && x != []
    ensures ReadChar(AtomThen(a, x), 34) == Writes(AtomMeans(a), x)
  {
    var s := AtomThen(a, x);
    match a
    case Raw(b) =>
      assert s[1..] == x;
    case Short(c) =>
      assert s[1..] == [c] + x && ([c] + x)[1..] == x;
    case Number(c, ds) =>
      var t := [c] + (ds + x);
      assert s[1..] == t && t[1..1 + |ds|] == ds && t[1 + |ds|..] == x;
      HexIsParsed(ds);
  }

  lemma {:induction false} AtomsRead(atoms: seq<Atom>, x: Bytes)
    requires forall i :: 0 <= i < |atoms| ==> FineAtom(atoms[i])
    ensures AtomsThen(atoms, x) != [] && ReadString(AtomsThen(atoms, x), 34) == Some((AtomsMean(atoms), x))
    decreases |atoms|
  {
    if atoms == [] {
      assert ([34] + x)[1..] == x;
    } else {
      AtomsRead(atoms[1..], x);
      AtomRead(atoms[0], AtomsThen(atoms[1..], x));
    }
  }

  lemma {:induction false} LiteralRead(bytes: Bytes, x: Bytes)
    requires forall i :: 0 <= i < |bytes| ==> bytes[i] != 39 && bytes[i] != 10
    ensures ReadString(bytes + ([39] + x), 39) == Some((bytes, x))
    decreases |bytes|
  {
    var s := bytes + ([39] + x);
    if bytes == [] {
      assert s == [39] + x && s[1..] == x;
    } else {
      assert s[1..] == bytes[1..] + ([39] + x);
      LiteralRead(bytes[1..], x);
      assert [bytes[0]] + bytes[1..] == bytes;
    }
  }

  lemma TextRead(t: Text, x: Bytes)
    requires FineText(t)
    ensures var s := TextThen(t, x);
      s != [] && (s[0] == 34 || s[0] == 39) && ReadString(s[1..], s[0]) == Some((Means(t), x))
  {
    var s := TextThen(t, x);
    match t
    case Basic(atoms) =>
      AtomsRead(atoms, x);
      assert s[1..] == AtomsThen(atoms, x);
    case Literal(bytes) =>
      LiteralRead(bytes, x);
      assert s[1..] == bytes + ([39] + x);
  }

  // ---- arrays ----------------------------------------------------------------------------------

  /** A string with what stands before and behind it. */
  datatype Item = Item(before: Gap, text: Text, behind: Gap)

  ghost predicate FineItem(i: Item) {
    FineGap(i.before) && FineText(i.text) && FineGap(i.behind)
  }

  ghost predicate FineItems(items: seq<Item>) {
    forall i :: 0 <= i < |items| ==> FineItem(items[i])
  }

  function ItemThen(i: Item, x: Bytes): Bytes {
    GapThen(i.before, TextThen(i.text, GapThen(i.behind, x)))
  }

  /** From behind a string on: each further one with its comma, perhaps a last comma, the end. */
  function TailThen(items: seq<Item>, last: Option<Gap>, x: Bytes): Bytes {
    if items != [] then [44] + ItemThen(items[0], TailThen(items[1..], last, x))
    else if last.Some? then [44] + GapThen(last.value, [93] + x)
    else [93] + x
  }

  /** An array; an empty one has only a gap. */
  function ArrayThen(lead: Gap, items: seq<Item>, last: Option<Gap>, x: Bytes): Bytes {
    GapThen(lead, [91] + if items == [] then GapThen(if last.Some? then last.value else [], [93] + x)
                         else ItemThen(items[0], TailThen(items[1..], last, x)))
  }

  function Values(items: seq<Item>): seq<Bytes> {
    if items == [] then [] else [Means(items[0].text)] + Values(items[1..])
  }

  lemma SkipStops(s: Bytes)
    requires s != [] && !White(s[0]) && s[0] != Hash
    ensures Skip(s) == s
  {
  }

  lemma EndReads(gap: Gap, last: Option<Gap>, x: Bytes)
    requires FineGap(gap) && (last.Some? ==> FineGap(last.value))
    ensures Elements(GapThen(gap, TailThen([], last, x)), false) == Some([])
  {
    var t := TailThen([], last, x);
    GapSkipped(gap, t);
    SkipStops(t);
    if last.Some? {
      assert t[1..] == GapThen(last.value, [93] + x);
      GapSkipped(last.value, [93] + x);
      SkipStops([93] + x);
    }
  }

  lemma NextReads(gap: Gap, i: Item, more: Bytes, rest: seq<Bytes>)
    requires FineGap(gap) && FineItem(i) && Elements(GapThen(i.behind, more), false) == Some(rest)
    ensures Elements(GapThen(gap, [44] + ItemThen(i, more)), false) == Some([Means(i.text)] + rest)
  {
    var t := [44] + ItemThen(i, more);
    GapSkipped(gap, t);
    SkipStops(t);
    ItemReads(i, more);
    assert t[1..] == ItemThen(i, more);
  }

  lemma {:induction false} TailReads(gap: Gap, items: seq<Item>, last: Option<Gap>, x: Bytes)
    requires FineGap(gap) && FineItems(items) && (last.Some? ==> FineGap(last.value))
    ensures Elements(GapThen(gap, TailThen(items, last, x)), false) == Some(Values(items))
    decreases |items|
  {
    if items == [] {
      EndReads(gap, last, x);
    } else {
      assert FineItem(items[0]);
      TailReads(items[0].behind, items[1..], last, x);
      NextReads(gap, items[0], TailThen(items[1..], last, x), Values(items[1..]));
    }
  }

  /** Behind the gap before it a string begins, and what follows it is left. */
  lemma ItemReads(i: Item, x: Bytes)
    requires FineItem(i)
    ensures var s := Skip(ItemThen(i, x));
      s != [] && (s[0] == 34 || s[0] == 39) && ReadString(s[1..], s[0]) == Some((Means(i.text), GapThen(i.behind, x)))
  {
    var s := TextThen(i.text, GapThen(i.behind, x));
    TextRead(i.text, GapThen(i.behind, x));
    GapSkipped(i.before, s);
    SkipStops(s);
  }

  /** Whatever gaps, comments, kinds of strings, escapes and last comma an array is written with, it
      is read as the strings it means, whatever follows it. */
  lemma ReadsAnyLayout(lead: Gap, items: seq<Item>, last: Option<Gap>, x: Bytes)
    requires FineGap(lead) && FineItems(items) && (last.Some? ==> FineGap(last.value))
    ensures Parsed(ArrayThen(lead, items, last, x)) == Some(Values(items))
  {
    var inner := if items == [] then GapThen(if last.Some? then last.value else [], [93] + x)
      else ItemThen(items[0], TailThen(items[1..], last, x));
    GapSkipped(lead, [91] + inner);
    SkipStops([91] + inner);
    assert ([91] + inner)[1..] == inner;
    if items == [] {
      GapSkipped(if last.Some? then last.value else [], [93] + x);
      SkipStops([93] + x);
    } else {
      assert FineItem(items[0]);
      ItemReads(items[0], TailThen(items[1..], last, x));
      TailReads(items[0].behind, items[1..], last, x);
    }
  }
}
