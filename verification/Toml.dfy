/** The TOML string arrays the server writes for Codex and reads back from its
    configuration (internal/server/agentstatus.go; TOML v1.0.0, sections "String" and
    "Array"). Text is bytes; a Go string of code points is their UTF-8. */
module Toml {
  import opened Base

  const Tab: byte := 9
  const Newline: byte := 10
  const Return: byte := 13
  const Blank: byte := 32
  const Quote: byte := 34
  const Hash: byte := 35
  const Apostrophe: byte := 39
  const Comma: byte := 44
  const Opening: byte := 91
  const Backslash: byte := 92
  const Closing: byte := 93
  const LetterN: byte := 110
  const LetterR: byte := 114
  const LetterT: byte := 116
  const LetterU: byte := 117
  const CapitalU: byte := 85

  // ---- UTF-8 -----------------------------------------------------------------------------

  predicate IsRune(r: nat) {
    r < 0xD800 || 0xE000 <= r < 0x110000
  }

  /** A Unicode code point, as ranging over a valid Go string gives them. */
  type Rune = r: nat | r < 0xD800 || 0xE000 <= r < 0x110000

  function Utf8(r: Rune): Bytes {
    if r < 0x80 then [r as byte]
    else if r < 0x800 then [(0xC0 + r / 64) as byte, (0x80 + r % 64) as byte]
    else if r < 0x10000 then [(0xE0 + r / 4096) as byte, (0x80 + r / 64 % 64) as byte, (0x80 + r % 64) as byte]
    else [(0xF0 + r / 262144) as byte, (0x80 + r / 4096 % 64) as byte, (0x80 + r / 64 % 64) as byte,
        (0x80 + r % 64) as byte]
  }

  /** WriteRune: what is no code point is written as U+FFFD. */
  function WriteRune(n: nat): Bytes {
    Utf8(if IsRune(n) then n else 0xFFFD)
  }

  function Encode(cs: seq<Rune>): Bytes {
    if cs == [] then [] else Utf8(cs[0]) + Encode(cs[1..])
  }

  // ---- the printer -----------------------------------------------------------------------

  function HexDigit(n: nat): byte
    requires n < 16
  {
    if n < 10 then (48 + n) as byte else (55 + n) as byte
  }

  function Escape(r: Rune): Bytes {
    if r == 34 || r == 92 then [Backslash, r as byte]
    else if r == 10 then [Backslash, LetterN]
    else if r == 9 then [Backslash, LetterT]
    else if r == 13 then [Backslash, LetterR]
    else if r < 0x20 || r == 0x7F then [Backslash, LetterU, 48, 48, HexDigit(r / 16), HexDigit(r % 16)]
    else Utf8(r)
  }

  function Escaped(cs: seq<Rune>): Bytes {
    if cs == [] then [] else Escape(cs[0]) + Escaped(cs[1..])
  }

  function Quoted(cs: seq<Rune>): Bytes {
    [Quote] + Escaped(cs) + [Quote]
  }

  /** The strings after the first, each with its comma. */
  function Tail(list: seq<seq<Rune>>): Bytes {
    if list == [] then [] else [Comma] + Quoted(list[0]) + Tail(list[1..])
  }

  function Parts(list: seq<seq<Rune>>): Bytes {
    if list == [] then [] else Quoted(list[0]) + Tail(list[1..])
  }

  function Printed(list: seq<seq<Rune>>): Bytes {
    [Opening] + Parts(list) + [Closing]
  }

  lemma {:induction false} EscapedSnoc(cs: seq<Rune>, r: Rune)
    ensures Escaped(cs + [r]) == Escaped(cs) + Escape(r)
  {
    if cs != [] {
      assert (cs + [r])[1..] == cs[1..] + [r];
      EscapedSnoc(cs[1..], r);
    }
  }

  lemma {:induction false} TailSnoc(list: seq<seq<Rune>>, cs: seq<Rune>)
    ensures Tail(list + [cs]) == Tail(list) + [Comma] + Quoted(cs)
  {
    if list != [] {
      assert (list + [cs])[1..] == list[1..] + [cs];
      TailSnoc(list[1..], cs);
    }
  }

  lemma PartsSnoc(list: seq<seq<Rune>>, cs: seq<Rune>)
    ensures Parts(list + [cs]) == Parts(list) + (if list == [] then [] else [Comma]) + Quoted(cs)
  {
    if list == [] {
      assert ([] + [cs])[1..] == [];
    } else {
      assert (list + [cs])[1..] == list[1..] + [cs];
      TailSnoc(list[1..], cs);
      AppendTwice(Quoted(list[0]), Tail(list[1..]), [Comma], Quoted(cs));
    }
  }

  lemma AppendTwice(p: Bytes, q: Bytes, x: Bytes, y: Bytes)
    ensures p + (q + x + y) == p + q + x + y
  {
  }

  method TomlString(cs: seq<Rune>) returns (text: Bytes)
    ensures text == Quoted(cs)
  {
    text := [Quote];
    var k := 0;
    while k < |cs|
      invariant 0 <= k <= |cs| && text == [Quote] + Escaped(cs[..k])
    {
      assert cs[..k + 1] == cs[..k] + [cs[k]];
      EscapedSnoc(cs[..k], cs[k]);
      AppendBehind([Quote], Escaped(cs[..k]), Escape(cs[k]));
      text := text + Escape(cs[k]);
      k := k + 1;
    }
    assert cs[..k] == cs;
    text := text + [Quote];
  }

  method TomlStrings(list: seq<seq<Rune>>) returns (text: Bytes)
    ensures text == Printed(list)
  {
    var joined: Bytes := [];
    var k := 0;
    while k < |list|
      invariant 0 <= k <= |list| && joined == Parts(list[..k])
    {
      var part := TomlString(list[k]);
      assert list[..k + 1] == list[..k] + [list[k]];
      PartsSnoc(list[..k], list[k]);
      joined := joined + (if k > 0 then [Comma] else []) + part;
      k := k + 1;
    }
    assert list[..k] == list;
    text := [Opening] + joined + [Closing];
  }

  // ---- what the parser reads, on the text not yet read --------------------------------------

  predicate White(b: byte) {
    b == Blank || b == Tab || b == Return || b == Newline
  }

  /** From a comment's "#" on: the text from the end of its line. */
  function PastComment(s: Bytes): (r: Bytes)
    ensures |r| <= |s|
  {
    if s == [] || s[0] == Newline then s else PastComment(s[1..])
  }

  function Skip(s: Bytes): (r: Bytes)
    ensures |r| <= |s|
    decreases |s|
  {
    if s != [] && White(s[0]) then Skip(s[1..])
    else if s != [] && s[0] == Hash then Skip(PastComment(s[1..]))
    else s
  }

  function HexValue(b: byte): Option<nat> {
    if 48 <= b <= 57 then Some((b - 48) as nat)
    else if 65 <= b <= 70 then Some((b - 55) as nat)
    else if 97 <= b <= 102 then Some((b - 87) as nat)
    else None
  }

  function ParseHex(s: Bytes): Option<nat> {
    if s == [] then Some(0)
    else
      match (ParseHex(s[..|s| - 1]), HexValue(s[|s| - 1]))
      case (Some(n), Some(d)) => Some(16 * n + d)
      case _ => None
  }

  /** One turn of the loop inside a string. */
  datatype Turn = Fails | Closes(rest: Bytes) | Writes(out: Bytes, rest: Bytes)

  /** After a backslash. */
  function ReadEscape(s: Bytes): (t: Turn)
    ensures t.Writes? ==> |t.rest| < |s|
  {
    if s == [] then Fails
    else if s[0] == LetterN then Writes([Newline], s[1..])
    else if s[0] == LetterT then Writes([Tab], s[1..])
    else if s[0] == LetterR then Writes([Return], s[1..])
    else if s[0] == Quote || s[0] == Backslash then Writes([s[0]], s[1..])
    else if s[0] == LetterU || s[0] == CapitalU then
      var n := if s[0] == LetterU then 4 else 8;
      if |s| <= n then Fails
      else
        match ParseHex(s[1..1 + n])
        case None => Fails
        case Some(r) => Writes(WriteRune(r), s[1 + n..])
    else Fails
  }

  function ReadChar(s: Bytes, q: byte): (t: Turn)
    ensures !t.Fails? ==> |t.rest| < |s|
  {
    if s == [] then Fails
    else if s[0] == q then Closes(s[1..])
    else if s[0] == Newline && q == Apostrophe then Fails
    else if s[0] == Backslash && q == Quote then ReadEscape(s[1..])
    else Writes([s[0]], s[1..])
  }

  /** A string's contents and the text after its closing quote. */
  function ReadString(s: Bytes, q: byte): (r: Option<(Bytes, Bytes)>)
    ensures r.Some? ==> |r.value.1| < |s|
    decreases |s|
  {
    match ReadChar(s, q)
    case Fails => None
    case Closes(rest) => Some(([], rest))
    case Writes(out, rest) => Prepend(out, ReadString(rest, q))
  }

  function Prepend(out: Bytes, r: Option<(Bytes, Bytes)>): Option<(Bytes, Bytes)> {
    match r
    case None => None
    case Some(p) => Some((out + p.0, p.1))
  }

  /** Where one turn of the array loop stands: no array, its end, or a string's quote. */
  datatype Place = Broken | Ended | AtQuote(rest: Bytes)

  function Element(s: Bytes, first: bool): (p: Place)
    ensures p.AtQuote? ==> p.rest != [] && |p.rest| <= |s|
  {
    var s := Skip(s);
    if s == [] then Broken
    else if s[0] == Closing then Ended
    else if !first && s[0] != Comma then Broken
    else
      var s := if first then s else Skip(s[1..]);
      if s == [] then Broken
      else if !first && s[0] == Closing then Ended
      else if s[0] == Quote || s[0] == Apostrophe then AtQuote(s)
      else Broken
  }

  /** The rest of an array, after "[" or after a string. */
  function Elements(s: Bytes, first: bool): Option<seq<Bytes>>
    decreases |s|
  {
    match Element(s, first)
    case Broken => None
    case Ended => Some([])
    case AtQuote(t) =>
      match ReadString(t[1..], t[0])
      case None => None
      case Some(p) =>
        match Elements(p.1, false)
        case None => None
        case Some(list) => Some([p.0] + list)
  }

  function Parsed(s: Bytes): Option<seq<Bytes>> {
    var t := Skip(s);
    if t == [] || t[0] != Opening then None else Elements(t[1..], true)
  }

  // ---- the parser itself, on an index --------------------------------------------------------

  method SkipComment(s: Bytes, start: nat) returns (i: nat)
    requires start <= |s|
    ensures start <= i <= |s| && s[i..] == PastComment(s[start..])
  {
    i := start;
    while i < |s| && s[i] != Newline
      invariant start <= i <= |s| && PastComment(s[i..]) == PastComment(s[start..])
    {
      assert s[i..][1..] == s[i + 1..];
      i := i + 1;
    }
  }

  method SkipFrom(s: Bytes, start: nat) returns (i: nat)
    requires start <= |s|
    ensures start <= i <= |s| && s[i..] == Skip(s[start..])
  {
    i := start;
    while i < |s|
      invariant start <= i <= |s| && Skip(s[i..]) == Skip(s[start..])
      decreases |s| - i
    {
      if White(s[i]) {
        assert s[i..][1..] == s[i + 1..];
        i := i + 1;
      } else if s[i] == Hash {
        assert s[i..][1..] == s[i + 1..];
        i := SkipComment(s, i + 1);
      } else {
        return;
      }
    }
  }

  /** One string from its opening quote at i on; ok is false where the parser gives up. */
  method ScanString(s: Bytes, start: nat) returns (ok: bool, text: Bytes, i: nat)
    requires start < |s|
    ensures start < i
    ensures ReadString(s[start + 1..], s[start]) == if ok && i <= |s| then Some((text, s[i..])) else None
    ensures ok ==> i <= |s|
  {
    var q := s[start];
    i, text := start + 1, [];
    PrependNothing(ReadString(s[i..], q));
    ghost var whole := ReadString(s[i..], q);
    while true
      invariant start < i <= |s| && whole == Prepend(text, ReadString(s[i..], q))
      decreases |s| - i
    {
      var closed, out, j := ScanChar(s, i, q);
      if j == 0 {
        return false, text, i;
      }
      if closed {
        assert text + [] == text;
        return true, text, j;
      }
      WriteOut(text, s[i..], q, out, s[j..]);
      text, i := text + out, j;
    }
  }

  /** One turn of that loop at i: the closing quote, or what is written; j is 0 for neither. */
  method ScanChar(s: Bytes, i: nat, q: byte) returns (closed: bool, out: Bytes, j: nat)
    requires 0 < i <= |s|
    ensures j == 0 || i < j <= |s|
    ensures ReadChar(s[i..], q)
        == if j == 0 || j > |s| then Fails else if closed then Closes(s[j..]) else Writes(out, s[j..])
  {
    if i >= |s| {
      return false, [], 0;
    }
    var c := s[i];
    assert s[i..][1..] == s[i + 1..];
    if c == q {
      return true, [], i + 1;
    }
    if (c == Newline && q == Apostrophe) || (c == Backslash && q == Quote && i + 1 >= |s|) {
      return false, [], 0;
    }
    if c == Backslash && q == Quote {
      closed := false;
      out, j := ScanEscape(s, i + 1);
      return;
    }
    return false, [c], i + 1;
  }

  /** The escape after the backslash before i; 0 for none. */
  method ScanEscape(s: Bytes, i: nat) returns (out: Bytes, j: nat)
    requires 0 < i < |s|
    ensures ReadEscape(s[i..]) == if 0 < j <= |s| then Writes(out, s[j..]) else Fails
    ensures j == 0 || i < j <= |s|
  {
    var c := s[i];
    assert s[i..][1..] == s[i + 1..];
    if c == LetterN {
      return [Newline], i + 1;
    } else if c == LetterT {
      return [Tab], i + 1;
    } else if c == LetterR {
      return [Return], i + 1;
    } else if c == Quote || c == Backslash {
      return [c], i + 1;
    } else if c == LetterU || c == CapitalU {
      var n := if c == CapitalU then 8 else 4;
      if i + n >= |s| {
        return [], 0;
      }
      assert s[i..][1..1 + n] == s[i + 1..i + 1 + n] && s[i..][1 + n..] == s[i + 1 + n..];
      var r := ParseHex(s[i + 1..i + 1 + n]);
      if r == None {
        return [], 0;
      }
      return WriteRune(r.value), i + 1 + n;
    } else {
      return [], 0;
    }
  }

  lemma PrependNothing(r: Option<(Bytes, Bytes)>)
    ensures Prepend([], r) == r
  {
    assert r.Some? ==> [] + r.value.0 == r.value.0;
  }

  lemma PrependTwice(a: Bytes, b: Bytes, r: Option<(Bytes, Bytes)>)
    ensures Prepend(a, Prepend(b, r)) == Prepend(a + b, r)
  {
    if r.Some? {
      assert a + (b + r.value.0) == a + b + r.value.0;
    }
  }

  lemma WriteOut(text: Bytes, left: Bytes, q: byte, out: Bytes, rest: Bytes)
    requires ReadChar(left, q) == Writes(out, rest)
    ensures Prepend(text, ReadString(left, q)) == Prepend(text + out, ReadString(rest, q))
  {
    PrependTwice(text, out, ReadString(rest, q));
  }

  function Onto(out: seq<Bytes>, r: Option<seq<Bytes>>): Option<seq<Bytes>> {
    match r
    case None => None
    case Some(list) => Some(out + list)
  }

  /** One turn of the array loop up to a string's quote; i is where it stands. */
  method ScanElement(s: Bytes, start: nat, first: bool) returns (ended: bool, i: nat)
    requires start <= |s|
    ensures start <= i <= |s|
    ensures Element(s[start..], first) == if ended then Ended else if i < |s| then AtQuote(s[i..]) else Broken
  {
    i := SkipFrom(s, start);
    if i >= |s| {
      return false, |s|;
    }
    if s[i] == Closing {
      return true, i;
    }
    if !first {
      if s[i] != Comma {
        return false, |s|;
      }
      assert s[i..][1..] == s[i + 1..];
      i := SkipFrom(s, i + 1);
      if i >= |s| {
        return false, |s|;
      }
      if s[i] == Closing {
        return true, i;
      }
    }
    if s[i] != Quote && s[i] != Apostrophe {
      return false, |s|;
    }
    return false, i;
  }

  method TomlStringArray(s: Bytes) returns (list: Option<seq<Bytes>>)
    ensures list == Parsed(s)
  {
    assert s[0..] == s;
    var i := SkipFrom(s, 0);
    if i >= |s| || s[i] != Opening {
      return None;
    }
    assert s[i..][1..] == s[i + 1..];
    i := i + 1;
    var out: seq<Bytes> := [];
    OntoNothing(Elements(s[i..], true));
    while true
      invariant 0 <= i <= |s|
      invariant Parsed(s) == Onto(out, Elements(s[i..], out == []))
      decreases |s| - i
    {
      ghost var at, first := i, out == [];
      var ended;
      ended, i := ScanElement(s, i, |out| == 0);
      if ended {
        assert out + [] == out;
        return Some(out);
      }
      if i >= |s| {
        return None;
      }
      assert s[i..][1..] == s[i + 1..];
      var ok, text, next := ScanString(s, i);
      if !ok {
        return None;
      }
      assert Elements(s[at..], first) == Onto([text], Elements(s[next..], false));
      OntoTwice(out, text, Elements(s[next..], false));
      out, i := out + [text], next;
    }
  }

  lemma OntoNothing(r: Option<seq<Bytes>>)
    ensures Onto([], r) == r
  {
    assert r.Some? ==> [] + r.value == r.value;
  }

  lemma OntoTwice(out: seq<Bytes>, text: Bytes, r: Option<seq<Bytes>>)
    ensures Onto(out, Onto([text], r)) == Onto(out + [text], r)
  {
    if r.Some? {
      assert out + ([text] + r.value) == out + [text] + r.value;
    }
  }

  // ---- the round trip --------------------------------------------------------------------

  lemma {:induction false} PlainBytes(p: Bytes, rest: Bytes)
    requires forall i :: 0 <= i < |p| ==> p[i] != Quote && p[i] != Backslash
    ensures ReadString(p + rest, Quote) == Prepend(p, ReadString(rest, Quote))
    decreases |p|
  {
    if p == [] {
      assert p + rest == rest;
      PrependNothing(ReadString(rest, Quote));
    } else {
      assert (p + rest)[1..] == p[1..] + rest && p == [p[0]] + p[1..];
      PlainBytes(p[1..], rest);
      PrependTwice([p[0]], p[1..], ReadString(rest, Quote));
    }
  }

  lemma HexPair(r: nat)
    requires r < 128
    ensures ParseHex([48, 48, HexDigit(r / 16), HexDigit(r % 16)]) == Some(r)
  {
    var a, b := HexDigit(r / 16), HexDigit(r % 16);
    var s := [48, 48, a, b];
    assert s[..3] == [48, 48, a] && s[..3][..2] == [48, 48] && s[..3][..2][..1] == [48] && s[..3][..2][..1][..0] == [];
    assert ParseHex([48]) == Some(0);
    assert ParseHex(s[..3][..2]) == Some(0);
    assert ParseHex(s[..3]) == Some(r / 16);
  }

  lemma ReadHex(r: nat, rest: Bytes)
    requires r < 128
    ensures ReadString([Backslash, LetterU, 48, 48, HexDigit(r / 16), HexDigit(r % 16)] + rest, Quote)
         == Prepend(Utf8(r), ReadString(rest, Quote))
  {
    var e := [LetterU, 48, 48, HexDigit(r / 16), HexDigit(r % 16)] + rest;
    var s := [Backslash, LetterU, 48, 48, HexDigit(r / 16), HexDigit(r % 16)] + rest;
    assert s[1..] == e;
    assert e[1..5] == [48, 48, HexDigit(r / 16), HexDigit(r % 16)] && e[5..] == rest;
    HexPair(r);
    assert ReadChar(s, Quote) == ReadEscape(e) == Writes(Utf8(r), rest);
  }

  /** Reading what one code point was escaped to. */
  lemma ReadEscaped(r: Rune, rest: Bytes)
    ensures ReadString(Escape(r) + rest, Quote) == Prepend(Utf8(r), ReadString(rest, Quote))
  {
    var s := Escape(r) + rest;
    if r == 34 || r == 92 || r == 10 || r == 9 || r == 13 {
      assert s[1..][1..] == rest;
    } else if r < 0x20 || r == 0x7F {
      ReadHex(r, rest);
    } else {
      PlainBytes(Utf8(r), rest);
    }
  }

  lemma {:induction false} ReadQuoted(cs: seq<Rune>, rest: Bytes)
    ensures ReadString(Escaped(cs) + [Quote] + rest, Quote) == Some((Encode(cs), rest))
    decreases |cs|
  {
    if cs == [] {
      assert ([Quote] + rest)[1..] == rest && Escaped(cs) + [Quote] + rest == [Quote] + rest;
    } else {
      var more := Escaped(cs[1..]) + [Quote] + rest;
      assert Escaped(cs) + [Quote] + rest == Escape(cs[0]) + more;
      ReadQuoted(cs[1..], rest);
      ReadEscaped(cs[0], more);
    }
  }

  function EncodeAll(list: seq<seq<Rune>>): (out: seq<Bytes>)
    ensures |out| == |list| && forall i :: 0 <= i < |list| ==> out[i] == Encode(list[i])
  {
    seq(|list|, i requires 0 <= i < |list| => Encode(list[i]))
  }

  lemma ElementQuoted(cs: seq<Rune>, rest: Bytes, first: bool)
    ensures var s := (if first then [] else [Comma]) + Quoted(cs) + rest;
      Element(s, first) == AtQuote(Quoted(cs) + rest)
  {
    var s := (if first then [] else [Comma]) + Quoted(cs) + rest;
    assert Skip(s) == s;
    if first {
      assert s == Quoted(cs) + rest;
    } else {
      assert s[1..] == Quoted(cs) + rest && Skip(s[1..]) == s[1..];
    }
  }

  lemma QuotedFront(cs: seq<Rune>, rest: Bytes)
    ensures var t := Quoted(cs) + rest;
      t[0] == Quote && t[1..] == Escaped(cs) + [Quote] + rest
  {
  }

  lemma ElementsFrom(s: Bytes, first: bool, cs: seq<Rune>, rest: Bytes)
    requires Element(s, first) == AtQuote(Quoted(cs) + rest)
    ensures Elements(s, first) == Onto([Encode(cs)], Elements(rest, false))
  {
    QuotedFront(cs, rest);
    ReadQuoted(cs, rest);
  }

  lemma ElementsQuoted(cs: seq<Rune>, rest: Bytes, first: bool)
    ensures Elements((if first then [] else [Comma]) + Quoted(cs) + rest, first)
        == Onto([Encode(cs)], Elements(rest, false))
  {
    ElementQuoted(cs, rest, first);
    ElementsFrom((if first then [] else [Comma]) + Quoted(cs) + rest, first, cs, rest);
  }

  lemma EncodeFront(list: seq<seq<Rune>>)
    requires list != []
    ensures EncodeAll(list) == [Encode(list[0])] + EncodeAll(list[1..])
  {
  }

  lemma NoElements(first: bool)
    ensures Elements([Closing], first) == Some([]) && EncodeAll([]) == []
  {
    assert Skip([Closing]) == [Closing];
  }

  lemma {:induction false} TailReads(list: seq<seq<Rune>>)
    ensures Elements(Tail(list) + [Closing], false) == Some(EncodeAll(list))
    decreases |list|
  {
    if list == [] {
      NoElements(false);
      assert Tail(list) + [Closing] == [Closing];
    } else {
      var rest := Tail(list[1..]) + [Closing];
      AppendBehind([Comma] + Quoted(list[0]), Tail(list[1..]), [Closing]);
      ElementsQuoted(list[0], rest, false);
      TailReads(list[1..]);
      EncodeFront(list);
    }
  }

  lemma PartsRead(list: seq<seq<Rune>>)
    ensures Elements(Parts(list) + [Closing], true) == Some(EncodeAll(list))
  {
    if list == [] {
      NoElements(true);
      assert Parts(list) + [Closing] == [Closing];
    } else {
      var rest := Tail(list[1..]) + [Closing];
      AppendBehind(Quoted(list[0]), Tail(list[1..]), [Closing]);
      assert [] + Quoted(list[0]) == Quoted(list[0]);
      ElementsQuoted(list[0], rest, true);
      TailReads(list[1..]);
      EncodeFront(list);
    }
  }

  lemma Opens(s: Bytes)
    ensures Parsed([Opening] + s) == Elements(s, true)
  {
    assert Skip([Opening] + s) == [Opening] + s && ([Opening] + s)[1..] == s;
  }

  /** Every list of strings is read back from what was printed for it. */
  lemma RoundTrip(list: seq<seq<Rune>>)
    ensures Parsed(Printed(list)) == Some(EncodeAll(list))
  {
    AppendBehind([Opening], Parts(list), [Closing]);
    Opens(Parts(list) + [Closing]);
    PartsRead(list);
  }

  // ---- prefix stability --------------------------------------------------------------------

  lemma {:induction false} CommentStable(s: Bytes, t: Bytes)
    ensures PastComment(s) != [] ==> PastComment(s + t) == PastComment(s) + t
  {
    if s != [] && s[0] != Newline {
      assert (s + t)[1..] == s[1..] + t;
      CommentStable(s[1..], t);
    }
  }

  lemma {:induction false} SkipStable(s: Bytes, t: Bytes)
    ensures Skip(s) != [] ==> Skip(s + t) == Skip(s) + t
    decreases |s|
  {
    if s != [] {
      assert (s + t)[1..] == s[1..] + t;
      if White(s[0]) {
        SkipStable(s[1..], t);
      } else if s[0] == Hash {
        CommentStable(s[1..], t);
        SkipStable(PastComment(s[1..]), t);
      }
    }
  }

  function Extend(turn: Turn, t: Bytes): Turn {
    match turn
    case Fails => Fails
    case Closes(rest) => Closes(rest + t)
    case Writes(out, rest) => Writes(out, rest + t)
  }

  lemma CharStable(s: Bytes, q: byte, t: Bytes)
    ensures !ReadChar(s, q).Fails? ==> ReadChar(s + t, q) == Extend(ReadChar(s, q), t)
  {
    if s != [] {
      assert (s + t)[1..] == s[1..] + t;
      if s[0] == Backslash && q == Quote && |s| > 1 {
        var e := s[1..];
        assert (e + t)[1..] == e[1..] + t;
        if |e| > 4 {
          assert (e + t)[1..5] == e[1..5] && (e + t)[5..] == e[5..] + t;
        }
        if |e| > 8 {
          assert (e + t)[1..9] == e[1..9] && (e + t)[9..] == e[9..] + t;
        }
      }
    }
  }

  lemma {:induction false} StringStable(s: Bytes, q: byte, t: Bytes)
    requires ReadString(s, q).Some?
    ensures ReadString(s + t, q) == Some((ReadString(s, q).value.0, ReadString(s, q).value.1 + t))
    decreases |s|
  {
    CharStable(s, q, t);
    if ReadChar(s, q).Writes? {
      StringStable(ReadChar(s, q).rest, q, t);
    }
  }

  lemma ElementStable(s: Bytes, first: bool, t: Bytes)
    ensures Element(s, first).Ended? ==> Element(s + t, first).Ended?
    ensures Element(s, first).AtQuote? ==> Element(s + t, first) == AtQuote(Element(s, first).rest + t)
  {
    SkipStable(s, t);
    var u := Skip(s);
    if u != [] && !first {
      assert (u + t)[1..] == u[1..] + t;
      SkipStable(u[1..], t);
    }
  }

  lemma {:induction false} ElementsStable(s: Bytes, first: bool, t: Bytes)
    requires Elements(s, first).Some?
    ensures Elements(s + t, first) == Elements(s, first)
    decreases |s|
  {
    ElementStable(s, first, t);
    match Element(s, first)
    case Ended =>
    case AtQuote(u) =>
      assert (u + t)[1..] == u[1..] + t;
      StringStable(u[1..], u[0], t);
      ElementsStable(ReadString(u[1..], u[0]).value.1, false, t);
  }

  /** Once a text is accepted, whatever follows it changes nothing. */
  lemma PrefixStable(s: Bytes, t: Bytes)
    requires Parsed(s).Some?
    ensures Parsed(s + t) == Parsed(s)
  {
    SkipStable(s, t);
    var u := Skip(s);
    assert (u + t)[1..] == u[1..] + t;
    ElementsStable(u[1..], true, t);
  }

  // ---- reading a configuration line by line ---------------------------------------------------

  /** The value's text: what follows "=" on its line, and all the lines after. */
  function Whole(value: Bytes, more: seq<Bytes>): Bytes {
    if more == [] then value else Whole(value, more[..|more| - 1]) + [Newline] + more[|more| - 1]
  }

  lemma {:induction false} WholeStable(value: Bytes, more: seq<Bytes>, n: nat)
    requires n <= |more| && Parsed(Whole(value, more[..n])).Some?
    ensures Parsed(Whole(value, more)) == Parsed(Whole(value, more[..n]))
    decreases |more|
  {
    if n == |more| {
      assert more[..n] == more;
    } else {
      var front := more[..|more| - 1];
      assert front[..n] == more[..n];
      WholeStable(value, front, n);
      var w := Whole(value, front);
      assert Whole(value, more) == w + ([Newline] + more[|more| - 1]);
      PrefixStable(w, [Newline] + more[|more| - 1]);
    }
  }

  /** A line of the file before the array: the tables begin, another line, or the key with
      the value's first line. */
  datatype Line = Table | Unrelated | Key(value: Bytes)

  lemma WholeJoins(value: Bytes, more: seq<Bytes>, line: Bytes)
    ensures Whole(value, []) == value
    ensures Whole(value, more + [line]) == Whole(value, more) + [10] + line
  {
    assert (more + [line])[..|more|] == more;
  }

  function Notify(read: Bytes -> Line, lines: seq<Bytes>): Option<seq<Bytes>> {
    if lines == [] then None
    else
      match read(lines[0])
      case Table => None
      case Unrelated => Notify(read, lines[1..])
      case Key(value) => Parsed(Whole(value, lines[1..]))
  }

  /** The value is that of the first line with the key, unless a table comes before it. */
  lemma {:induction false} NotifyIs(read: Bytes -> Line, lines: seq<Bytes>, i: nat)
    requires i <= |lines| && forall j :: 0 <= j < i ==> read(lines[j]).Unrelated?
    ensures i == |lines| || read(lines[i]).Table? ==> Notify(read, lines).None?
    ensures i < |lines| && read(lines[i]).Key? ==>
      Notify(read, lines) == Parsed(Whole(read(lines[i]).value, lines[i + 1..]))
    decreases i
  {
    if i > 0 {
      assert i < |lines| ==> lines[1..][i..] == lines[i + 1..];
      assert forall j :: 0 <= j < i - 1 ==> lines[1..][j] == lines[j + 1];
      NotifyIs(read, lines[1..], i - 1);
    }
  }

  /** The line-by-line feed: it stops at the first line that completes the array, and finds
      what parsing everything from the value on would. Read is how a trimmed line reads. */
  method CodexNotify(read: Bytes -> Line, lines: seq<Bytes>) returns (list: Option<seq<Bytes>>)
    ensures list == Notify(read, lines)
  {
    var arr, found := [], false;
    ghost var more: seq<Bytes>, value: Bytes, k := [], [], 0;
    var n := 0;
    assert lines[0..] == lines;
    while n < |lines|
      invariant 0 <= n <= |lines|
      invariant !found ==> Notify(read, lines[n..]) == Notify(read, lines)
      invariant found ==> 0 <= k <= |more| && lines[n..] == more[k..] && arr == Whole(value, more[..k])
      invariant found ==> Parsed(arr) == None && Notify(read, lines) == Parsed(Whole(value, more))
    {
      var line := lines[n];
      assert lines[n..][0] == line && lines[n..][1..] == lines[n + 1..];
      if !found {
        match read(line) {
          case Table => return None;
          case Unrelated =>
          case Key(v) =>
            more, value, k := lines[n + 1..], v, 0;
            found, arr := true, v;
        }
      } else {
        assert more[k] == line && more[k + 1..] == more[k..][1..];
        assert more[..k + 1][..k] == more[..k];
        arr, k := arr + [Newline] + line, k + 1;
      }
      n := n + 1;
      if found {
        list := TomlStringArray(arr);
        if list.Some? {
          WholeStable(value, more, k);
          return;
        }
      }
    }
    assert found ==> more[k..] == [] && more[..k] == more;
    return None;
  }
}
