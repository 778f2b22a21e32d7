/** Base58 as Bitcoin and Solana write it (internal/peer/identity.go;
    draft-msporny-base58, sections 3 and 4): bytes as one big number in base 58, and a "1"
    for every leading zero byte. */
module Base58 {
  import opened Base

  // ---- numbers as digits, first digit first --------------------------------------------------

  type Digits = seq<nat>

  /** The two bases at hand: digits and bytes. */
  type Radix = n: nat | n == 58 || n == 256 witness 58

  ghost predicate Under(ds: Digits, base: Radix) {
    forall i :: 0 <= i < |ds| ==> ds[i] < base
  }

  function Times(n: nat, base: Radix): nat {
    if base == 58 then 58 * n else 256 * n
  }

  function Quotient(n: nat, base: Radix): nat {
    if base == 58 then n / 58 else n / 256
  }

  function Remainder(n: nat, base: Radix): (r: nat)
    ensures r < base
  {
    if base == 58 then n % 58 else n % 256
  }

  /** The number that digits stand for. */
  function Value(ds: Digits, base: Radix): nat {
    if ds == [] then 0 else Times(Value(ds[..|ds| - 1], base), base) + ds[|ds| - 1]
  }

  function DigitsOf(n: nat, base: Radix): Digits
    decreases n
  {
    if n == 0 then [] else DigitsOf(Quotient(n, base), base) + [Remainder(n, base)]
  }

  lemma Euclid(q: nat, r: nat, base: Radix)
    requires r < base
    ensures Quotient(Times(q, base) + r, base) == q && Remainder(Times(q, base) + r, base) == r
  {
  }

  lemma QuotientOf(n: nat, base: Radix)
    ensures n == Times(Quotient(n, base), base) + Remainder(n, base)
    ensures n > 0 ==> Quotient(n, base) < n
    ensures Quotient(n, base) == 0 ==> Remainder(n, base) == n
  {
  }

  lemma ValueSnoc(ds: Digits, d: nat, base: Radix)
    ensures Value(ds + [d], base) == Times(Value(ds, base), base) + d
  {
    assert (ds + [d])[..|ds|] == ds;
  }

  lemma {:induction false} DigitsMean(n: nat, base: Radix)
    ensures Under(DigitsOf(n, base), base) && Value(DigitsOf(n, base), base) == n
    ensures DigitsOf(n, base) != [] ==> DigitsOf(n, base)[0] != 0
    decreases n
  {
    if n > 0 {
      var front := DigitsOf(Quotient(n, base), base);
      QuotientOf(n, base);
      DigitsMean(Quotient(n, base), base);
      ValueSnoc(front, Remainder(n, base), base);
      assert DigitsOf(n, base) == front + [Remainder(n, base)];
    }
  }

  lemma {:induction false} ValuePositive(ds: Digits, base: Radix)
    requires ds != [] && ds[0] != 0
    ensures Value(ds, base) > 0
  {
    if |ds| > 1 {
      ValuePositive(ds[..|ds| - 1], base);
    }
  }

  /** Digits without a leading zero are the only ones of their number. */
  lemma {:induction false} DigitsUnique(ds: Digits, base: Radix)
    requires Under(ds, base) && (ds != [] ==> ds[0] != 0)
    ensures DigitsOf(Value(ds, base), base) == ds
  {
    if ds != [] {
      var front, last := ds[..|ds| - 1], ds[|ds| - 1];
      ValuePositive(ds, base);
      DigitsUnique(front, base);
      DigitsSnoc(Value(ds, base), Value(front, base), last, base);
      assert ds == front + [last];
    }
  }

  lemma DigitsSnoc(n: nat, q: nat, r: nat, base: Radix)
    requires n > 0 && r < base && n == Times(q, base) + r
    ensures DigitsOf(n, base) == DigitsOf(q, base) + [r]
  {
    Euclid(q, r, base);
  }

  function Zeros(ds: Digits): (z: nat)
    ensures z <= |ds| && (forall i :: 0 <= i < z ==> ds[i] == 0) && (z < |ds| ==> ds[z] != 0)
  {
    if ds == [] || ds[0] != 0 then 0 else 1 + Zeros(ds[1..])
  }

  function Repeat(z: nat): (ds: Digits)
    ensures |ds| == z && forall i :: 0 <= i < z ==> ds[i] == 0
  {
    seq(z, i => 0)
  }

  lemma ZerosAre(ds: Digits, z: nat)
    requires z <= |ds| && (forall i :: 0 <= i < z ==> ds[i] == 0) && (z < |ds| ==> ds[z] != 0)
    ensures Zeros(ds) == z
  {
  }

  lemma {:induction false} ZerosWorthNothing(z: nat, ds: Digits, base: Radix)
    ensures Value(Repeat(z) + ds, base) == Value(ds, base)
    decreases z + |ds|
  {
    if ds != [] {
      assert (Repeat(z) + ds)[..|Repeat(z) + ds| - 1] == Repeat(z) + ds[..|ds| - 1];
      ZerosWorthNothing(z, ds[..|ds| - 1], base);
    } else if z > 0 {
      assert (Repeat(z) + ds)[..z - 1] == Repeat(z - 1) + ds;
      ZerosWorthNothing(z - 1, ds, base);
    }
  }

  /** The same number in another base, with as many leading zeros. */
  function Convert(ds: Digits, src: Radix, dst: Radix): Digits
  {
    Repeat(Zeros(ds)) + DigitsOf(Value(ds, src), dst)
  }

  lemma ConvertMeans(ds: Digits, src: Radix, dst: Radix)
    ensures Value(Convert(ds, src, dst), dst) == Value(ds, src) && Zeros(Convert(ds, src, dst)) == Zeros(ds)
  {
    var n := Value(ds, src);
    DigitsMean(n, dst);
    ZerosWorthNothing(Zeros(ds), DigitsOf(n, dst), dst);
    ZerosAre(Convert(ds, src, dst), Zeros(ds));
  }

  lemma OwnDigits(ds: Digits, base: Radix)
    requires Under(ds, base)
    ensures Repeat(Zeros(ds)) + DigitsOf(Value(ds, base), base) == ds
  {
    var z := Zeros(ds);
    var body := ds[z..];
    assert ds == Repeat(z) + body;
    ZerosWorthNothing(z, body, base);
    DigitsUnique(body, base);
  }

  lemma ConvertUnder(ds: Digits, src: Radix, dst: Radix)
    ensures Under(Convert(ds, src, dst), dst)
  {
    DigitsMean(Value(ds, src), dst);
  }

  /** Converting back gives every string of digits, leading zeros and all. */
  lemma ConvertBack(ds: Digits, src: Radix, dst: Radix)
    requires Under(ds, src)
    ensures Under(Convert(ds, src, dst), dst) && Convert(Convert(ds, src, dst), dst, src) == ds
  {
    ConvertUnder(ds, src, dst);
    ConvertMeans(ds, src, dst);
    OwnDigits(ds, src);
  }

  // ---- the encoding -----------------------------------------------------------------------

  const Numbers := "123456789"
  const UpperAToH := "ABCDEFGH"
  const UpperJToN := "JKLMN"
  const UpperPToZ := "PQRSTUVWXYZ"
  const LowerAToK := "abcdefghijk"
  const LowerMToZ := "mnopqrstuvwxyz"

  /** Without 0, I, O and l. */
  const Alphabet := Numbers + (UpperAToH + (UpperJToN + (UpperPToZ + (LowerAToK + LowerMToZ))))

  function Char(d: nat): char
    requires d < 58
  {
    Alphabet[d]
  }

  /** The digit a character stands for. */
  function Digit(c: char): Option<nat> {
    if '1' <= c <= '9' then Some((c - '1') as nat)
    else if 'A' <= c <= 'H' then Some((c - 'A') as nat + 9)
    else if 'J' <= c <= 'N' then Some((c - 'J') as nat + 17)
    else if 'P' <= c <= 'Z' then Some((c - 'P') as nat + 22)
    else if 'a' <= c <= 'k' then Some((c - 'a') as nat + 33)
    else if 'm' <= c <= 'z' then Some((c - 'm') as nat + 44)
    else None
  }

  ghost predicate IsRun(s: string, first: char) {
    forall k :: 0 <= k < |s| ==> s[k] as int == first as int + k
  }

  lemma UpperRuns()
    ensures |Numbers| == 9 && |UpperAToH| == 8 && |UpperJToN| == 5
    ensures IsRun(Numbers, '1') && IsRun(UpperAToH, 'A') && IsRun(UpperJToN, 'J')
  {
  }

  lemma LowerRuns()
    ensures |UpperPToZ| == 11 && |LowerAToK| == 11 && |LowerMToZ| == 14
    ensures IsRun(UpperPToZ, 'P') && IsRun(LowerAToK, 'a') && IsRun(LowerMToZ, 'm')
  {
  }

  lemma InOneOf(a: string, b: string, k: nat)
    requires k < |a + b|
    ensures (a + b)[k] == if k < |a| then a[k] else b[k - |a|]
  {
  }

  lemma CharIs(d: nat)
    requires d < 58
    ensures Char(d) as int == d + if d < 9 then 49 else if d < 17 then 56 else if d < 22 then 57 else if d < 33 then 58
                                   else if d < 44 then 64 else 65
  {
    UpperRuns();
    LowerRuns();
    var past22 := UpperPToZ + (LowerAToK + LowerMToZ);
    var past9 := UpperAToH + (UpperJToN + past22);
    InOneOf(Numbers, past9, d);
    if d >= 9 {
      InOneOf(UpperAToH, UpperJToN + past22, d - 9);
    }
    if d >= 17 {
      InOneOf(UpperJToN, past22, d - 17);
    }
    if d >= 22 {
      InOneOf(UpperPToZ, LowerAToK + LowerMToZ, d - 22);
    }
    if d >= 33 {
      InOneOf(LowerAToK, LowerMToZ, d - 33);
    }
  }

  lemma DigitOfChar(d: nat)
    requires d < 58
    ensures Digit(Char(d)) == Some(d)
  {
    CharIs(d);
  }

  lemma CharOfDigit(c: char)
    requires Digit(c).Some?
    ensures Digit(c).value < 58 && Char(Digit(c).value) == c
  {
    DigitOfChar(Digit(c).value);
    SameDigit(c, Char(Digit(c).value));
  }

  lemma SameDigit(a: char, b: char)
    requires Digit(a).Some? && Digit(a) == Digit(b)
    ensures a == b
  {
  }

  function Chars(ds: Digits): (s: string)
    requires Under(ds, 58)
    ensures |s| == |ds| && forall i :: 0 <= i < |ds| ==> s[i] == Char(ds[i])
  {
    seq(|ds|, i requires 0 <= i < |ds| => Char(ds[i]))
  }

  function Plain(b: Bytes): (ds: Digits)
    ensures |ds| == |b| && Under(ds, 256) && forall i :: 0 <= i < |b| ==> ds[i] == b[i] as nat
  {
    seq(|b|, i requires 0 <= i < |b| => b[i] as nat)
  }

  function Bytewise(ds: Digits): (b: Bytes)
    requires Under(ds, 256)
    ensures |b| == |ds| && forall i :: 0 <= i < |ds| ==> b[i] as nat == ds[i]
  {
    seq(|ds|, i requires 0 <= i < |ds| => ds[i] as byte)
  }

  ghost predicate InAlphabet(s: string) {
    forall i :: 0 <= i < |s| ==> Digit(s[i]).Some?
  }

  function DigitsIn(s: string): (ds: Digits)
    requires InAlphabet(s)
    ensures |ds| == |s| && forall i :: 0 <= i < |s| ==> ds[i] == Digit(s[i]).value
  {
    seq(|s|, i requires 0 <= i < |s| => Digit(s[i]).value)
  }

  ghost function Encoded(b: Bytes): string {
    ConvertBack(Plain(b), 256, 58);
    Chars(Convert(Plain(b), 256, 58))
  }

  ghost function Decoded(s: string): Bytes
    requires InAlphabet(s)
  {
    DigitsUnder(s);
    ConvertBack(DigitsIn(s), 58, 256);
    Bytewise(Convert(DigitsIn(s), 58, 256))
  }

  lemma DigitsUnder(s: string)
    requires InAlphabet(s)
    ensures Under(DigitsIn(s), 58) && Chars(DigitsIn(s)) == s
  {
    forall i | 0 <= i < |s| ensures Digit(s[i]).value < 58 && Char(Digit(s[i]).value) == s[i] {
      CharOfDigit(s[i]);
    }
  }

  lemma CharsRead(ds: Digits)
    requires Under(ds, 58)
    ensures InAlphabet(Chars(ds)) && DigitsIn(Chars(ds)) == ds
  {
    forall i | 0 <= i < |ds| ensures Digit(Chars(ds)[i]) == Some(ds[i]) {
      DigitOfChar(ds[i]);
    }
  }

  /** The text is the number the bytes are, in base 58, behind a "1" for every zero byte in front. */
  lemma EncodedMeans(b: Bytes)
    ensures InAlphabet(Encoded(b))
    ensures Value(DigitsIn(Encoded(b)), 58) == Value(Plain(b), 256)
    ensures Zeros(DigitsIn(Encoded(b))) == Zeros(Plain(b))
  {
    var ds := Plain(b);
    ConvertBack(ds, 256, 58);
    CharsRead(Convert(ds, 256, 58));
    ConvertMeans(ds, 256, 58);
  }

  /** Decoding undoes encoding for every byte string, so no two have the same address. */
  lemma EncodeDecode(b: Bytes)
    ensures InAlphabet(Encoded(b)) && Decoded(Encoded(b)) == b
  {
    ConvertBack(Plain(b), 256, 58);
    CharsRead(Convert(Plain(b), 256, 58));
  }

  /** Encoding undoes decoding: every string over the alphabet encodes exactly one byte
      string. */
  lemma DecodeEncode(s: string)
    requires InAlphabet(s)
    ensures Encoded(Decoded(s)) == s
  {
    DigitsUnder(s);
    ConvertBack(DigitsIn(s), 58, 256);
    assert Plain(Decoded(s)) == Convert(DigitsIn(s), 58, 256);
  }

  // ---- the loop ---------------------------------------------------------------------------

  function Reversed(s: string): (r: string)
    ensures |r| == |s| && forall i :: 0 <= i < |s| ==> r[i] == s[|s| - 1 - i]
  {
    seq(|s|, i requires 0 <= i < |s| => s[|s| - 1 - i])
  }

  /** The swaps at the end of Encode. */
  method Reverse(s: string) returns (out: string)
    ensures out == Reversed(s)
  {
    out := s;
    var i, j := 0, |out| - 1;
    while i < j
      invariant |out| == |s| && 0 <= i <= |s| && j == |s| - 1 - i
      invariant forall k :: i <= k <= j ==> out[k] == s[k]
      invariant forall k :: 0 <= k < |s| && !(i <= k <= j) ==> out[k] == s[|s| - 1 - k]
      decreases j - i
    {
      var a, z := out[i], out[j];
      out := out[i := z][j := a];
      i, j := i + 1, j - 1;
    }
  }

  /** SetBytes: the bytes as one big-endian number. */
  method SetBytes(b: Bytes) returns (n: nat)
    ensures n == Value(Plain(b), 256)
  {
    n := 0;
    var i := 0;
    while i < |b|
      invariant 0 <= i <= |b| && n == Value(Plain(b)[..i], 256)
    {
      assert Plain(b)[..i + 1][..i] == Plain(b)[..i];
      n := n * 256 + b[i] as nat;
      i := i + 1;
    }
    assert Plain(b)[..i] == Plain(b);
  }

  /** The division loop: the digits of n, last first. */
  method DivideOut(n0: nat) returns (out: string)
    ensures var body := DigitsOf(n0, 58);
      |out| == |body| && Under(body, 58) && forall k :: 0 <= k < |out| ==> out[k] == Char(body[|body| - 1 - k])
  {
    ghost var done: Digits := [];
    DigitsMean(n0, 58);
    var n := n0;
    out := "";
    while n > 0
      invariant DigitsOf(n0, 58) == DigitsOf(n, 58) + done && |out| == |done| && Under(done, 58)
      invariant forall k :: 0 <= k < |out| ==> out[k] == Char(done[|done| - 1 - k])
      decreases n
    {
      AppendBehind(DigitsOf(n / 58, 58), [n % 58], done);
      done := [n % 58] + done;
      out := out + [Alphabet[n % 58]];
      n := n / 58;
    }
    assert [] + done == done;
  }

  method Ones(b: Bytes) returns (out: string)
    ensures |out| == Zeros(Plain(b)) && forall k :: 0 <= k < |out| ==> out[k] == '1'
  {
    out := "";
    var z := 0;
    while z < |b| && b[z] == 0
      invariant z <= Zeros(Plain(b)) && |out| == z && forall k :: 0 <= k < |out| ==> out[k] == '1'
    {
      out := out + ['1'];
      z := z + 1;
    }
  }

  /** Read backwards, the digits last first and then the ones are the zeros and then the digits. */
  lemma Assembled(body: Digits, z: nat, out: string, ones: string)
    requires Under(body, 58) && |out| == |body| && |ones| == z
    requires forall k :: 0 <= k < |out| ==> out[k] == Char(body[|body| - 1 - k])
    requires forall k :: 0 <= k < z ==> ones[k] == '1'
    ensures Under(Repeat(z) + body, 58) && Reversed(out + ones) == Chars(Repeat(z) + body)
  {
    UpperRuns();
    var text, all := Reversed(out + ones), Repeat(z) + body;
    forall k | 0 <= k < |text| ensures text[k] == Char(all[k]) {
      assert text[k] == (out + ones)[|text| - 1 - k];
    }
  }

  method Encode(b: Bytes) returns (text: string)
    ensures text == Encoded(b)
  {
    ghost var ds := Plain(b);
    ConvertBack(ds, 256, 58);
    var n := SetBytes(b);
    var out := DivideOut(n);
    var ones := Ones(b);
    Assembled(DigitsOf(n, 58), Zeros(ds), out, ones);
    out := out + ones;
    text := Reverse(out);
  }
}
