/** Whole numbers as JSON writes them. */
module Decimals {
  import opened Base

  const Minus: byte := 45

  function Decimal(n: int): Bytes
    decreases if n < 0 then 1 - n else n
  {
    if n < 0 then [Minus] + Decimal(-n)
    else if n < 10 then [(48 + n) as byte]
    else Decimal(n / 10) + [(48 + n % 10) as byte]
  }

  predicate NumberByte(b: byte) {
    b == Minus || 48 <= b <= 57
  }

  lemma {:induction false} DecimalBytes(n: int)
    ensures Decimal(n) != [] && forall i :: 0 <= i < |Decimal(n)| ==> NumberByte(Decimal(n)[i])
    ensures n >= 0 ==> Decimal(n)[0] != Minus
    decreases if n < 0 then 1 - n else n
  {
    if n < 0 {
      DecimalBytes(-n);
    } else if n >= 10 {
      DecimalBytes(n / 10);
    }
  }

  /** Different numbers are written differently. */
  lemma {:induction false} DecimalInjective(m: int, n: int)
    requires Decimal(m) == Decimal(n)
    ensures m == n
    decreases if m < 0 then 1 - m else m
  {
    DecimalBytes(m);
    DecimalBytes(n);
    if m < 0 {
      assert n < 0;
      assert Decimal(m)[1..] == Decimal(-m) && Decimal(n)[1..] == Decimal(-n);
      DecimalInjective(-m, -n);
    } else {
      assert n >= 0;
      if m >= 10 && n >= 10 {
        var p, q := Decimal(m / 10), Decimal(n / 10);
        assert Decimal(m)[..|p|] == p && Decimal(n)[..|q|] == q && |p| == |q|;
        assert Decimal(m)[|p|] == Decimal(n)[|q|];
        DecimalInjective(m / 10, n / 10);
      } else if m >= 10 {
        DecimalBytes(m / 10);
      } else if n >= 10 {
        DecimalBytes(n / 10);
      }
    }
  }

  /** A number ends where something else begins. */
  lemma NumberEnds(m: int, x: Bytes, n: int, y: Bytes)
    requires x != [] && y != [] && !NumberByte(x[0]) && !NumberByte(y[0])
    requires Decimal(m) + x <= Decimal(n) + y
    ensures m == n && x <= y
  {
    var p, q := Decimal(m), Decimal(n);
    DecimalBytes(m);
    DecimalBytes(n);
    var i := if |q| < |p| then |q| else |p|;
    assert (p + x)[i] == (q + y)[i];
    assert |p| == |q|;
    assert p == (p + x)[..|p|] == (q + y)[..|q|] == q;
    DecimalInjective(m, n);
    assert x == (p + x)[|p|..] && y == (q + y)[|q|..];
  }
}
