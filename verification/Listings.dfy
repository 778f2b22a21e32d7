/** Byte order and sorted listings: a set of records with distinct ids has one sorted list. */
module Listings {
  import opened Base

  /** bytes.Compare(a, b) < 0. */
  predicate Less(a: Bytes, b: Bytes) {
    if b == [] then false
    else if a == [] then true
    else if a[0] != b[0] then a[0] < b[0]
    else Less(a[1..], b[1..])
  }

  lemma {:induction false} LessTotal(a: Bytes, b: Bytes)
    ensures a == b ==> !Less(a, b)
    ensures a != b ==> (Less(a, b) <==> !Less(b, a))
    decreases |a| + |b|
  {
    if a != [] && b != [] && a[0] == b[0] {
      assert a == [a[0]] + a[1..] && b == [b[0]] + b[1..];
      LessTotal(a[1..], b[1..]);
    }
  }

  lemma {:induction false} LessTransitive(a: Bytes, b: Bytes, c: Bytes)
    requires Less(a, b) && Less(b, c)
    ensures Less(a, c)
    decreases |a|
  {
    if a != [] && a[0] == b[0] && b[0] == c[0] {
      LessTransitive(a[1..], b[1..], c[1..]);
    }
  }

  /** The order of a dictionary: at the first place where they differ the smaller byte, or the
      end, comes first. */
  ghost predicate DiffersAt(a: Bytes, b: Bytes, n: nat) {
    n <= |a| && n < |b| && a[..n] == b[..n] && (n == |a| || a[n] < b[n])
  }

  lemma {:induction false} LessIff(a: Bytes, b: Bytes)
    ensures Less(a, b) <==> exists n :: DiffersAt(a, b, n)
    decreases |a|
  {
    if a != [] && b != [] && a[0] == b[0] {
      LessIff(a[1..], b[1..]);
      forall n: nat ensures DiffersAt(a, b, n + 1) <==> DiffersAt(a[1..], b[1..], n) {
        DiffersFurther(a, b, n);
      }
      assert forall n: nat :: DiffersAt(a, b, n) ==> n > 0 && DiffersAt(a[1..], b[1..], n - 1);
      if n: nat :| DiffersAt(a[1..], b[1..], n) {
        assert DiffersAt(a, b, n + 1);
      }
    } else {
      assert Less(a, b) ==> DiffersAt(a, b, 0);
      forall n: nat | DiffersAt(a, b, n) ensures n == 0 {
        SameHeads(a, b, n);
      }
    }
  }

  lemma SameHeads(a: Bytes, b: Bytes, n: nat)
    requires DiffersAt(a, b, n)
    ensures n > 0 ==> a != [] && b != [] && a[0] == b[0]
  {
    if n > 0 {
      assert a[0] == a[..n][0] && b[0] == b[..n][0];
    }
  }

  lemma DiffersFurther(a: Bytes, b: Bytes, n: nat)
    requires a != [] && b != [] && a[0] == b[0]
    ensures DiffersAt(a, b, n + 1) <==> DiffersAt(a[1..], b[1..], n)
  {
    if n <= |a| - 1 && n < |b| - 1 {
      assert a[..n + 1] == [a[0]] + a[1..][..n] && b[..n + 1] == [b[0]] + b[1..][..n];
      assert a[1..][..n] == a[..n + 1][1..] && b[1..][..n] == b[..n + 1][1..];
    }
  }

  /** How records are listed: by a rank, then by id. */
  datatype Order<!T> = Order(rank: T -> int, id: T -> Bytes) {
    predicate Before(x: T, y: T) {
      rank(x) < rank(y) || (rank(x) == rank(y) && Less(id(x), id(y)))
    }
  }

  lemma BeforeTransitive<T>(o: Order<T>, x: T, y: T, z: T)
    requires o.Before(x, y) && o.Before(y, z)
    ensures o.Before(x, z)
  {
    if o.rank(x) == o.rank(z) {
      LessTransitive(o.id(x), o.id(y), o.id(z));
    }
  }

  lemma BeforeAsymmetric<T>(o: Order<T>, x: T, y: T)
    ensures !(o.Before(x, y) && o.Before(y, x))
    ensures o.id(x) != o.id(y) ==> o.Before(x, y) || o.Before(y, x)
  {
    LessTotal(o.id(x), o.id(y));
  }

  ghost predicate Sorted<T(!new)>(o: Order<T>, s: seq<T>) {
    forall i, j :: 0 <= i < j < |s| ==> o.Before(s[i], s[j])
  }

  /** A sorted list of exactly the values of a map. */
  ghost predicate IsListing<T(!new)>(o: Order<T>, s: seq<T>, m: map<Bytes, T>) {
    Sorted(o, s) && forall x :: x in s <==> x in m.Values
  }

  /** There is only one, whatever sorted it and whatever order it was collected in. */
  lemma {:induction false} ListingUnique<T(!new)>(o: Order<T>, s: seq<T>, t: seq<T>)
    requires Sorted(o, s) && Sorted(o, t)
    requires forall x :: x in s <==> x in t
    ensures s == t
    decreases |s|
  {
    HeadIn(s);
    HeadIn(t);
    if s != [] {
      HeadsAgree(o, s, t);
      forall x ensures x in s[1..] <==> x in t[1..] {
        TailMembers(o, s, x);
        TailMembers(o, t, x);
      }
      ListingUnique(o, s[1..], t[1..]);
      assert s == [s[0]] + s[1..] && t == [t[0]] + t[1..];
    }
  }

  lemma HeadIn<T>(s: seq<T>)
    ensures s != [] ==> s[0] in s
  {
  }

  lemma HeadsAgree<T(!new)>(o: Order<T>, s: seq<T>, t: seq<T>)
    requires s != [] && t != [] && Sorted(o, s) && Sorted(o, t) && s[0] in t && t[0] in s
    ensures s[0] == t[0]
  {
    var i :| 0 <= i < |s| && s[i] == t[0];
    var j :| 0 <= j < |t| && t[j] == s[0];
    if i != 0 && j != 0 {
      BeforeAsymmetric(o, s[0], t[0]);
    }
  }

  lemma TailMembers<T(!new)>(o: Order<T>, s: seq<T>, x: T)
    requires s != [] && Sorted(o, s)
    ensures x in s[1..] <==> x in s && x != s[0]
  {
    BeforeAsymmetric(o, s[0], s[0]);
    if x in s && x != s[0] {
      var i :| 0 <= i < |s| && s[i] == x;
      assert s[1..][i - 1] == x;
    }
    if x in s[1..] {
      var i :| 0 <= i < |s[1..]| && s[1..][i] == x;
      assert s[i + 1] == x && o.Before(s[0], s[i + 1]);
    }
  }

  /** Inserts before the first record that is not before x. */
  function Insert<T>(o: Order<T>, s: seq<T>, x: T): seq<T> {
    if s == [] then [x]
    else if o.Before(s[0], x) then [s[0]] + Insert(o, s[1..], x)
    else [x] + s
  }

  lemma {:induction false} InsertSorted<T(!new)>(o: Order<T>, s: seq<T>, x: T)
    requires Sorted(o, s) && forall y :: y in s ==> o.id(y) != o.id(x)
    ensures Sorted(o, Insert(o, s, x))
    ensures forall y :: y in Insert(o, s, x) <==> y == x || y in s
    decreases |s|
  {
    if s != [] {
      assert s[0] in s;
      BeforeAsymmetric(o, s[0], x);
      if o.Before(s[0], x) {
        InsertSorted(o, s[1..], x);
        var r := Insert(o, s[1..], x);
        forall y | y in r ensures o.Before(s[0], y) {
          if y in s[1..] {
            TailMembers(o, s, y);
            var i :| 0 <= i < |s[1..]| && s[1..][i] == y;
            assert s[i + 1] == y;
          }
        }
        assert forall i :: 0 < i < |[s[0]] + r| ==> ([s[0]] + r)[i] == r[i - 1];
        assert s == [s[0]] + s[1..];
      } else {
        forall i | 0 <= i < |s| ensures o.Before(x, s[i]) {
          if i > 0 {
            BeforeTransitive(o, x, s[0], s[i]);
          }
        }
        var r := [x] + s;
        assert forall i :: 0 < i < |r| ==> r[i] == s[i - 1];
      }
    }
  }

  /** The values of a map, collected in map order and sorted. */
  method ListValues<T(!new)>(o: Order<T>, m: map<Bytes, T>) returns (s: seq<T>)
    requires forall k :: k in m ==> o.id(m[k]) == k
    ensures IsListing(o, s, m)
  {
    s := [];
    var todo := m.Keys;
    while todo != {}
      invariant todo <= m.Keys && Sorted(o, s)
      invariant forall x :: x in s <==> exists k :: k in m && k !in todo && m[k] == x
      decreases todo
    {
      var k :| k in todo;
      forall y | y in s ensures o.id(y) != o.id(m[k]) {
      }
      InsertSorted(o, s, m[k]);
      s := Insert(o, s, m[k]);
      todo := todo - {k};
    }
  }

  lemma {:induction false} ListingExists<T(!new)>(o: Order<T>, m: map<Bytes, T>) returns (s: seq<T>)
    requires forall k :: k in m ==> o.id(m[k]) == k
    ensures IsListing(o, s, m)
    decreases |m|
  {
    if m == map[] {
      s := [];
    } else {
      var k :| k in m;
      var r := ListingExists(o, m - {k});
      InsertSorted(o, r, m[k]);
      s := Insert(o, r, m[k]);
      forall x ensures x in s <==> x in m.Values {
        if x in m.Values {
          var i :| i in m && m[i] == x;
          assert i != k ==> i in m - {k} && (m - {k})[i] == x;
        }
      }
    }
  }

  /** The listing of a map. */
  ghost function Listing<T(!new)>(o: Order<T>, m: map<Bytes, T>): (s: seq<T>)
    requires forall k :: k in m ==> o.id(m[k]) == k
    ensures IsListing(o, s, m)
  {
    assert exists s :: IsListing(o, s, m) by {
      var s := ListingExists(o, m);
    }
    var s :| IsListing(o, s, m);
    s
  }
}
