/** Documents of records with ids, united record by record: what the merge* functions of
    internal/peer/merge.go have in common. */
module Unions {
  import opened Base
  import opened Listings

  /** A document's records by id. */
  type Doc<T> = map<Bytes, T>

  ghost predicate Keyed<T>(id: T -> Bytes, d: Doc<T>) {
    forall k :: k in d ==> id(d[k]) == k
  }

  ghost predicate DistinctIds<T>(id: T -> Bytes, items: seq<T>) {
    forall i, j :: 0 <= i < j < |items| ==> id(items[i]) != id(items[j])
  }

  /** Every id of either document, with both records of a common id united by f. */
  function Join<T>(f: (T, T) -> T, a: Doc<T>, b: Doc<T>): Doc<T> {
    map k | k in a.Keys + b.Keys :: if k !in b then a[k] else if k !in a then b[k] else f(a[k], b[k])
  }

  /** The local side of a merge: a repeated id counts with its last record. */
  function Last<T>(id: T -> Bytes, items: seq<T>): (d: Doc<T>)
    ensures Keyed(id, d)
    ensures forall k :: k in d ==> d[k] in items
  {
    if items == [] then map[]
    else var x := items[|items| - 1]; Last(id, items[..|items| - 1])[id(x) := x]
  }

  lemma {:induction false} LastIs<T>(id: T -> Bytes, items: seq<T>, k: Bytes, i: nat)
    requires i <= |items| && forall j :: i <= j < |items| ==> id(items[j]) != k
    ensures i == 0 ==> k !in Last(id, items)
    ensures i > 0 && id(items[i - 1]) == k ==> k in Last(id, items) && Last(id, items)[k] == items[i - 1]
    decreases |items|
  {
    if i < |items| {
      var front := items[..|items| - 1];
      assert forall j :: 0 <= j < |front| ==> front[j] == items[j];
      LastIs(id, front, k, i);
    }
  }

  /** The remote side: its records are united one by one with what is there. */
  function Over<T>(f: (T, T) -> T, id: T -> Bytes, d: Doc<T>, items: seq<T>): Doc<T> {
    if items == [] then d
    else
      var x := items[|items| - 1];
      Join(f, Over(f, id, d, items[..|items| - 1]), map[id(x) := x])
  }

  /** A list with distinct ids counts as its document. */
  lemma {:induction false} OverDistinct<T>(f: (T, T) -> T, id: T -> Bytes, d: Doc<T>, items: seq<T>)
    requires DistinctIds(id, items)
    ensures Over(f, id, d, items) == Join(f, d, Last(id, items))
    decreases |items|
  {
    if items == [] {
      assert Join(f, d, map[]) == d;
    } else {
      var front, x := items[..|items| - 1], items[|items| - 1];
      OverDistinct(f, id, d, front);
      forall y | y in front ensures id(y) != id(x) {
        var i :| 0 <= i < |front| && front[i] == y;
        assert items[i] == y;
      }
      JoinFreshId(f, d, Last(id, front), id(x), x);
    }
  }

  /** A record of a new id may be united before or after. */
  lemma JoinFreshId<T>(f: (T, T) -> T, d: Doc<T>, e: Doc<T>, k: Bytes, x: T)
    requires k !in e
    ensures Join(f, Join(f, d, e), map[k := x]) == Join(f, d, e[k := x])
  {
  }

  /** f gives a record of the same id. */
  ghost predicate KeepsId<T(!new)>(f: (T, T) -> T, id: T -> Bytes) {
    forall x, y :: id(x) == id(y) ==> id(f(x, y)) == id(x)
  }

  lemma {:induction false} OverKeyed<T(!new)>(f: (T, T) -> T, id: T -> Bytes, d: Doc<T>, items: seq<T>)
    requires KeepsId(f, id) && Keyed(id, d)
    ensures Keyed(id, Over(f, id, d, items))
    decreases |items|
  {
    if items != [] {
      OverKeyed(f, id, d, items[..|items| - 1]);
    }
  }

  method IndexLocal<T>(id: T -> Bytes, local: seq<T>) returns (m: Doc<T>)
    ensures m == Last(id, local)
  {
    m := map[];
    var i := 0;
    while i < |local|
      invariant 0 <= i <= |local| && m == Last(id, local[..i])
    {
      assert local[..i + 1][..i] == local[..i];
      m := m[id(local[i]) := local[i]];
      i := i + 1;
    }
    assert local[..i] == local;
  }

  method UniteOver<T>(f: (T, T) -> T, id: T -> Bytes, d: Doc<T>, remote: seq<T>) returns (m: Doc<T>)
    ensures m == Over(f, id, d, remote)
  {
    m := d;
    var i := 0;
    while i < |remote|
      invariant 0 <= i <= |remote| && m == Over(f, id, d, remote[..i])
    {
      assert remote[..i + 1][..i] == remote[..i];
      var x := remote[i];
      assert Join(f, m, map[id(x) := x]) == m[id(x) := if id(x) in m then f(m[id(x)], x) else x];
      m := m[id(x) := if id(x) in m then f(m[id(x)], x) else x];
      i := i + 1;
    }
    assert remote[..i] == remote;
  }

  /** A listing carries the whole document. */
  lemma {:induction false} LastOfListing<T(!new)>(o: Order<T>, s: seq<T>, d: Doc<T>)
    requires Keyed(o.id, d) && IsListing(o, s, d)
    ensures Last(o.id, s) == d && DistinctIds(o.id, s)
  {
    forall i, j | 0 <= i < j < |s| ensures o.id(s[i]) != o.id(s[j]) {
      assert o.Before(s[i], s[j]);
      assert s[i] in d.Values && s[j] in d.Values;
      if o.id(s[i]) == o.id(s[j]) {
        assert s[i] == d[o.id(s[i])] == s[j];
        BeforeAsymmetric(o, s[i], s[j]);
      }
    }
    forall k | k in d ensures k in Last(o.id, s) && Last(o.id, s)[k] == d[k] {
      assert d[k] in d.Values;
      LastHas(o.id, s, d[k]);
    }
    forall k | k in Last(o.id, s) ensures k in d {
      assert Last(o.id, s)[k] in d.Values;
    }
  }

  lemma {:induction false} LastHas<T>(id: T -> Bytes, s: seq<T>, x: T)
    requires DistinctIds(id, s) && x in s
    ensures id(x) in Last(id, s) && Last(id, s)[id(x)] == x
    decreases |s|
  {
    var i :| 0 <= i < |s| && s[i] == x;
    if i < |s| - 1 {
      assert x in s[..|s| - 1] by {
        assert s[..|s| - 1][i] == x;
      }
      LastHas(id, s[..|s| - 1], x);
    }
  }
}
