/** Version vectors (internal/peer/manifest.go): node id -> number of writes that
    node made to a file. A missing component counts as 0. */
module Vectors {

  type Node = string
  type Vec = map<Node, nat>

  function At(v: Vec, o: Node): nat {
    if o in v then v[o] else 0
  }

  function Max(x: nat, y: nat): nat {
    if x < y then y else x
  }

  /** Pointwise order: b has seen everything a has seen. */
  ghost predicate Leq(a: Vec, b: Vec) {
    forall o :: At(a, o) <= At(b, o)
  }

  ghost predicate Same(a: Vec, b: Vec) {
    forall o :: At(a, o) == At(b, o)
  }

  ghost predicate Lt(a: Vec, b: Vec) {
    Leq(a, b) && !Leq(b, a)
  }

  /** No explicit zero components: the form the manifest stores. */
  ghost predicate Normal(v: Vec) {
    forall o :: o in v ==> v[o] != 0
  }

  /** The least upper bound of two vectors, in normal form. */
  function Join(a: Vec, b: Vec): (j: Vec)
    ensures Normal(j)
    ensures forall o :: At(j, o) == Max(At(a, o), At(b, o))
  {
    map o | o in a.Keys + b.Keys && Max(At(a, o), At(b, o)) != 0 :: Max(At(a, o), At(b, o))
  }

  /** A vector without its explicit zeros. */
  function Clone(v: Vec): (c: Vec)
    ensures Normal(c) && Same(c, v)
  {
    map o | o in v && v[o] != 0 :: v[o]
  }

  /** A vector with one component advanced by one. */
  function Advance(v: Vec, self: Node): (w: Vec)
    ensures Normal(w) && Lt(v, w)
    ensures forall o :: At(w, o) == At(v, o) + (if o == self then 1 else 0)
  {
    var c := Clone(v);
    var w := c[self := At(c, self) + 1];
    assert At(w, self) > At(v, self);
    w
  }

  /** Normal vectors with the same components are the same map. */
  lemma NormalExt(a: Vec, b: Vec)
    requires Normal(a) && Normal(b) && Same(a, b)
    ensures a == b
  {
    forall o | o in a || o in b
      ensures o in a && o in b && a[o] == b[o]
    {
      assert At(a, o) == At(b, o);
    }
  }

  /** Join is a semilattice, and Leq is the order it induces. */
  lemma JoinIsLeastUpperBound(a: Vec, b: Vec, u: Vec)
    ensures Leq(a, Join(a, b)) && Leq(b, Join(a, b))
    ensures Leq(a, u) && Leq(b, u) <==> Leq(Join(a, b), u)
  {
    if Leq(a, u) && Leq(b, u) {
      forall o ensures At(Join(a, b), o) <= At(u, o) {
        assert At(a, o) <= At(u, o) && At(b, o) <= At(u, o);
      }
    }
    if Leq(Join(a, b), u) {
      forall o ensures At(a, o) <= At(u, o) && At(b, o) <= At(u, o) {
        assert At(Join(a, b), o) <= At(u, o);
      }
    }
  }

  lemma JoinCommutes(a: Vec, b: Vec)
    ensures Join(a, b) == Join(b, a)
  {
    NormalExt(Join(a, b), Join(b, a));
  }

  lemma JoinAssociates(a: Vec, b: Vec, c: Vec)
    ensures Join(a, Join(b, c)) == Join(Join(a, b), c)
  {
    var bc, ab := Join(b, c), Join(a, b);
    var l, r := Join(a, bc), Join(ab, c);
    forall o ensures At(l, o) == At(r, o) {
      assert At(bc, o) == Max(At(b, o), At(c, o));
      assert At(ab, o) == Max(At(a, o), At(b, o));
    }
    NormalExt(l, r);
  }

  /** Joining what is already known changes nothing. */
  lemma JoinAbsorbs(a: Vec, b: Vec)
    requires Leq(b, a) && Normal(a)
    ensures Join(a, b) == a
  {
    forall o ensures At(Join(a, b), o) == At(a, o) {
      assert At(b, o) <= At(a, o);
    }
    NormalExt(Join(a, b), a);
  }

  lemma LeqTransitive(a: Vec, b: Vec, c: Vec)
    requires Leq(a, b) && Leq(b, c)
    ensures Leq(a, c)
  {
    forall o ensures At(a, o) <= At(c, o) {
      assert At(a, o) <= At(b, o) <= At(c, o);
    }
  }

  /** vecLeq: the components of a are looked up one by one, in map order. */
  method VecLeq(a: Vec, b: Vec) returns (leq: bool)
    ensures leq <==> Leq(a, b)
  {
    var todo := a.Keys;
    while todo != {}
      invariant todo <= a.Keys
      invariant forall o :: o !in todo ==> At(a, o) <= At(b, o)
      decreases todo
    {
      var o :| o in todo;
      if At(b, o) < a[o] {
        assert At(b, o) < At(a, o);
        return false;
      }
      todo := todo - {o};
    }
    return true;
  }

  /** cloneVec: zero components are dropped. */
  method CloneVec(v: Vec) returns (out: Vec)
    ensures out == Clone(v)
  {
    out := map[];
    var todo := v.Keys;
    while todo != {}
      invariant todo <= v.Keys && out.Keys <= v.Keys
      invariant out == map o | o in v && o !in todo && v[o] != 0 :: v[o]
      decreases todo
    {
      var o :| o in todo;
      if v[o] != 0 {
        out := out[o := v[o]];
      }
      todo := todo - {o};
    }
  }

  /** MaxVec: a copy of a, raised to b wherever b is ahead. */
  method MaxVec(a: Vec, b: Vec) returns (out: Vec)
    ensures out == Join(a, b)
  {
    out := CloneVec(a);
    var todo := b.Keys;
    while todo != {}
      invariant todo <= b.Keys && Normal(out)
      invariant forall o :: At(out, o) == if o in todo then At(a, o) else Max(At(a, o), At(b, o))
      decreases todo
    {
      var o :| o in todo;
      if At(out, o) < b[o] {
        out := out[o := b[o]];
      }
      todo := todo - {o};
    }
    NormalExt(out, Join(a, b));
  }
}
