/** Concatenating a sequence of sequences, and the two facts the checker's
    model needs about it: it distributes over `+`, and reordering the parts
    only reorders the result. */
module Seqs {

  /** The parts of `rows`, one after the other. */
  function Flatten<T>(rows: seq<seq<T>>): seq<T>
    decreases |rows|
  {
    if rows == [] then [] else Flatten(rows[..|rows| - 1]) + rows[|rows| - 1]
  }

  function Map<A, B>(f: A -> B, xs: seq<A>): (ys: seq<B>)
    ensures |ys| == |xs| && forall i :: 0 <= i < |xs| ==> ys[i] == f(xs[i])
  {
    seq(|xs|, i requires 0 <= i < |xs| => f(xs[i]))
  }

  lemma {:induction false} FlattenAppend<T>(a: seq<seq<T>>, b: seq<seq<T>>)
    ensures Flatten(a + b) == Flatten(a) + Flatten(b)
    decreases |b|
  {
    if b == [] {
      assert a + b == a;
    } else {
      var m := |b| - 1;
      assert (a + b)[..|a + b| - 1] == a + b[..m];
      assert (a + b)[|a + b| - 1] == b[m];
      FlattenAppend(a, b[..m]);
    }
  }

  /** Parts of at most `b` elements concatenate to at most `b` elements per
      part. */
  lemma {:induction false} FlattenBound<T>(rows: seq<seq<T>>, b: nat)
    requires forall k :: 0 <= k < |rows| ==> |rows[k]| <= b
    ensures |Flatten(rows)| <= b * |rows|
    decreases |rows|
  {
    if rows != [] {
      var m := |rows| - 1;
      FlattenBound(rows[..m], b);
      assert |rows[m]| <= b;
    }
  }

  /** Every element of the concatenation comes from one of the parts. */
  lemma {:induction false} FlattenMember<T>(rows: seq<seq<T>>, x: T)
    requires x in Flatten(rows)
    ensures exists k :: 0 <= k < |rows| && x in rows[k]
    decreases |rows|
  {
    var m := |rows| - 1;
    if x in Flatten(rows[..m]) {
      FlattenMember(rows[..m], x);
      var k :| 0 <= k < m && x in rows[..m][k];
      assert rows[k] == rows[..m][k];
    } else {
      assert x in rows[m];
    }
  }

  /** A position of `x` in `s`. */
  lemma IndexOf<T>(s: seq<T>, x: T) returns (j: nat)
    requires x in multiset(s)
    ensures j < |s| && s[j] == x
  {
    assert x in s;
    j :| 0 <= j < |s| && s[j] == x;
  }

  /** Taking element `j` out of two sequences with the same elements leaves
      two sequences with the same elements. */
  lemma RemoveBoth<T>(xs: seq<T>, ys: seq<T>, j: nat)
    requires xs != [] && j < |ys| && ys[j] == xs[|xs| - 1]
    requires multiset(xs) == multiset(ys)
    ensures ys == ys[..j] + [ys[j]] + ys[j + 1..]
    ensures xs == xs[..|xs| - 1] + [ys[j]]
    ensures multiset(xs[..|xs| - 1]) == multiset(ys[..j] + ys[j + 1..])
  {
    var m := |xs| - 1;
    assert xs == xs[..m] + [xs[m]];
    assert ys == ys[..j] + [ys[j]] + ys[j + 1..];
    calc {
      multiset(xs[..m]);
      multiset(xs) - multiset{xs[m]};
      multiset(ys) - multiset{ys[j]};
      multiset(ys[..j] + ys[j + 1..]);
    }
  }

  lemma EmptyMultiset<T>(s: seq<T>)
    requires multiset(s) == multiset{}
    ensures s == []
  {
    assert |multiset(s)| == |s|;
  }

  /** Concatenating the same parts in another order gives the same
      elements, up to order. */
  lemma {:induction false} FlattenReorder<T>(a: seq<seq<T>>, b: seq<seq<T>>)
    requires multiset(a) == multiset(b)
    ensures multiset(Flatten(a)) == multiset(Flatten(b))
    decreases |a|
  {
    if a == [] {
      EmptyMultiset(b);
    } else {
      var m := |a| - 1;
      var x := a[m];
      var j := IndexOf(b, x);
      RemoveBoth(a, b, j);
      var u, v := b[..j], b[j + 1..];
      FlattenReorder(a[..m], u + v);
      FlattenAppend(a[..m], [x]);
      FlattenOne(x);
      FlattenAppend(u, v);
      FlattenAppend(u, [x]);
      FlattenAppend(u + [x], v);
      MultisetSwap(Flatten(a[..m]), Flatten(u), x, Flatten(v));
    }
  }

  lemma MultisetSwap<T>(front: seq<T>, u: seq<T>, x: seq<T>, v: seq<T>)
    requires multiset(front) == multiset(u + v)
    ensures multiset(front + x) == multiset(u + x + v)
  {
  }

  lemma FlattenOne<T>(x: seq<T>)
    ensures Flatten([x]) == x
  {
    assert [x][..0] == [];
  }

  lemma MapAppend<A, B>(f: A -> B, xs: seq<A>, ys: seq<A>)
    ensures Map(f, xs + ys) == Map(f, xs) + Map(f, ys)
  {
  }

  /** Mapping two orderings of the same elements gives two orderings of the
      same images. */
  lemma {:induction false} MapReorder<A, B>(f: A -> B, xs: seq<A>, ys: seq<A>)
    requires multiset(xs) == multiset(ys)
    ensures multiset(Map(f, xs)) == multiset(Map(f, ys))
    decreases |xs|
  {
    if xs == [] {
      EmptyMultiset(ys);
    } else {
      var m := |xs| - 1;
      var x := xs[m];
      var j := IndexOf(ys, x);
      RemoveBoth(xs, ys, j);
      var u, v := ys[..j], ys[j + 1..];
      MapReorder(f, xs[..m], u + v);
      MapAppend(f, xs[..m], [x]);
      MapAppend(f, u, v);
      MapAppend(f, u, [x]);
      MapAppend(f, u + [x], v);
      MultisetSwap(Map(f, xs[..m]), Map(f, u), [f(x)], Map(f, v));
    }
  }
}
