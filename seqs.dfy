/** Generic facts about sequences: order-preserving filtering, subsequences and keys. */
module Seqs {

  /** `Array.prototype.filter`: keeps, in order, the elements that satisfy `keep`, each as
      many times as it occurs. */
  function Filter<T(!new)>(s: seq<T>, keep: T -> bool): (r: seq<T>)
    ensures |r| <= |s|
    ensures forall x :: x in r <==> x in s && keep(x)
  {
    if s == [] then [] else (if keep(s[0]) then [s[0]] else []) + Filter(s[1..], keep)
  }

  /** Filtering keeps every occurrence of a kept element and none of the others. */
  lemma {:induction false} FilterCounts<T(!new)>(s: seq<T>, keep: T -> bool)
    ensures forall x :: multiset(Filter(s, keep))[x] == if keep(x) then multiset(s)[x] else 0
  {
    if s != [] {
      FilterCounts(s[1..], keep);
      assert s == [s[0]] + s[1..];
    }
  }

  /** `a` is obtained from `b` by deleting elements (order preserved). */
  ghost predicate IsSubseq<T>(a: seq<T>, b: seq<T>)
    decreases |b|
  {
    a == [] || (b != [] && ((a[0] == b[0] && IsSubseq(a[1..], b[1..])) || IsSubseq(a, b[1..])))
  }

  lemma {:induction false} FilterIsSubseq<T(!new)>(s: seq<T>, keep: T -> bool)
    ensures IsSubseq(Filter(s, keep), s)
  {
    if s != [] {
      FilterIsSubseq(s[1..], keep);
      var r := Filter(s, keep);
      if keep(s[0]) {
        assert r[0] == s[0] && r[1..] == Filter(s[1..], keep);
      } else {
        assert r == Filter(s[1..], keep);
      }
    }
  }

  /** Filtering by a weaker condition keeps at least the same elements, in the same order. */
  lemma {:induction false} FilterMonotone<T(!new)>(s: seq<T>, f: T -> bool, g: T -> bool)
    requires forall i :: 0 <= i < |s| && f(s[i]) ==> g(s[i])
    ensures IsSubseq(Filter(s, f), Filter(s, g))
  {
    if s != [] {
      FilterMonotone(s[1..], f, g);
      var a, b := Filter(s, f), Filter(s, g);
      if f(s[0]) {
        assert a[0] == s[0] && a[1..] == Filter(s[1..], f);
        assert b[0] == s[0] && b[1..] == Filter(s[1..], g);
      } else if g(s[0]) {
        assert b != [] && b[1..] == Filter(s[1..], g);
        assert a == Filter(s[1..], f);
      } else {
        assert a == Filter(s[1..], f) && b == Filter(s[1..], g);
      }
    }
  }

  lemma {:induction false} FilterKeepsAll<T(!new)>(s: seq<T>, keep: T -> bool)
    requires forall i :: 0 <= i < |s| ==> keep(s[i])
    ensures Filter(s, keep) == s
  {
    if s != [] {
      FilterKeepsAll(s[1..], keep);
      assert s == [s[0]] + s[1..];
    }
  }

  /** No two positions of `s` carry the same key (a primary key or a UNIQUE column). */
  ghost predicate KeysDistinct<T, K>(s: seq<T>, key: T -> K) {
    forall i, j :: 0 <= i < j < |s| ==> key(s[i]) != key(s[j])
  }

  lemma {:induction false} FilterKeysDistinct<T(!new), K>(s: seq<T>, key: T -> K, keep: T -> bool)
    requires KeysDistinct(s, key)
    ensures KeysDistinct(Filter(s, keep), key)
  {
    if s != [] {
      FilterKeysDistinct(s[1..], key, keep);
      var rest := Filter(s[1..], keep);
      var r := Filter(s, keep);
      if keep(s[0]) {
        assert r == [s[0]] + rest;
        forall i, j | 0 <= i < j < |r| ensures key(r[i]) != key(r[j]) {
          assert r[j] == rest[j - 1] && rest[j - 1] in s[1..];
          if i > 0 {
            assert r[i] == rest[i - 1];
          } else {
            var k :| 0 <= k < |s[1..]| && s[1..][k] == rest[j - 1];
            assert s[k + 1] == s[1..][k];
          }
        }
      } else {
        assert r == rest;
      }
    }
  }

  /** Appending an element whose key no element has keeps the keys distinct. */
  lemma AppendKeysDistinct<T, K>(s: seq<T>, x: T, key: T -> K)
    requires KeysDistinct(s, key)
    requires forall i :: 0 <= i < |s| ==> key(s[i]) != key(x)
    ensures KeysDistinct(s + [x], key)
  {
    var r := s + [x];
    forall i, j | 0 <= i < j < |r| ensures key(r[i]) != key(r[j]) {
      assert r[i] == s[i];
      if j < |s| { assert r[j] == s[j]; }
    }
  }

  lemma AppendHead<T>(a: seq<T>, s: seq<T>)
    requires s != []
    ensures (a + [s[0]]) + s[1..] == a + s
  {
    assert s == [s[0]] + s[1..];
  }

  /** No value occurs twice. */
  ghost predicate Distinct<T>(s: seq<T>) {
    forall i, j :: 0 <= i < j < |s| ==> s[i] != s[j]
  }

  /** No element of `s` occurs in `a`. */
  ghost predicate Disjoint<T>(s: seq<T>, a: seq<T>) {
    forall x :: x in s ==> x !in a
  }

  lemma DistinctCons<T>(s: seq<T>)
    requires s != []
    ensures Distinct(s) <==> s[0] !in s[1..] && Distinct(s[1..])
  {
    if s[0] in s[1..] {
      var k :| 0 <= k < |s[1..]| && s[1..][k] == s[0];
      assert s[k + 1] == s[0];
    }
  }

  lemma DisjointCons<T>(s: seq<T>, a: seq<T>)
    requires s != []
    ensures Disjoint(s, a) <==> s[0] !in a && Disjoint(s[1..], a)
  {
    assert forall x :: x in s <==> x == s[0] || x in s[1..] by {
      assert s == [s[0]] + s[1..];
    }
  }

  lemma DisjointAppend<T>(s: seq<T>, a: seq<T>, y: T)
    ensures Disjoint(s, a + [y]) <==> y !in s && Disjoint(s, a)
  {
  }

  /** A left fold whose step also receives the position of the element, counted from `offset`. */
  function FoldAt<S, X>(s: S, xs: seq<X>, step: (S, X, nat) -> S, offset: nat): S
    decreases |xs|
  {
    if xs == [] then s else FoldAt(step(s, xs[0], offset), xs[1..], step, offset + 1)
  }

  /** Folding one more element applies one more step. */
  lemma FoldAtSnoc<S, X>(s: S, xs: seq<X>, step: (S, X, nat) -> S, offset: nat, i: nat)
    requires i < |xs|
    ensures FoldAt(s, xs[..i + 1], step, offset) == step(FoldAt(s, xs[..i], step, offset), xs[i], offset + i)
  {
    assert xs[..i + 1] == xs[..i] + [xs[i]];
    FoldAtAppend(s, xs[..i], [xs[i]], step, offset);
    assert [xs[i]][1..] == [];
  }

  lemma {:induction false} FoldAtAppend<S, X>(s: S, a: seq<X>, b: seq<X>, step: (S, X, nat) -> S, offset: nat)
    ensures FoldAt(s, a + b, step, offset) == FoldAt(FoldAt(s, a, step, offset), b, step, offset + |a|)
    decreases |a|
  {
    if a == [] {
      assert a + b == b;
    } else {
      assert (a + b)[0] == a[0] && (a + b)[1..] == a[1..] + b;
      FoldAtAppend(step(s, a[0], offset), a[1..], b, step, offset + 1);
    }
  }

  lemma MultisetCons<T>(s: seq<T>)
    requires s != []
    ensures multiset(s) == multiset{s[0]} + multiset(s[1..])
  {
    assert s == [s[0]] + s[1..];
  }

  /** In a list ordered by a descending score, a prefix is a sub-multiset and every element
      outside it scores no higher than any element in it. */
  lemma PrefixIsTop<T>(s: seq<T>, k: nat, score: T -> nat)
    requires k <= |s|
    requires forall i, j :: 0 <= i < j < |s| ==> score(s[j]) <= score(s[i])
    ensures multiset(s[..k]) <= multiset(s)
    ensures forall p, q :: p in s[..k] && q in multiset(s) - multiset(s[..k]) ==> score(q) <= score(p)
  {
    assert s == s[..k] + s[k..];
    assert multiset(s) - multiset(s[..k]) == multiset(s[k..]);
    forall p, q | p in s[..k] && q in multiset(s[k..])
      ensures score(q) <= score(p)
    {
      var i :| 0 <= i < k && s[i] == p;
      var j :| 0 <= j < |s[k..]| && s[k..][j] == q;
      assert s[k + j] == q;
    }
  }
}
