/**
 Facts about sets of small fixed shapes, stated over arbitrary keys: the
 constructor on two to four keys, intersection and union of such sets, and
 the folds over three and four of them. The suite's concrete scenarios are
 instances of these.
 */
module Shapes {
  import opened Canonical
  import opened KeySet
  import opened SetAlgebra

  /* Five pairwise distinct canonical strings. */
  predicate Distinct5(a: string, b: string, c: string, d: string, e: string) {
    a != b && a != c && a != d && a != e && b != c && b != d && b != e && c != d && c != e && d != e
  }

  /* The keys reported by a map literal of one, three or five entries. */
  lemma ValuesOfLiteral1(m: map<string, Key>, a: string, x: Key)
    requires m == map[a := x]
    ensures m.Values == {x}
  {
    assert m[a] == x;
  }

  lemma ValuesOfLiteral3(m: map<string, Key>, a: string, b: string, c: string, x: Key, y: Key, z: Key)
    requires m == map[a := x, b := y, c := z]
    requires a != b && b != c && a != c
    ensures m.Values == {x, y, z}
  {
    assert m[a] == x && m[b] == y && m[c] == z;
    forall v | v in m.Values
      ensures v in {x, y, z}
    {
      var k :| k in m && m[k] == v;
    }
  }

  lemma ValuesOfLiteral5(m: map<string, Key>, a: string, b: string, c: string, d: string, e: string,
                         x: Key, y: Key, z: Key, u: Key, w: Key)
    requires m == map[a := x, b := y, c := z, d := u, e := w]
    requires Distinct5(a, b, c, d, e)
    ensures m.Values == {x, y, z, u, w}
  {
    assert m[a] == x && m[b] == y && m[c] == z && m[d] == u && m[e] == w;
    forall v | v in m.Values
      ensures v in {x, y, z, u, w}
    {
      var k :| k in m && m[k] == v;
    }
  }

  /* A set of three distinct members has size three and reports the three
     stored keys. */
  lemma SizeOfLiteral3(s: Set, a: string, b: string, c: string, x: Key, y: Key, z: Key)
    requires Valid(s) && s.entries == map[a := x, b := y, c := z]
    requires a != b && b != c && a != c
    ensures Size(s) == 3 && Values(s) == {x, y, z}
  {
    ValuesOfLiteral3(s.entries, a, b, c, x, y, z);
    ValuesCount(s);
    assert Abstract(s) == {a, b, c};
  }

  /* The constructor on a literal of two or three keys that are distinct
     members. A literal of three or more keys is written as the literal of
     all but the last key followed by the last one: the same sequence, which
     the verifier unfolds far more cheaply than the plain display. */
  lemma NewOfDistinct2(a: Key, b: Key)
    requires Canon(a) != Canon(b)
    ensures New([a, b]).entries == map[Canon(a) := a, Canon(b) := b]
  {
    assert [a] == [] + [a];
    assert [a, b] == [a] + [b];
    AddAllSnoc(Empty(), [], a);
    AddAllSnoc(Empty(), [a], b);
  }

  lemma NewOfDistinct3(a: Key, b: Key, c: Key)
    requires Canon(a) != Canon(b) && Canon(a) != Canon(c) && Canon(b) != Canon(c)
    ensures New([a, b] + [c]).entries == map[Canon(a) := a, Canon(b) := b, Canon(c) := c]
  {
    var s2 := New([a, b]);
    NewOfDistinct2(a, b);
    AddAllSnoc(Empty(), [a, b], c);
    AddIsSingletonUnion(s2, c);
    MapPrepend2(Canon(a), Canon(b), Canon(c), a, b, c);
  }

  lemma MapPrepend2<K, V>(ka: K, kb: K, kc: K, a: V, b: V, c: V)
    requires ka != kb && ka != kc && kb != kc
    ensures map[kc := c] + map[ka := a, kb := b] == map[ka := a, kb := b, kc := c]
  {
  }

  /* A repeated key adds nothing to the set built so far. */
  lemma NewIgnoresRepeat(ks: seq<Key>, k: Key)
    requires k in ks
    ensures New(ks + [k]) == New(ks)
  {
    AddAllSnoc(Empty(), ks, k);
    assert Canon(k) in Abstract(New(ks));
  }

  /* Three distinct members followed by a repeat of the first: three
     members, reported as the three keys. */
  lemma RepeatCollapses(a: Key, b: Key, c: Key)
    requires Canon(a) != Canon(b) && Canon(a) != Canon(c) && Canon(b) != Canon(c)
    ensures New([a, b] + [c] + [a]).entries == map[Canon(a) := a, Canon(b) := b, Canon(c) := c]
    ensures Size(New([a, b] + [c] + [a])) == 3
    ensures Values(New([a, b] + [c] + [a])) == {a, b, c}
  {
    var s := New([a, b] + [c]);
    NewOfDistinct3(a, b, c);
    NewIgnoresRepeat([a, b] + [c], a);
    SizeOfLiteral3(s, Canon(a), Canon(b), Canon(c), a, b, c);
  }

  /* Intersection and union of two two-member sets sharing one member. */
  lemma CombineLiterals(s: Set, t: Set, a: string, b: string, d: string, x: Key, y: Key, x': Key, z: Key)
    requires Valid(s) && Valid(t)
    requires s.entries == map[a := x, b := y] && t.entries == map[a := x', d := z]
    requires a != b && a != d && b != d
    ensures Intersect(s, SetArg(t)).entries == map[a := x]
    ensures Union(s, SetArg(t)).entries == map[a := x, b := y, d := z]
  {
    IntersectOfSets(s, t);
    UnionOfSets(s, t);
    PairMaps(a, b, d, x, y, x', z);
  }

  lemma PairMaps<K, V>(a: K, b: K, d: K, x: V, y: V, x': V, z: V)
    requires a != b && a != d && b != d
    ensures map[a := x, b := y] - (map[a := x, b := y].Keys - map[a := x', d := z].Keys) == map[a := x]
    ensures map[a := x', d := z] + map[a := x, b := y] == map[a := x, b := y, d := z]
  {
    assert map[a := x, b := y].Keys - map[a := x', d := z].Keys == {b};
  }

  /* `new Set([p, q])` combined with `new Set([p', r])` or the array
     `[p', r]`, where `p'` is the same member as `p`: the shared member keeps
     the key `p`. */
  lemma CombinePairs(p: Key, q: Key, p': Key, r: Key)
    requires Canon(p) != Canon(q) && Canon(p) != Canon(r) && Canon(q) != Canon(r) && Canon(p') == Canon(p)
    ensures Values(Intersect(New([p, q]), SetArg(New([p', r])))) == {p}
    ensures Values(Intersect(New([p, q]), SeqArg([p', r]))) == {p}
    ensures Values(Union(New([p, q]), SetArg(New([p', r])))) == {p, q, r}
    ensures Values(Union(New([p, q]), SeqArg([p', r]))) == {p, q, r}
  {
    var s, t := New([p, q]), New([p', r]);
    NewOfDistinct2(p, q);
    NewOfDistinct2(p', r);
    CombineLiterals(s, t, Canon(p), Canon(q), Canon(r), p, q, p', r);
    ValuesOfLiteral1(Intersect(s, SetArg(t)).entries, Canon(p), p);
    ValuesOfLiteral3(Union(s, SetArg(t)).entries, Canon(p), Canon(q), Canon(r), p, q, r);
    ArrayOperand(s, [p', r]);
  }

  /* The folds over two, three and four sets as chains of binary calls. */
  lemma UnfoldFolds2(s1: Set, s2: Set)
    requires Valid(s1) && Valid(s2)
    ensures IntersectAll([s1, s2]) == Intersect(s1, SetArg(s2))
    ensures UnionAll([s1, s2]) == Union(s1, SetArg(s2))
  {
    FoldSingle(s1);
    FoldStep([s1], s2);
    assert [s1] + [s2] == [s1, s2];
  }

  lemma UnfoldIntersectAll3(s1: Set, s2: Set, s3: Set)
    requires Valid(s1) && Valid(s2) && Valid(s3)
    ensures IntersectAll([s1, s2] + [s3]) == Intersect(Intersect(s1, SetArg(s2)), SetArg(s3))
  {
    UnfoldFolds2(s1, s2);
    FoldStep([s1, s2], s3);
  }

  lemma UnfoldUnionAll3(s1: Set, s2: Set, s3: Set)
    requires Valid(s1) && Valid(s2) && Valid(s3)
    ensures UnionAll([s1, s2] + [s3]) == Union(Union(s1, SetArg(s2)), SetArg(s3))
  {
    UnfoldFolds2(s1, s2);
    FoldStep([s1, s2], s3);
  }

  lemma UnfoldUnionAll4(s1: Set, s2: Set, s3: Set, s4: Set)
    requires Valid(s1) && Valid(s2) && Valid(s3) && Valid(s4)
    ensures UnionAll([s1, s2] + [s3] + [s4]) == Union(Union(Union(s1, SetArg(s2)), SetArg(s3)), SetArg(s4))
  {
    var p3 := [s1, s2] + [s3];
    UnfoldUnionAll3(s1, s2, s3);
    assert AllValid(p3) by {
      assert p3 == [s1, s2, s3];
    }
    FoldStep(p3, s4);
  }

  /* The chains of binary calls over sets shaped like those of the suite's
     scenarios. */
  lemma IntersectAllLiterals(s1: Set, s2: Set, s3: Set, a: string, b: string, c: string, d: string, e: string,
                             x: Key, y: Key, z: Key, u: Key, w: Key)
    requires Valid(s1) && Valid(s2) && Valid(s3)
    requires s1.entries == map[a := x, b := y, c := z]
    requires s2.entries == map[b := y, c := z, d := u]
    requires s3.entries == map[c := z, d := u, e := w]
    requires Distinct5(a, b, c, d, e)
    ensures Intersect(Intersect(s1, SetArg(s2)), SetArg(s3)).entries == map[c := z]
  {
    var i1 := Intersect(s1, SetArg(s2));
    IntersectOfSets(s1, s2);
    IntersectDropsLeading(a, b, c, d, e, x, y, z);
    IntersectOfSets(i1, s3);
    IntersectKeepsCommon(a, b, c, d, e, y, z);
  }

  lemma IntersectDropsLeading(a: string, b: string, c: string, d: string, e: string, x: Key, y: Key, z: Key)
    requires Distinct5(a, b, c, d, e)
    ensures map[a := x, b := y, c := z] - ({a, b, c} - {b, c, d}) == map[b := y, c := z]
  {
    assert {a, b, c} - {b, c, d} == {a};
  }

  lemma IntersectKeepsCommon(a: string, b: string, c: string, d: string, e: string, y: Key, z: Key)
    requires Distinct5(a, b, c, d, e)
    ensures map[b := y, c := z] - ({b, c} - {c, d, e}) == map[c := z]
  {
    assert {b, c} - {c, d, e} == {b};
  }

  lemma UnionAllLiterals(s1: Set, s2: Set, s3: Set, s4: Set, a: string, b: string, c: string, d: string, e: string,
                         x: Key, y: Key, z: Key, u: Key, w: Key, x': Key)
    requires Valid(s1) && Valid(s2) && Valid(s3) && Valid(s4)
    requires s1.entries == map[a := x, b := y, c := z]
    requires s2.entries == map[b := y, c := z, d := u]
    requires s3.entries == map[c := z, d := u, e := w]
    requires s4.entries == map[a := x']
    requires Distinct5(a, b, c, d, e)
    ensures Union(Union(Union(s1, SetArg(s2)), SetArg(s3)), SetArg(s4)).entries
         == map[a := x, b := y, c := z, d := u, e := w]
  {
    var u1 := Union(s1, SetArg(s2));
    UnionOfSets(s1, s2);
    UnionAddsNext(a, b, c, d, e, x, y, z, u);
    var u2 := Union(u1, SetArg(s3));
    UnionOfSets(u1, s3);
    UnionAddsLast(a, b, c, d, e, x, y, z, u, w);
    var u3 := Union(u2, SetArg(s4));
    UnionOfSets(u2, s4);
    UnionKeepsEarlier(a, b, c, d, e, x, y, z, u, w, x');
  }

  lemma UnionAddsNext(a: string, b: string, c: string, d: string, e: string, x: Key, y: Key, z: Key, u: Key)
    requires Distinct5(a, b, c, d, e)
    ensures map[b := y, c := z, d := u] + map[a := x, b := y, c := z] == map[a := x, b := y, c := z, d := u]
  {
  }

  lemma UnionAddsLast(a: string, b: string, c: string, d: string, e: string, x: Key, y: Key, z: Key, u: Key, w: Key)
    requires Distinct5(a, b, c, d, e)
    ensures map[c := z, d := u, e := w] + map[a := x, b := y, c := z, d := u]
         == map[a := x, b := y, c := z, d := u, e := w]
  {
  }

  lemma UnionKeepsEarlier(a: string, b: string, c: string, d: string, e: string, x: Key, y: Key, z: Key, u: Key, w: Key, x': Key)
    requires Distinct5(a, b, c, d, e)
    ensures map[a := x'] + map[a := x, b := y, c := z, d := u, e := w]
         == map[a := x, b := y, c := z, d := u, e := w]
  {
  }

  lemma AllValidOfThree(s1: Set, s2: Set, s3: Set)
    requires Valid(s1) && Valid(s2) && Valid(s3)
    ensures AllValid([s1, s2] + [s3])
  {
  }

  lemma AllValidOfFour(s1: Set, s2: Set, s3: Set, s4: Set)
    requires Valid(s1) && Valid(s2) && Valid(s3) && Valid(s4)
    ensures AllValid([s1, s2] + [s3] + [s4])
  {
  }
}
