/**
 Set algebra of the graphlib Set: `intersect` and `union` against another
 Set or a plain array of keys, and the static left folds `intersectAll` and
 `unionAll`. Every result is a new set; both operands are values and stay as
 they were. Where a member is present on both sides, the key stored in
 `this` (the left operand, or the first set of a fold) is the one kept.
 */
module SetAlgebra {
  import opened Canonical
  import opened KeySet

  /* The right operand: a Set, or an array of keys read as `new Set(array)`. */
  datatype Operand = SetArg(other: Set) | SeqArg(keys: seq<Key>)

  predicate ValidOperand(o: Operand) {
    o.SetArg? ==> Valid(o.other)
  }

  /* The canonical strings of the operand's members. */
  function OperandCanons(o: Operand): set<string> {
    match o
    case SetArg(t) => Abstract(t)
    case SeqArg(ks) => CanonSet(ks)
  }

  /* Whether the operand holds a member with canonical string `c`. */
  predicate InOperand(o: Operand, c: string) {
    match o
    case SetArg(t) => c in t.entries
    case SeqArg(ks) => exists i :: 0 <= i < |ks| && Canon(ks[i]) == c
  }

  /* The Set an operand stands for. */
  function AsSet(o: Operand): (t: Set)
    requires ValidOperand(o)
    ensures Valid(t)
    ensures Abstract(t) == OperandCanons(o)
  {
    match o
    case SetArg(t) => t
    case SeqArg(ks) => New(ks)
  }

  /* `this.intersect(other)`: the members of `s` that the operand also holds,
     each with the key stored in `s`. */
  function Intersect(s: Set, o: Operand): (r: Set)
    requires Valid(s) && ValidOperand(o)
    ensures Valid(r)
    ensures Abstract(r) == Abstract(s) * OperandCanons(o)
    ensures forall c :: c in r.entries ==> r.entries[c] == s.entries[c]
    ensures Values(r) <= Values(s)
  {
    assert forall c :: InOperand(o, c) <==> c in OperandCanons(o) by {
      if o.SeqArg? {
        forall c | c in OperandCanons(o)
          ensures InOperand(o, c)
        {
          var k :| k in o.keys && Canon(k) == c;
          var i :| 0 <= i < |o.keys| && o.keys[i] == k;
        }
      }
    }
    Set(map c | c in s.entries && InOperand(o, c) :: s.entries[c])
  }

  /* Adding the keys of a sequence to `s` is the left-biased union of `s` with
     the set those keys build on their own. */
  lemma {:induction false} AddAllIsUnion(s: Set, ks: seq<Key>)
    requires Valid(s)
    ensures AddAll(s, ks).entries == New(ks).entries + s.entries
    decreases |ks|
  {
    if |ks| == 0 {
      assert New(ks).entries == map[];
    } else {
      var k, t := ks[0], ks[1..];
      var single := map[Canon(k) := k];
      var s1 := Add(s, k).after;
      var e1 := Add(Empty(), k).after;
      AddIsSingletonUnion(s, k);
      AddIsSingletonUnion(Empty(), k);
      AddAllIsUnion(s1, t);
      AddAllIsUnion(e1, t);
      calc {
        AddAll(s, ks).entries;
        AddAll(s1, t).entries;
        New(t).entries + (single + s.entries);
        { MapUnionAssociative(New(t).entries, single, s.entries); }
        (New(t).entries + single) + s.entries;
        AddAll(e1, t).entries + s.entries;
        New(ks).entries + s.entries;
      }
    }
  }

  lemma AddIsSingletonUnion(s: Set, k: Key)
    requires Valid(s)
    ensures Add(s, k).after.entries == map[Canon(k) := k] + s.entries
  {
  }

  lemma MapUnionAssociative<K, V>(x: map<K, V>, y: map<K, V>, z: map<K, V>)
    ensures x + (y + z) == (x + y) + z
  {
  }

  /* `this.union(other)`: every member of either side; a member of `s` keeps
     the key stored in `s`, any other member the key the operand holds. */
  function Union(s: Set, o: Operand): (r: Set)
    requires Valid(s) && ValidOperand(o)
    ensures Valid(r)
    ensures Abstract(r) == Abstract(s) + OperandCanons(o)
    ensures forall c :: c in s.entries ==> r.entries[c] == s.entries[c]
    ensures forall c :: c in r.entries && c !in s.entries ==> r.entries[c] == AsSet(o).entries[c]
  {
    match o
    case SetArg(t) => Set(t.entries + s.entries)
    case SeqArg(ks) =>
      AddAllIsUnion(s, ks);
      AddAll(s, ks)
  }

  /* A union with a Set operand lays the operand's entries under those of `s`. */
  lemma UnionOfSets(s: Set, t: Set)
    requires Valid(s) && Valid(t)
    ensures Union(s, SetArg(t)).entries == t.entries + s.entries
  {
  }

  /* An intersection with a Set operand drops the members of `s` the operand
     lacks. */
  lemma IntersectOfSets(s: Set, t: Set)
    requires Valid(s) && Valid(t)
    ensures Intersect(s, SetArg(t)).entries == s.entries - (Abstract(s) - Abstract(t))
  {
  }

  /* An array operand gives the same result as the Set built from it. */
  lemma ArrayOperand(s: Set, ks: seq<Key>)
    requires Valid(s)
    ensures Intersect(s, SeqArg(ks)) == Intersect(s, SetArg(New(ks)))
    ensures Union(s, SeqArg(ks)) == Union(s, SetArg(New(ks)))
  {
    AddAllIsUnion(s, ks);
  }

  predicate AllValid(sets: seq<Set>) {
    forall i :: 0 <= i < |sets| ==> Valid(sets[i])
  }

  /* `Set.intersectAll(sets)`: the members every set holds, with the keys
     stored in the first set. */
  function IntersectAll(sets: seq<Set>): (r: Set)
    requires |sets| > 0 && AllValid(sets)
    ensures Valid(r)
    ensures forall c :: c in r.entries <==> forall i :: 0 <= i < |sets| ==> c in sets[i].entries
    ensures forall c :: c in r.entries ==> r.entries[c] == sets[0].entries[c]
    decreases |sets|
  {
    if |sets| == 1 then sets[0]
    else
      var init := sets[..|sets| - 1];
      assert forall i :: 0 <= i < |init| ==> init[i] == sets[i];
      var r := Intersect(IntersectAll(init), SetArg(sets[|sets| - 1]));
      assert forall c :: c in r.entries <==> forall i :: 0 <= i < |sets| ==> c in sets[i].entries by {
        forall c ensures c in r.entries <==> forall i :: 0 <= i < |sets| ==> c in sets[i].entries {
          HeldByAllSplit(sets, c);
        }
      }
      r
  }

  /* Every set holds `c` exactly when every set before the last one does and
     the last one does. */
  lemma HeldByAllSplit(sets: seq<Set>, c: string)
    requires |sets| > 1
    ensures (forall i :: 0 <= i < |sets| ==> c in sets[i].entries) <==>
      (forall i :: 0 <= i < |sets| - 1 ==> c in sets[i].entries) && c in sets[|sets| - 1].entries
  {
  }

  /* No set before position `i` holds `c`. */
  predicate FirstHolder(sets: seq<Set>, i: int, c: string)
    requires 0 <= i < |sets|
  {
    forall j :: 0 <= j < i ==> c !in sets[j].entries
  }

  /* `Set.unionAll(sets)`: the members any set holds. */
  function UnionAll(sets: seq<Set>): (r: Set)
    requires |sets| > 0 && AllValid(sets)
    ensures Valid(r)
    ensures forall c :: c in r.entries <==> exists i :: 0 <= i < |sets| && c in sets[i].entries
    decreases |sets|
  {
    if |sets| == 1 then sets[0]
    else
      var init := sets[..|sets| - 1];
      assert forall i :: 0 <= i < |init| ==> init[i] == sets[i];
      var r := Union(UnionAll(init), SetArg(sets[|sets| - 1]));
      assert forall c :: c in r.entries <==> exists i :: 0 <= i < |sets| && c in sets[i].entries by {
        forall c ensures c in r.entries <==> exists i :: 0 <= i < |sets| && c in sets[i].entries {
          HeldSplit(sets, c);
        }
      }
      r
  }

  /* Some set holds `c` exactly when some set before the last one does or the
     last one does. */
  lemma HeldSplit(sets: seq<Set>, c: string)
    requires |sets| > 1
    ensures (exists i :: 0 <= i < |sets| && c in sets[i].entries) <==>
      (exists i :: 0 <= i < |sets| - 1 && c in sets[i].entries) || c in sets[|sets| - 1].entries
  {
  }

  /* In `Set.unionAll(sets)` a member carries the key stored in the first set
     that holds it. */
  lemma {:induction false} UnionAllKeepsFirst(sets: seq<Set>, i: int, c: string)
    requires |sets| > 0 && AllValid(sets)
    requires 0 <= i < |sets| && c in sets[i].entries && FirstHolder(sets, i, c)
    ensures c in UnionAll(sets).entries && UnionAll(sets).entries[c] == sets[i].entries[c]
    decreases |sets|
  {
    if |sets| > 1 {
      var init, last := sets[..|sets| - 1], sets[|sets| - 1];
      assert AllValid(init) by {
        forall j | 0 <= j < |init| ensures Valid(init[j]) {
          assert init[j] == sets[j];
        }
      }
      var u := UnionAll(init);
      assert UnionAll(sets) == Union(u, SetArg(last));
      UnionOfSets(u, last);
      if i < |init| {
        assert init[i] == sets[i];
        assert FirstHolder(init, i, c) by {
          forall j | 0 <= j < i ensures c !in init[j].entries {
            assert init[j] == sets[j];
          }
        }
        UnionAllKeepsFirst(init, i, c);
      } else {
        HeldSplit(sets, c);
        assert c !in u.entries;
      }
    }
  }

  /* The folds take one more set by one more binary call: they are left folds
     starting from the first set. */
  lemma FoldStep(sets: seq<Set>, t: Set)
    requires |sets| > 0 && AllValid(sets) && Valid(t)
    ensures IntersectAll(sets + [t]) == Intersect(IntersectAll(sets), SetArg(t))
    ensures UnionAll(sets + [t]) == Union(UnionAll(sets), SetArg(t))
  {
    assert (sets + [t])[..|sets|] == sets;
  }

  /* A fold over one set is that set. */
  lemma FoldSingle(s: Set)
    requires Valid(s)
    ensures IntersectAll([s]) == s && UnionAll([s]) == s
  {
  }

  /* Swapping the operands keeps the members, and keeps the result exactly
     when both sets store the same key for every shared member. */
  lemma SwapOperands(a: Set, b: Set)
    requires Valid(a) && Valid(b)
    ensures Abstract(Intersect(a, SetArg(b))) == Abstract(Intersect(b, SetArg(a)))
    ensures Abstract(Union(a, SetArg(b))) == Abstract(Union(b, SetArg(a)))
    ensures Intersect(a, SetArg(b)) == Intersect(b, SetArg(a)) <==>
      forall c :: c in a.entries && c in b.entries ==> a.entries[c] == b.entries[c]
    ensures Union(a, SetArg(b)) == Union(b, SetArg(a)) <==>
      forall c :: c in a.entries && c in b.entries ==> a.entries[c] == b.entries[c]
  {
  }

  /* Combining a set with itself gives the set back. */
  lemma SelfOperand(s: Set)
    requires Valid(s)
    ensures Intersect(s, SetArg(s)) == s
    ensures Union(s, SetArg(s)) == s
  {
  }

  lemma IntersectAssociative(a: Set, b: Set, c: Set)
    requires Valid(a) && Valid(b) && Valid(c)
    ensures Intersect(Intersect(a, SetArg(b)), SetArg(c)) == Intersect(a, SetArg(Intersect(b, SetArg(c))))
  {
  }

  lemma UnionAssociative(a: Set, b: Set, c: Set)
    requires Valid(a) && Valid(b) && Valid(c)
    ensures Union(Union(a, SetArg(b)), SetArg(c)) == Union(a, SetArg(Union(b, SetArg(c))))
  {
    var ab, bc := Union(a, SetArg(b)), Union(b, SetArg(c));
    UnionOfSets(a, b);
    UnionOfSets(b, c);
    UnionOfSets(ab, c);
    UnionOfSets(a, bc);
    MapUnionAssociative(c.entries, b.entries, a.entries);
  }

  /* Each operation undoes the growth or loss of the other. */
  lemma Absorption(a: Set, b: Set)
    requires Valid(a) && Valid(b)
    ensures Union(a, SetArg(Intersect(a, SetArg(b)))) == a
    ensures Intersect(a, SetArg(Union(a, SetArg(b)))) == a
  {
  }

  /* The sizes of the union and the intersection add up to the sizes of the
     operands. */
  lemma InclusionExclusion(a: Set, b: Set)
    requires Valid(a) && Valid(b)
    ensures Size(Union(a, SetArg(b))) + Size(Intersect(a, SetArg(b))) == Size(a) + Size(b)
  {
    ValuesCount(a);
    ValuesCount(b);
    ValuesCount(Union(a, SetArg(b)));
    ValuesCount(Intersect(a, SetArg(b)));
  }
}
