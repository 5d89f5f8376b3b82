/**
 The concrete scenarios of the graphlib Set test suite, stated over the model.
 The suite compares `keys().sort()` against an array; here the same outcome
 is stated as the set of reported keys, which `keys()` lists once each.
 An array literal of three or more elements is written as the literal of all
 but its last element followed by the last one: the same sequence, written
 so because the verifier unfolds a display of three or more elements at a
 much higher cost.
 */
module Scenarios {
  import opened Canonical
  import opened KeySet
  import opened SetAlgebra
  import opened Shapes

  lemma CanonOfSmallInts()
    ensures Canon(Num(1)) == "1" && Canon(Num(2)) == "2" && Canon(Num(3)) == "3"
  {
  }

  /* `new Set(["foo", "bar", "baz", "foo"])`: four keys, three members. */
  lemma ConstructorCollapsesDuplicates()
    ensures Size(New([Str("foo"), Str("bar")] + [Str("baz")] + [Str("foo")])) == 3
    ensures Values(New([Str("foo"), Str("bar")] + [Str("baz")] + [Str("foo")])) == {Str("foo"), Str("bar"), Str("baz")}
  {
    RepeatCollapses(Str("foo"), Str("bar"), Str("baz"));
  }

  /* The set each scenario of the suite starts from: "a", "b" and "c". */
  function Abc(): (s: Set)
    ensures Valid(s)
    ensures s.entries == map["a" := Str("a"), "b" := Str("b"), "c" := Str("c")]
  {
    var s1 := Add(Empty(), Str("a")).after;
    assert s1.entries == map["a" := Str("a")];
    var s2 := Add(s1, Str("b")).after;
    assert s2.entries == map["a" := Str("a"), "b" := Str("b")];
    Add(s2, Str("c")).after
  }

  lemma QueriesOnAbc()
    ensures Size(Abc()) == 3
    ensures Values(Abc()) == {Str("a"), Str("b"), Str("c")}
    ensures Has(Abc(), Str("a")) && Has(Abc(), Str("b")) && Has(Abc(), Str("c"))
    ensures !Has(Abc(), Str("foo"))
  {
    SizeOfLiteral3(Abc(), "a", "b", "c", Str("a"), Str("b"), Str("c"));
  }

  lemma AddOnAbc()
    ensures Add(Abc(), Str("foo")).changed && Has(Add(Abc(), Str("foo")).after, Str("foo"))
    ensures !Add(Abc(), Str("a")).changed && Has(Add(Abc(), Str("a")).after, Str("a"))
  {
  }

  lemma RemoveOnAbc()
    ensures Remove(Abc(), Str("a")).changed && !Has(Remove(Abc(), Str("a")).after, Str("a"))
    ensures Size(Remove(Abc(), Str("a")).after) == 2
    ensures !Remove(Abc(), Str("foo")).changed && !Has(Remove(Abc(), Str("foo")).after, Str("foo"))
    ensures Size(Remove(Abc(), Str("foo")).after) == 3
  {
    QueriesOnAbc();
  }

  /* Adding the number 1 reports the number, and the string "1" is then the
     same member. */
  lemma NumberKeyKeepsItsType()
    ensures Values(Add(Empty(), Num(1)).after) == {Num(1)}
    ensures !Add(Add(Empty(), Num(1)).after, Str("1")).changed
  {
    CanonOfSmallInts();
    assert Add(Empty(), Num(1)).after.entries == map["1" := Num(1)];
  }

  /* `new Set([1, 2])` against `new Set([1, 3])`, `new Set(["1", 3])` and the
     array `["1", 3]`: the member 1 is reported as the number 1. */
  lemma IntersectExamples()
    ensures Values(Intersect(New([Num(1), Num(2)]), SetArg(New([Num(1), Num(3)])))) == {Num(1)}
    ensures Values(Intersect(New([Num(1), Num(2)]), SetArg(New([Str("1"), Num(3)])))) == {Num(1)}
    ensures Values(Intersect(New([Num(1), Num(2)]), SeqArg([Str("1"), Num(3)]))) == {Num(1)}
  {
    CanonOfSmallInts();
    CombinePairs(Num(1), Num(2), Num(1), Num(3));
    CombinePairs(Num(1), Num(2), Str("1"), Num(3));
  }

  lemma UnionExamples()
    ensures Values(Union(New([Num(1), Num(2)]), SetArg(New([Num(1), Num(3)])))) == {Num(1), Num(2), Num(3)}
    ensures Values(Union(New([Num(1), Num(2)]), SetArg(New([Str("1"), Num(3)])))) == {Num(1), Num(2), Num(3)}
    ensures Values(Union(New([Num(1), Num(2)]), SeqArg([Str("1"), Num(3)]))) == {Num(1), Num(2), Num(3)}
  {
    CanonOfSmallInts();
    CombinePairs(Num(1), Num(2), Num(1), Num(3));
    CombinePairs(Num(1), Num(2), Str("1"), Num(3));
  }

  /* The four sets of the `intersectAll` and `unionAll` scenarios. */
  lemma FoldSet1()
    ensures New([Num(1), Num(2)] + [Num(3)]).entries == map["1" := Num(1), "2" := Num(2), "3" := Num(3)]
  {
    CanonOfSmallInts();
    NewOfDistinct3(Num(1), Num(2), Num(3));
  }

  lemma FoldSet2()
    ensures New([Num(2), Num(3)] + [Str("A")]).entries == map["2" := Num(2), "3" := Num(3), "A" := Str("A")]
  {
    CanonOfSmallInts();
    NewOfDistinct3(Num(2), Num(3), Str("A"));
  }

  lemma FoldSet3()
    ensures New([Num(3), Str("A")] + [Str("B")]).entries == map["3" := Num(3), "A" := Str("A"), "B" := Str("B")]
  {
    CanonOfSmallInts();
    NewOfDistinct3(Num(3), Str("A"), Str("B"));
  }

  lemma FoldSet4()
    ensures New([Str("1")]).entries == map["1" := Str("1")]
  {
    assert [Str("1")][1..] == [];
  }

  /* `Set.intersectAll([new Set([1, 2, 3]), new Set([2, 3, "A"]), new Set([3, "A", "B"])])`
     holds exactly the number 3. */
  lemma IntersectAllExample(s1: Set, s2: Set, s3: Set)
    requires s1 == New([Num(1), Num(2)] + [Num(3)])
    requires s2 == New([Num(2), Num(3)] + [Str("A")])
    requires s3 == New([Num(3), Str("A")] + [Str("B")])
    ensures AllValid([s1, s2] + [s3]) && Values(IntersectAll([s1, s2] + [s3])) == {Num(3)}
  {
    AllValidOfThree(s1, s2, s3);
    FoldSet1();
    FoldSet2();
    FoldSet3();
    assert Distinct5("1", "2", "3", "A", "B");
    UnfoldIntersectAll3(s1, s2, s3);
    IntersectAllLiterals(s1, s2, s3, "1", "2", "3", "A", "B", Num(1), Num(2), Num(3), Str("A"), Str("B"));
    ValuesOfLiteral1(map["3" := Num(3)], "3", Num(3));
  }

  /* `Set.unionAll` of the same three sets and `new Set(["1"])`: the string
     "1" coming last does not displace the number 1 of the first set. */
  lemma UnionAllExample(s1: Set, s2: Set, s3: Set, s4: Set)
    requires s1 == New([Num(1), Num(2)] + [Num(3)])
    requires s2 == New([Num(2), Num(3)] + [Str("A")])
    requires s3 == New([Num(3), Str("A")] + [Str("B")])
    requires s4 == New([Str("1")])
    ensures AllValid([s1, s2] + [s3] + [s4])
    ensures Values(UnionAll([s1, s2] + [s3] + [s4])) == {Num(1), Num(2), Num(3), Str("A"), Str("B")}
  {
    AllValidOfThree(s1, s2, s3);
    AllValidOfFour(s1, s2, s3, s4);
    FoldSet1();
    FoldSet2();
    FoldSet3();
    FoldSet4();
    assert Distinct5("1", "2", "3", "A", "B");
    UnfoldUnionAll4(s1, s2, s3, s4);
    UnionAllLiterals(s1, s2, s3, s4, "1", "2", "3", "A", "B", Num(1), Num(2), Num(3), Str("A"), Str("B"), Str("1"));
    ValuesOfLiteral5(map["1" := Num(1), "2" := Num(2), "3" := Num(3), "A" := Str("A"), "B" := Str("B")],
                     "1", "2", "3", "A", "B", Num(1), Num(2), Num(3), Str("A"), Str("B"));
  }
}
