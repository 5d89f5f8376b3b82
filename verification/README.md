# graphlib `Set` in Dafny

A model of graphlib's string-keyed `Set` (`graphlib.data.Set`), the small
collection of unique keys. Two keys are the same member exactly when they coerce to
the same string, so the number `1` and the string `"1"` are one member, while
`keys()` still reports each member as the value that was first inserted.

The behaviour modelled is the one `test/data/Set-test.js` asserts. The
implementation of `Set` is not part of this model.

Layout, one module per file:

- `canonical.dfy`, module `Canonical`: keys (`Num(int)` or `Str(string)`) and
  their canonical string `Canon`. An integer renders in decimal with a leading
  `-` when negative, which is how JavaScript renders integers below 10^21 in
  magnitude (see "## Left out"). `ParseInt` is the inverse of that rendering and decides
  when a string key and an integer key are the same member.
- `keyset.dfy`, module `KeySet`: a set is a map from canonical string to the
  key stored under it, with the representation invariant `Valid`: every key is
  filed under its own canonical string. It defines the constructor (`New`,
  repeated `Add` through `AddAll`), `Size`, `Keys`, `Has`, `Add` and `Remove`.
  `add` and `remove` return an `Outcome`: the boolean the call returns, plus the
  set after the call.
- `algebra.dfy`, module `SetAlgebra`: `Intersect` and `Union`, whose other
  operand is a Set or an array (`Operand`). It also defines the left folds
  `IntersectAll` and `UnionAll`, and the algebraic laws relating them.
- `shapes.dfy`, module `Shapes`: facts about sets of two to five members,
  stated over arbitrary keys. The suite's concrete cases are instances of them.
- `scenarios.dfy`, module `Scenarios`: each test case of the suite, stated as
  a lemma over the model.

Every operation is a pure function on values. "Does not change this set" and
"does not change the other set" therefore hold by construction: an operation
returns a new set and cannot touch its arguments.

## Model

| member | source | states |
|---|---|---|
| Canonical.NatToDecimal | test/data/Set-test.js:85-89 | the decimal rendering of a natural number is a non-empty digit string with no superfluous leading zero, starting with '0' only for zero |
| Canonical.DecimalOfNatRoundTrip | test/data/Set-test.js:85-89 | reading back the rendering of a natural number gives that number |
| Canonical.NatOfDecimalRoundTrip | test/data/Set-test.js:85-89 | every canonical digit string is the rendering of the number it denotes |
| Canonical.LeadingDigitPositive | test/data/Set-test.js:85-89 | a digit string with a non-zero first digit denotes a positive number |
| Canonical.IntToDecimal | test/data/Set-test.js:85-89 | the string an integer coerces to is a canonical digit string denoting its magnitude, with a leading '-' exactly when the integer is negative |
| Canonical.ParseInt | test/data/Set-test.js:85-89 | a string parses to an integer only when it is exactly that integer's rendering, and fails only when no integer renders as it |
| Canonical.Canon | test/data/Set-test.js:85-89 | a string key is its own canonical string, and an integer key's canonical string parses back to that integer |
| Canonical.ParseIntOfDecimal | test/data/Set-test.js:85-89 | the string an integer coerces to parses back to that integer |
| Canonical.DecimalOfParseInt | test/data/Set-test.js:85-89 | a string that parses to an integer is exactly the string that integer coerces to |
| Canonical.CanonNumInjective | test/data/Set-test.js:85-89 | two integer keys are the same member if and only if they are equal |
| Canonical.SameMemberNumStr | test/data/Set-test.js:85-89 | an integer key and a string key are the same member if and only if the string is the integer's decimal rendering, so `1` and `"1"` collide |
| KeySet.Empty | test/data/Set-test.js:7 | `new Set()` satisfies the representation invariant and has no members and no keys (also lines 54 and 86) |
| KeySet.Has | test/data/Set-test.js:60-70 | `has(k)` is true if and only if some stored key coerces to the same string as `k` |
| KeySet.ValuesCount | test/data/Set-test.js:42-46 | a valid set stores as many distinct keys as it has members |
| KeySet.Size | test/data/Set-test.js:42-46 | `size()` equals the number of distinct keys `keys()` reports |
| KeySet.Keys | test/data/Set-test.js:48-57 | `keys()` lists every stored key, only stored keys, one per member, and as many keys as `size()` |
| KeySet.Add | test/data/Set-test.js:72-90 | `add(k)` returns true exactly when no member matches `k`; afterwards `has(k)` holds; the members become the old ones plus `k`'s; an existing key is never overwritten; on true `k` is stored and the size grows by one; on false the set is unchanged |
| KeySet.Remove | test/data/Set-test.js:92-116 | `remove(k)` returns true exactly when a member matches `k`; afterwards `has(k)` is false; the members become the old ones minus `k`'s; the size drops by one on true and stays the same on false; on false the set is unchanged |
| KeySet.AddAll | test/data/Set-test.js:13-18 | adding a sequence of keys yields the old members plus the sequence's members; old entries keep their keys; a new member holds the first key of the sequence that has its string; every new key comes from the sequence |
| KeySet.New | test/data/Set-test.js:13-18 | `new Set(keys)` has exactly the members of `keys`; each member holds its first occurrence in `keys`; every stored key comes from `keys` |
| KeySet.AddAllSnoc | test/data/Set-test.js:13-18 | adding `ks + [k]` is adding `ks` and then calling `add(k)`, so the constructor is repeated `add` |
| KeySet.DistinctCons | test/data/Set-test.js:13-18 | a non-empty key sequence has pairwise distinct members if and only if its tail does and its head is not among the tail's members |
| KeySet.CanonSetCount | test/data/Set-test.js:13-18 | a key sequence has at most as many members as keys, and exactly as many if and only if no two keys are the same member |
| KeySet.NewSizeBound | test/data/Set-test.js:13-18 | the constructor's size is at most the number of initial keys, and equal to it if and only if the keys are pairwise distinct members |
| KeySet.AddThenRemove | test/data/Set-test.js:72-116 | adding an absent key and then removing it returns true and restores the original set |
| KeySet.RemoveThenAdd | test/data/Set-test.js:72-116 | removing a present member and re-adding its stored key returns true and restores the original set |
| KeySet.AddTwice | test/data/Set-test.js:72-83 | a second `add` of the same key returns false and changes nothing |
| KeySet.RemoveTwice | test/data/Set-test.js:105-115 | a second `remove` of the same key returns false and changes nothing |
| KeySet.SameMember | test/data/Set-test.js:85-89 | after `add(a)`, a key `b` with the same string is present, `add(b)` returns false, and the stored key is still `a` |
| SetAlgebra.AsSet | test/data/Set-test.js:145-149 | an array operand is read as the Set built from it and a Set operand as itself: the result is valid and its members are exactly the operand's (also lines 179-183) |
| SetAlgebra.Intersect | test/data/Set-test.js:118-150 | the members of `this.intersect(other)` are exactly those of both sides, each with the key stored in `this` |
| SetAlgebra.IntersectOfSets | test/data/Set-test.js:118-123 | intersecting with a Set drops exactly the members of `this` that the other set lacks |
| SetAlgebra.Union | test/data/Set-test.js:152-184 | the members of `this.union(other)` are exactly those of either side; a member of `this` keeps its stored key and any other member takes the operand's key |
| SetAlgebra.UnionOfSets | test/data/Set-test.js:152-157 | a union with a Set is the operand's entries overridden by those of `this` |
| SetAlgebra.AddAllIsUnion | test/data/Set-test.js:179-183 | adding an array's keys to a set is the union biased to that set with the set the array builds |
| SetAlgebra.ArrayOperand | test/data/Set-test.js:145-149 | an array operand gives the same intersection, and the same union (lines 179-183), as the Set built from it |
| SetAlgebra.SwapOperands | test/data/Set-test.js:139-143 | swapping the operands keeps the members of intersection and union; the results are equal if and only if both sets store the same key for every shared member, which is the bias toward `this` the suite checks |
| SetAlgebra.SelfOperand | test/data/Set-test.js:118-184 | intersecting or uniting a set with itself gives that set |
| SetAlgebra.Absorption | test/data/Set-test.js:118-184 | the union of `a` with `a ∩ b` is `a`, and the intersection of `a` with `a ∪ b` is `a`, keys included |
| SetAlgebra.InclusionExclusion | test/data/Set-test.js:118-184 | `size(a ∪ b) + size(a ∩ b) == size(a) + size(b)` |
| SetAlgebra.IntersectAll | test/data/Set-test.js:21-29 | a member is in `Set.intersectAll(sets)` if and only if every set holds it, with the key stored in the first set |
| SetAlgebra.IntersectAssociative | test/data/Set-test.js:21-29 | intersection is associative, keys included, so grouping does not matter in the fold |
| SetAlgebra.UnionAll | test/data/Set-test.js:31-40 | a member is in `Set.unionAll(sets)` if and only if some set holds it |
| SetAlgebra.UnionAllKeepsFirst | test/data/Set-test.js:31-40 | in `Set.unionAll(sets)` each member carries the key stored in the first set that holds it |
| SetAlgebra.UnionAssociative | test/data/Set-test.js:31-40 | union is associative, keys included, so grouping does not matter in the fold |
| SetAlgebra.FoldStep | test/data/Set-test.js:21-40 | both folds take one more set by one more binary call, so they are left folds |
| SetAlgebra.FoldSingle | test/data/Set-test.js:21-40 | both folds over a single set return that set |
| Shapes.NewOfDistinct3 | test/data/Set-test.js:13-18 | the constructor on three distinct members stores each key under its own string |
| Shapes.NewIgnoresRepeat | test/data/Set-test.js:13-18 | a repeated initial key adds nothing to the set built so far |
| Shapes.RepeatCollapses | test/data/Set-test.js:13-18 | three distinct keys followed by a repeat of the first build a set of size three that reports exactly those three keys |
| Shapes.CombinePairs | test/data/Set-test.js:118-184 | for `new Set([p, q])` against `new Set([p', r])` or the array `[p', r]`, with `p'` the same member as `p`: the intersection reports `{p}` and the union `{p, q, r}` |
| Shapes.UnfoldIntersectAll3 | test/data/Set-test.js:21-29 | `intersectAll` over three sets is two chained `intersect` calls |
| Shapes.UnfoldUnionAll4 | test/data/Set-test.js:31-40 | `unionAll` over four sets is three chained `union` calls |
| Shapes.IntersectAllLiterals | test/data/Set-test.js:21-29 | chaining `intersect` over sets shaped like the suite's three leaves only their common member, with the first set's key |
| Shapes.UnionAllLiterals | test/data/Set-test.js:31-40 | chaining `union` over sets shaped like the suite's four gives all five members; a later set's key never displaces an earlier one |
| Scenarios.Abc | test/data/Set-test.js:6-11 | the set built by adding "a", "b" and "c" to an empty set holds exactly those three keys |
| Scenarios.ConstructorCollapsesDuplicates | test/data/Set-test.js:13-18 | `new Set(["foo", "bar", "baz", "foo"])` has size 3 and reports "foo", "bar" and "baz" |
| Scenarios.QueriesOnAbc | test/data/Set-test.js:42-70 | the three-key set has size 3, reports "a", "b" and "c", has each of them and does not have "foo" |
| Scenarios.AddOnAbc | test/data/Set-test.js:72-83 | adding "foo" returns true and "foo" is then present; adding "a" returns false and "a" stays present |
| Scenarios.RemoveOnAbc | test/data/Set-test.js:92-116 | removing "a" returns true, removes it and leaves size 2; removing "foo" returns false and leaves size 3 |
| Scenarios.NumberKeyKeepsItsType | test/data/Set-test.js:53-57 | after adding the number 1 the set reports the number 1, and adding the string "1" then returns false (lines 85-89) |
| Scenarios.IntersectExamples | test/data/Set-test.js:118-149 | `new Set([1, 2])` intersected with `new Set([1, 3])`, `new Set(["1", 3])` or the array `["1", 3]` reports exactly the number 1 |
| Scenarios.UnionExamples | test/data/Set-test.js:152-183 | `new Set([1, 2])` united with the same three operands reports exactly 1, 2 and 3, with 1 as a number |
| Scenarios.IntersectAllExample | test/data/Set-test.js:21-29 | `Set.intersectAll` of the suite's three sets reports exactly the number 3 |
| Scenarios.UnionAllExample | test/data/Set-test.js:31-40 | `Set.unionAll` of the suite's four sets reports exactly 1, 2, 3, "A" and "B", with 1 as a number although the last set holds the string "1" |

## Left out

- The implementation of `Set` is not part of this model. The model follows the behaviour the test suite asserts, and the mocha/chai test runner is not modelled.
- KeySet.Keys: states the reported keys as a set with one key per member, not their order. The suite compares `keys().sort()`, and JavaScript's `Array.prototype.sort` on mixed numbers and strings is not modelled.
- Canonical.Canon: a `Num` key is an unbounded integer always rendered in decimal. JavaScript renders an integer of magnitude 10^21 or more in exponential form (`String(1e21)` is `"1e+21"`) and cannot hold distinct integers beyond 2^53, so the model agrees with JavaScript, and `SameMemberNumStr` and `CanonNumInjective` describe it, only for integers below both limits.
- Numeric keys are integers. JavaScript's formatting of non-integer numbers, `NaN` and `-0`, and the coercion of objects and other values through `toString`, are not modelled.
- SetAlgebra.IntersectAll and SetAlgebra.UnionAll require a non-empty sequence of sets. Their behaviour on an empty array is not exercised, so it is not modelled.
- The other operand of `intersect` and `union` is a sum type: a Set or an array. An operand that is neither, which the JavaScript code would accept or reject by duck typing, cannot be expressed.
- Every operation requires its input sets to satisfy the representation invariant `Valid`. The operations preserve it, and the constructor and the empty set establish it.
- In the scenarios, an array literal of three or more elements is written as the literal of all but its last element followed by the last one. This is the same sequence; the split form is used because the verifier unfolds a display of three or more elements at a much higher cost.
