/**
 The graphlib string-keyed Set: a collection of unique keys in which two keys
 are the same member exactly when their canonical strings are equal.

 A set is a map from canonical string to the key as it was first inserted
 under that string. The representation invariant `Valid` says every entry is
 filed under its own canonical string. Every operation is a pure function
 returning a new value, so an operand is never changed by an operation.
 */
module KeySet {
  import opened Canonical

  datatype Set = Set(entries: map<string, Key>)

  /* The outcome of `add` or `remove`: the boolean the call returns and the
     set as it is after the call. */
  datatype Outcome = Outcome(changed: bool, after: Set)

  /* Each stored key is filed under its canonical string. */
  predicate Valid(s: Set) {
    forall c :: c in s.entries ==> Canon(s.entries[c]) == c
  }

  /* The canonical strings of the members: the set in the mathematical sense. */
  function Abstract(s: Set): set<string> {
    s.entries.Keys
  }

  /* The members as originally inserted, which `keys()` reports. */
  function Values(s: Set): set<Key> {
    s.entries.Values
  }

  /* The canonical strings of a sequence of keys. */
  function CanonSet(ks: seq<Key>): set<string> {
    set k | k in ks :: Canon(k)
  }

  /* Position `i` is the first occurrence of its canonical string in `ks`. */
  predicate FirstOccurrence(ks: seq<Key>, i: int)
    requires 0 <= i < |ks|
  {
    forall j :: 0 <= j < i ==> Canon(ks[j]) != Canon(ks[i])
  }

  /* No two keys of the sequence are the same member. */
  predicate DistinctCanons(ks: seq<Key>) {
    forall i, j :: 0 <= i < j < |ks| ==> Canon(ks[i]) != Canon(ks[j])
  }

  function Empty(): (r: Set)
    ensures Valid(r)
    ensures Abstract(r) == {} && Values(r) == {}
  {
    Set(map[])
  }

  /* `has(key)`: whether some member coerces to the same string as `k`. */
  function Has(s: Set, k: Key): (b: bool)
    requires Valid(s)
    ensures b <==> exists v :: v in Values(s) && Canon(v) == Canon(k)
  {
    var c := Canon(k);
    assert c in s.entries ==> s.entries[c] in Values(s);
    c in s.entries
  }

  /* In a valid set, distinct canonical strings hold distinct keys, so there
     are as many reported keys as members. */
  lemma {:induction false} ValuesCount(s: Set)
    requires Valid(s)
    ensures |Values(s)| == |Abstract(s)|
    decreases |s.entries|
  {
    if s.entries != map[] {
      var c :| c in s.entries;
      var rest := Set(s.entries - {c});
      ValuesCount(rest);
      assert s.entries[c] !in Values(rest);
      forall v | v in Values(s)
        ensures v in Values(rest) + {s.entries[c]}
      {
        var d :| d in s.entries && s.entries[d] == v;
        if d != c {
          assert rest.entries[d] == v;
        }
      }
      assert Values(s) == Values(rest) + {s.entries[c]};
      assert Abstract(s) == Abstract(rest) + {c};
    }
  }

  /* `size()`: the number of distinct members, which is also the number of
     keys `keys()` reports. */
  function Size(s: Set): (n: nat)
    requires Valid(s)
    ensures n == |Values(s)|
  {
    ValuesCount(s);
    |s.entries|
  }

  /* `keys()`: every member once, as originally inserted, in no particular
     order. The result is a fresh sequence; nothing in the set changes. */
  method Keys(s: Set) returns (ks: seq<Key>)
    requires Valid(s)
    ensures |ks| == Size(s)
    ensures forall i :: 0 <= i < |ks| ==> ks[i] in Values(s)
    ensures forall v :: v in Values(s) ==> v in ks
    ensures DistinctCanons(ks)
  {
    ks := [];
    var rest := Abstract(s);
    while rest != {}
      invariant rest <= Abstract(s)
      invariant |ks| + |rest| == |Abstract(s)|
      invariant forall i :: 0 <= i < |ks| ==>
        Canon(ks[i]) in Abstract(s) - rest && s.entries[Canon(ks[i])] == ks[i]
      invariant forall c :: c in Abstract(s) - rest ==> s.entries[c] in ks
      invariant forall i, j :: 0 <= i < j < |ks| ==> Canon(ks[i]) != Canon(ks[j])
      decreases rest
    {
      var c :| c in rest;
      ks := ks + [s.entries[c]];
      rest := rest - {c};
    }
  }

  /* `add(key)`: inserts `k` unless a member with the same canonical string is
     present; an existing member is never overwritten. Returns whether the
     set changed. */
  function Add(s: Set, k: Key): (r: Outcome)
    requires Valid(s)
    ensures Valid(r.after)
    ensures r.changed <==> !Has(s, k)
    ensures Has(r.after, k)
    ensures Abstract(r.after) == Abstract(s) + {Canon(k)}
    ensures forall c :: c in s.entries ==> c in r.after.entries && r.after.entries[c] == s.entries[c]
    ensures r.changed ==> r.after.entries[Canon(k)] == k && Size(r.after) == Size(s) + 1
    ensures !r.changed ==> r.after == s
  {
    var c := Canon(k);
    if c in s.entries then Outcome(false, s)
    else Outcome(true, Set(s.entries[c := k]))
  }

  /* `remove(key)`: deletes the member with the same canonical string as `k`,
     if any. Returns whether the set changed. */
  function Remove(s: Set, k: Key): (r: Outcome)
    requires Valid(s)
    ensures Valid(r.after)
    ensures r.changed <==> Has(s, k)
    ensures !Has(r.after, k)
    ensures Abstract(r.after) == Abstract(s) - {Canon(k)}
    ensures forall c :: c in r.after.entries ==> c in s.entries && r.after.entries[c] == s.entries[c]
    ensures Size(r.after) == if r.changed then Size(s) - 1 else Size(s)
    ensures !r.changed ==> r.after == s
  {
    var c := Canon(k);
    if c in s.entries then Outcome(true, Set(s.entries - {c}))
    else Outcome(false, s)
  }

  /* How the canonical strings and first occurrences of a non-empty sequence
     relate to those of its tail. */
  lemma SplitFirst(ks: seq<Key>)
    requires |ks| > 0
    ensures CanonSet(ks) == {Canon(ks[0])} + CanonSet(ks[1..])
    ensures forall i :: 1 <= i < |ks| && FirstOccurrence(ks, i) ==>
      Canon(ks[i]) != Canon(ks[0]) && FirstOccurrence(ks[1..], i - 1)
  {
    assert ks == [ks[0]] + ks[1..];
    forall i | 1 <= i < |ks| && FirstOccurrence(ks, i)
      ensures FirstOccurrence(ks[1..], i - 1)
    {
      forall j | 0 <= j < i - 1
        ensures Canon(ks[1..][j]) != Canon(ks[1..][i - 1])
      {
        assert ks[1..][j] == ks[j + 1];
      }
    }
  }

  /* Adds the keys of `ks` one after another, in sequence order. */
  function AddAll(s: Set, ks: seq<Key>): (r: Set)
    requires Valid(s)
    ensures Valid(r)
    ensures Abstract(r) == Abstract(s) + CanonSet(ks)
    ensures forall c :: c in s.entries ==> r.entries[c] == s.entries[c]
    ensures forall i :: 0 <= i < |ks| && Canon(ks[i]) !in s.entries && FirstOccurrence(ks, i) ==>
      r.entries[Canon(ks[i])] == ks[i]
    ensures forall c :: c in r.entries && c !in s.entries ==> r.entries[c] in ks
    decreases |ks|
  {
    if |ks| == 0 then s
    else
      var s' := Add(s, ks[0]).after;
      var r := AddAll(s', ks[1..]);
      SplitFirst(ks);
      assert forall i :: 0 <= i < |ks| && Canon(ks[i]) !in s.entries && FirstOccurrence(ks, i) ==>
        r.entries[Canon(ks[i])] == ks[i] by {
        forall i | 0 <= i < |ks| && Canon(ks[i]) !in s.entries && FirstOccurrence(ks, i)
          ensures r.entries[Canon(ks[i])] == ks[i]
        {
          if i > 0 {
            assert ks[1..][i - 1] == ks[i];
          }
        }
      }
      r
  }

  /* `new Set(initialKeys)`: the empty set with the initial keys added in
     order, so duplicates collapse and the first occurrence is kept. */
  function New(ks: seq<Key>): (r: Set)
    ensures Valid(r)
    ensures Abstract(r) == CanonSet(ks)
    ensures forall i :: 0 <= i < |ks| && FirstOccurrence(ks, i) ==> r.entries[Canon(ks[i])] == ks[i]
    ensures Values(r) <= set k | k in ks
  {
    AddAll(Empty(), ks)
  }

  /* Adding a sequence of keys and then one more key is adding the extended
     sequence: the constructor behaves like repeated `add`. */
  lemma {:induction false} AddAllSnoc(s: Set, ks: seq<Key>, k: Key)
    requires Valid(s)
    ensures AddAll(s, ks + [k]) == Add(AddAll(s, ks), k).after
    decreases |ks|
  {
    if |ks| == 0 {
      assert ks + [k] == [k];
      assert [k][1..] == [];
    } else {
      var s1 := Add(s, ks[0]).after;
      assert (ks + [k])[0] == ks[0];
      assert (ks + [k])[1..] == ks[1..] + [k];
      AddAllSnoc(s1, ks[1..], k);
    }
  }

  /* The initial keys never yield more members than there are keys. */
  lemma {:induction false} NewSizeBound(ks: seq<Key>)
    ensures Size(New(ks)) <= |ks|
    ensures Size(New(ks)) == |ks| <==> DistinctCanons(ks)
  {
    var r := New(ks);
    forall i | 0 <= i < |ks|
      ensures Canon(ks[i]) in r.entries
    {
      assert Canon(ks[i]) in CanonSet(ks);
    }
    CanonSetCount(ks);
  }

  /* A non-empty sequence has distinct members exactly when its tail does and
     its head is not among the tail's members. */
  lemma DistinctCons(ks: seq<Key>)
    requires |ks| > 0
    ensures DistinctCanons(ks) <==> DistinctCanons(ks[1..]) && Canon(ks[0]) !in CanonSet(ks[1..])
  {
  }

  /* A sequence has at most as many canonical strings as elements, and exactly
     as many when no two of its elements are the same member. */
  lemma {:induction false} CanonSetCount(ks: seq<Key>)
    ensures |CanonSet(ks)| <= |ks|
    ensures |CanonSet(ks)| == |ks| <==> DistinctCanons(ks)
    decreases |ks|
  {
    if |ks| > 0 {
      var t := ks[1..];
      SplitFirst(ks);
      DistinctCons(ks);
      CanonSetCount(t);
      if Canon(ks[0]) in CanonSet(t) {
        assert CanonSet(ks) == CanonSet(t);
      }
    }
  }

  /* Adding a key that is absent and then removing it restores the set. */
  lemma AddThenRemove(s: Set, k: Key)
    requires Valid(s) && !Has(s, k)
    ensures Remove(Add(s, k).after, k) == Outcome(true, s)
  {
    assert Add(s, k).after.entries - {Canon(k)} == s.entries;
  }

  /* Removing a member and adding back its stored key restores the set. */
  lemma RemoveThenAdd(s: Set, k: Key)
    requires Valid(s) && Has(s, k)
    ensures Add(Remove(s, k).after, s.entries[Canon(k)]) == Outcome(true, s)
  {
    var v := s.entries[Canon(k)];
    assert Canon(v) == Canon(k);
    assert Remove(s, k).after.entries[Canon(k) := v] == s.entries;
  }

  /* Adding twice: the first call reports a change only if the key was absent,
     the second never does, and the key is present after both. */
  lemma AddTwice(s: Set, k: Key)
    requires Valid(s)
    ensures Add(s, k).changed == !Has(s, k)
    ensures !Add(Add(s, k).after, k).changed
    ensures Add(Add(s, k).after, k).after == Add(s, k).after
  {
  }

  /* Removing twice: the second call never reports a change. */
  lemma RemoveTwice(s: Set, k: Key)
    requires Valid(s)
    ensures !Remove(Remove(s, k).after, k).changed
    ensures Remove(Remove(s, k).after, k).after == Remove(s, k).after
  {
  }

  /* Keys with the same canonical string are one member: after adding one,
     the set has the other and adding the other changes nothing, and the key
     reported is the first one. */
  lemma SameMember(s: Set, a: Key, b: Key)
    requires Valid(s) && Canon(a) == Canon(b) && !Has(s, a)
    ensures Has(Add(s, a).after, b)
    ensures Add(Add(s, a).after, b) == Outcome(false, Add(s, a).after)
    ensures a in Values(Add(Add(s, a).after, b).after)
    ensures a != b ==> b !in Values(Add(Add(s, a).after, b).after)
  {
  }
}
