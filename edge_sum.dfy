/**
 * Sums of cost records over a set of edge keys. Go iterates maps in an
 * unspecified order, so every aggregate is stated as a sum over a SET of keys;
 * `SumRemove` shows that the element picked first does not matter.
 */
module EdgeSums {
  import opened PairCalls

  /** Some element of a non-empty set. */
  ghost function Pick(s: set<string>): (x: string)
    requires s != {}
    ensures x in s
  {
    var x :| x in s; x
  }

  /** The elementwise sum of `m[k]` over the keys `keys`. */
  ghost function Sum(m: map<string, Cost>, keys: set<string>): Cost
    requires keys <= m.Keys
    decreases keys
  {
    if keys == {} then Zero
    else
      var k := Pick(keys);
      Plus(m[k], Sum(m, keys - {k}))
  }

  /** Any key can be taken out of the sum first. */
  lemma {:induction false} SumRemove(m: map<string, Cost>, keys: set<string>, k: string)
    requires keys <= m.Keys && k in keys
    ensures Sum(m, keys) == Plus(m[k], Sum(m, keys - {k}))
    decreases keys
  {
    var j := Pick(keys);
    if j != k {
      SumRemove(m, keys - {j}, k);
      SumRemove(m, keys - {k}, j);
      assert keys - {j} - {k} == keys - {k} - {j};
    }
  }

  /** Adding one new key adds its record to the sum. */
  lemma SumAdd(m: map<string, Cost>, keys: set<string>, k: string)
    requires keys <= m.Keys && k in m && k !in keys
    ensures Sum(m, keys + {k}) == Plus(m[k], Sum(m, keys))
  {
    SumRemove(m, keys + {k}, k);
    assert keys + {k} - {k} == keys;
  }

  /** Two maps that agree on `keys` have the same sum over `keys`. */
  lemma {:induction false} SumAgree(m1: map<string, Cost>, m2: map<string, Cost>, keys: set<string>)
    requires keys <= m1.Keys && keys <= m2.Keys
    requires forall k :: k in keys ==> m1[k] == m2[k]
    ensures Sum(m1, keys) == Sum(m2, keys)
    decreases keys
  {
    if keys != {} {
      var k := Pick(keys);
      SumAgree(m1, m2, keys - {k});
    }
  }

  /** The count of all records of a map. */
  ghost function TotalCount(m: map<string, Cost>): int
  {
    Sum(m, m.Keys).Count
  }

  /**
   * Replacing, or inserting, the record at `c` changes the total count by
   * the difference of the counts.
   */
  lemma TotalCountUpdate(m: map<string, Cost>, c: string, v: Cost)
    ensures TotalCount(m[c := v]) == TotalCount(m) - (if c in m then m[c].Count else 0) + v.Count
  {
    var m' := m[c := v];
    var rest := m.Keys - {c};
    assert m'.Keys - {c} == rest;
    SumRemove(m', m'.Keys, c);
    SumAgree(m, m', rest);
    if c in m {
      SumRemove(m, m.Keys, c);
    } else {
      assert rest == m.Keys;
    }
  }
}
