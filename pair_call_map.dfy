/**
 * The edge map of a profile (`PairCallMap`): each encoded edge key maps to
 * the cost record of that edge. The queries over it (`Flatten`,
 * `ComputeNearestFamily`) and the averaging of several maps
 * (`AvgPairCallMaps`) visit the keys in an unspecified order; each is proved
 * equal to an order-free definition by sums over sets of edge keys.
 */
module PairCallMaps {
  import opened Wrappers
  import opened EdgeKeys
  import opened PairCalls
  import opened EdgeSums

  /** The decoded caller of an edge key ("" for a root call). */
  function Parent(k: string): string
  {
    ParsePairName(k).0
  }

  /** The decoded callee of an edge key. */
  function Child(k: string): string
  {
    ParsePairName(k).1
  }

  // ---------------------------------------------------------------------------
  // The nearest family of a function: its immediate callees and callers.

  /**
   * `NearestFamily`: per-callee and per-caller buckets (only `Count` and
   * `WallTime` are filled in) and the running totals of their counts.
   */
  datatype NearestFamily = NearestFamily(
    Children: map<string, Cost>,
    Parents: map<string, Cost>,
    ChildrenCount: int,
    ParentsCount: int)

  /** Each running total equals the sum of the counts of its buckets. */
  ghost predicate Balanced(family: NearestFamily)
  {
    && family.ChildrenCount == TotalCount(family.Children)
    && family.ParentsCount == TotalCount(family.Parents)
  }

  /** `NewNearestFamily`: no buckets yet, and the totals agree with that. */
  function NewNearestFamily(): (family: NearestFamily)
    ensures family.Children.Keys == {} && family.Parents.Keys == {}
    ensures family.ChildrenCount == 0 && family.ParentsCount == 0
    ensures Balanced(family)
  {
    NearestFamily(map[], map[], 0, 0)
  }

  /** The record at `k`, or a zero record when `m` lacks `k`. */
  function GetOrZero(m: map<string, Cost>, k: string): Cost
  {
    if k in m then m[k] else Zero
  }

  /**
   * Get-or-create bucket `name`, then add the count and wall time of `info`
   * to it; its other fields stay as they were.
   */
  function Bump(buckets: map<string, Cost>, name: string, info: Cost): map<string, Cost>
  {
    var b := GetOrZero(buckets, name);
    buckets[name := b.(WallTime := b.WallTime + info.WallTime, Count := b.Count + info.Count)]
  }

  /** Only the count and the wall time of a record. */
  function CountWall(c: Cost): Cost
  {
    Cost(c.Count, c.WallTime, 0.0, 0.0, 0.0)
  }

  /** The edges among `keys` from caller `p` to callee `c`. */
  ghost function Edges(keys: set<string>, p: string, c: string): set<string>
  {
    set k | k in keys && Parent(k) == p && Child(k) == c
  }

  /** The edges among `keys` whose caller is `f`. */
  ghost function OutEdges(keys: set<string>, f: string): set<string>
  {
    set k | k in keys && Parent(k) == f
  }

  /** The edges among `keys` whose callee is `f` and whose caller is known. */
  ghost function InEdges(keys: set<string>, f: string): set<string>
  {
    set k | k in keys && Child(k) == f && Parent(k) != ""
  }

  /** The callees of `f` along `keys`. */
  ghost function Callees(keys: set<string>, f: string): set<string>
  {
    set k | k in keys && Parent(k) == f :: Child(k)
  }

  /** The known callers of `f` along `keys`. */
  ghost function Callers(keys: set<string>, f: string): set<string>
  {
    set k | k in keys && Child(k) == f && Parent(k) != "" :: Parent(k)
  }

  /** The per-callee buckets of `f` over the edges `keys` of `m`. */
  ghost function ChildBuckets(m: map<string, Cost>, f: string, keys: set<string>): map<string, Cost>
    requires keys <= m.Keys
  {
    map c | c in Callees(keys, f) :: CountWall(Sum(m, Edges(keys, f, c)))
  }

  /** The per-caller buckets of `f` over the edges `keys` of `m`. */
  ghost function ParentBuckets(m: map<string, Cost>, f: string, keys: set<string>): map<string, Cost>
    requires keys <= m.Keys
  {
    map p | p in Callers(keys, f) :: CountWall(Sum(m, Edges(keys, p, f)))
  }

  /** The nearest family of `f` over the edges `keys` of `m`, defined by sums. */
  ghost function Family(m: map<string, Cost>, f: string, keys: set<string>): NearestFamily
    requires keys <= m.Keys
  {
    NearestFamily(ChildBuckets(m, f, keys), ParentBuckets(m, f, keys),
                  Sum(m, OutEdges(keys, f)).Count, Sum(m, InEdges(keys, f)).Count)
  }

  /** With no edges visited the family is the empty one. */
  lemma FamilyOfNone(m: map<string, Cost>, f: string)
    ensures Family(m, f, {}) == NewNearestFamily()
  {
    assert OutEdges({}, f) == {} && InEdges({}, f) == {};
    assert Callees({}, f) == {} && Callers({}, f) == {};
  }

  /** Maps with the same keys and the same value at each key are equal. */
  lemma MapsEqual<V>(a: map<string, V>, b: map<string, V>)
    requires forall x :: (x in a <==> x in b) && (x in a ==> a[x] == b[x])
    ensures a == b
  {
  }

  /** A callee of `f` is one with at least one edge from `f`. */
  lemma CalleeHasEdge(keys: set<string>, f: string, c: string)
    ensures c in Callees(keys, f) <==> Edges(keys, f, c) != {}
  {
    if c in Callees(keys, f) {
      var k :| k in keys && Parent(k) == f && Child(k) == c;
      assert k in Edges(keys, f, c);
    }
    if Edges(keys, f, c) != {} {
      var k := Pick(Edges(keys, f, c));
      assert Child(k) in Callees(keys, f);
    }
  }

  /** A known caller of `f` is one with at least one edge to `f`. */
  lemma CallerHasEdge(keys: set<string>, f: string, p: string)
    ensures p in Callers(keys, f) <==> p != "" && Edges(keys, p, f) != {}
  {
    if p in Callers(keys, f) {
      var k :| k in keys && Child(k) == f && Parent(k) != "" && Parent(k) == p;
      assert k in Edges(keys, p, f);
    }
    if p != "" && Edges(keys, p, f) != {} {
      var k := Pick(Edges(keys, p, f));
      assert Parent(k) in Callers(keys, f);
    }
  }

  /** The edges between `p` and `c` gain `k` exactly when `k` is such an edge. */
  lemma EdgesStep(keys: set<string>, k: string, p: string, c: string)
    ensures Edges(keys + {k}, p, c) ==
            if Parent(k) == p && Child(k) == c then Edges(keys, p, c) + {k} else Edges(keys, p, c)
  {
  }

  /** The callee bucket `c` exists exactly when there is an edge from `f` to `c`, and holds their sum. */
  lemma ChildBucketIs(m: map<string, Cost>, f: string, keys: set<string>, c: string)
    requires keys <= m.Keys
    ensures c in ChildBuckets(m, f, keys) <==> Edges(keys, f, c) != {}
    ensures c in ChildBuckets(m, f, keys) ==>
      ChildBuckets(m, f, keys)[c] == CountWall(Sum(m, Edges(keys, f, c)))
  {
    CalleeHasEdge(keys, f, c);
  }

  /** Bumping one bucket leaves every other bucket as it was. */
  lemma BumpElsewhere(buckets: map<string, Cost>, name: string, info: Cost, c: string)
    requires c != name
    ensures c in Bump(buckets, name, info) <==> c in buckets
    ensures c in buckets ==> Bump(buckets, name, info)[c] == buckets[c]
  {
  }

  /**
   * A bucket that summed the edges `e` (and was absent when there were none)
   * sums `e + {k}` after bumping it with the record of `k`.
   */
  lemma BucketGrows(m: map<string, Cost>, e: set<string>, k: string, before: map<string, Cost>, c: string)
    requires e <= m.Keys && k in m && k !in e
    requires c in before <==> e != {}
    requires c in before ==> before[c] == CountWall(Sum(m, e))
    ensures CountWall(Sum(m, e + {k})) == Bump(before, c, m[k])[c]
  {
    SumAdd(m, e, k);
    if c !in before {
      assert e == {};
      assert Sum(m, e) == Zero;
    }
  }

  /** An edge from `f` adds its record to the bucket of its callee. */
  lemma ChildBucketGrows(m: map<string, Cost>, f: string, keys: set<string>, k: string)
    requires keys <= m.Keys && k in m && k !in keys && Parent(k) == f
    ensures Child(k) in ChildBuckets(m, f, keys + {k})
    ensures ChildBuckets(m, f, keys + {k})[Child(k)] ==
            Bump(ChildBuckets(m, f, keys), Child(k), m[k])[Child(k)]
  {
    var c := Child(k);
    ChildBucketIs(m, f, keys + {k}, c);
    ChildBucketIs(m, f, keys, c);
    EdgesStep(keys, k, f, c);
    BucketGrows(m, Edges(keys, f, c), k, ChildBuckets(m, f, keys), c);
  }

  /** A callee bucket other than the edge's own is left as it was. */
  lemma ChildBucketKept(m: map<string, Cost>, f: string, keys: set<string>, k: string, c: string)
    requires keys <= m.Keys && k in m && k !in keys && !(Parent(k) == f && Child(k) == c)
    ensures c in ChildBuckets(m, f, keys + {k}) <==> c in ChildBuckets(m, f, keys)
    ensures c in ChildBuckets(m, f, keys) ==>
            ChildBuckets(m, f, keys + {k})[c] == ChildBuckets(m, f, keys)[c]
  {
    ChildBucketIs(m, f, keys + {k}, c);
    ChildBucketIs(m, f, keys, c);
    EdgesStep(keys, k, f, c);
  }

  /** The callee bucket `c` after one more edge `k`, as the Go loop body leaves it. */
  lemma ChildBucketAt(m: map<string, Cost>, f: string, keys: set<string>, k: string, c: string)
    requires keys <= m.Keys && k in m && k !in keys
    ensures var before, after := ChildBuckets(m, f, keys), ChildBuckets(m, f, keys + {k});
            var expected := if Parent(k) == f then Bump(before, Child(k), m[k]) else before;
            (c in after <==> c in expected) && (c in after ==> after[c] == expected[c])
  {
    if Parent(k) == f && Child(k) == c {
      ChildBucketGrows(m, f, keys, k);
    } else {
      ChildBucketKept(m, f, keys, k, c);
      if Parent(k) == f {
        BumpElsewhere(ChildBuckets(m, f, keys), Child(k), m[k], c);
      }
    }
  }

  /** Visiting one more edge `k` bumps the callee bucket of `Child(k)` when `f` is the caller. */
  lemma ChildBucketsStep(m: map<string, Cost>, f: string, keys: set<string>, k: string)
    requires keys <= m.Keys && k in m && k !in keys
    ensures ChildBuckets(m, f, keys + {k}) ==
            if Parent(k) == f then Bump(ChildBuckets(m, f, keys), Child(k), m[k])
            else ChildBuckets(m, f, keys)
  {
    var before, after := ChildBuckets(m, f, keys), ChildBuckets(m, f, keys + {k});
    var expected := if Parent(k) == f then Bump(before, Child(k), m[k]) else before;
    forall c
      ensures (c in after <==> c in expected) && (c in after ==> after[c] == expected[c])
    {
      ChildBucketAt(m, f, keys, k, c);
    }
    MapsEqual(after, expected);
  }

  /** The caller bucket `p` exists exactly when `p` is known and has an edge to `f`, and holds their sum. */
  lemma ParentBucketIs(m: map<string, Cost>, f: string, keys: set<string>, p: string)
    requires keys <= m.Keys
    ensures p in ParentBuckets(m, f, keys) <==> p != "" && Edges(keys, p, f) != {}
    ensures p in ParentBuckets(m, f, keys) ==>
      ParentBuckets(m, f, keys)[p] == CountWall(Sum(m, Edges(keys, p, f)))
  {
    CallerHasEdge(keys, f, p);
  }

  /** An edge to `f` from a known caller adds its record to the bucket of that caller. */
  lemma ParentBucketGrows(m: map<string, Cost>, f: string, keys: set<string>, k: string)
    requires keys <= m.Keys && k in m && k !in keys && Child(k) == f && Parent(k) != ""
    ensures Parent(k) in ParentBuckets(m, f, keys + {k})
    ensures ParentBuckets(m, f, keys + {k})[Parent(k)] ==
            Bump(ParentBuckets(m, f, keys), Parent(k), m[k])[Parent(k)]
  {
    var p := Parent(k);
    ParentBucketIs(m, f, keys + {k}, p);
    ParentBucketIs(m, f, keys, p);
    EdgesStep(keys, k, p, f);
    BucketGrows(m, Edges(keys, p, f), k, ParentBuckets(m, f, keys), p);
  }

  /** A caller bucket other than the edge's own known caller is left as it was. */
  lemma ParentBucketKept(m: map<string, Cost>, f: string, keys: set<string>, k: string, p: string)
    requires keys <= m.Keys && k in m && k !in keys
    requires !(Child(k) == f && Parent(k) == p && p != "")
    ensures p in ParentBuckets(m, f, keys + {k}) <==> p in ParentBuckets(m, f, keys)
    ensures p in ParentBuckets(m, f, keys) ==>
            ParentBuckets(m, f, keys + {k})[p] == ParentBuckets(m, f, keys)[p]
  {
    ParentBucketIs(m, f, keys + {k}, p);
    ParentBucketIs(m, f, keys, p);
    EdgesStep(keys, k, p, f);
  }

  /** The caller bucket `p` after one more edge `k`, as the Go loop body leaves it. */
  lemma ParentBucketAt(m: map<string, Cost>, f: string, keys: set<string>, k: string, p: string)
    requires keys <= m.Keys && k in m && k !in keys
    ensures var before, after := ParentBuckets(m, f, keys), ParentBuckets(m, f, keys + {k});
            var expected := if Child(k) == f && Parent(k) != "" then Bump(before, Parent(k), m[k]) else before;
            (p in after <==> p in expected) && (p in after ==> after[p] == expected[p])
  {
    if Child(k) == f && Parent(k) == p && p != "" {
      ParentBucketGrows(m, f, keys, k);
    } else {
      ParentBucketKept(m, f, keys, k, p);
      if Child(k) == f && Parent(k) != "" {
        BumpElsewhere(ParentBuckets(m, f, keys), Parent(k), m[k], p);
      }
    }
  }

  /** Visiting one more edge `k` bumps the caller bucket of `Parent(k)` when `f` is the known callee. */
  lemma ParentBucketsStep(m: map<string, Cost>, f: string, keys: set<string>, k: string)
    requires keys <= m.Keys && k in m && k !in keys
    ensures ParentBuckets(m, f, keys + {k}) ==
            if Child(k) == f && Parent(k) != "" then Bump(ParentBuckets(m, f, keys), Parent(k), m[k])
            else ParentBuckets(m, f, keys)
  {
    var before, after := ParentBuckets(m, f, keys), ParentBuckets(m, f, keys + {k});
    var expected := if Child(k) == f && Parent(k) != "" then Bump(before, Parent(k), m[k]) else before;
    forall p
      ensures (p in after <==> p in expected) && (p in after ==> after[p] == expected[p])
    {
      ParentBucketAt(m, f, keys, k, p);
    }
    MapsEqual(after, expected);
  }

  /**
   * One iteration of the `ComputeNearestFamily` loop over edge `name` with
   * record `info`: a callee bucket when `f` is the caller, a caller bucket
   * when `f` is the callee and the caller is known.
   */
  function Visit(family: NearestFamily, f: string, name: string, info: Cost): NearestFamily
  {
    var parent, child := Parent(name), Child(name);
    var afterChild :=
      if parent == f
      then family.(Children := Bump(family.Children, child, info),
                   ChildrenCount := family.ChildrenCount + info.Count)
      else family;
    if child == f && parent != ""
    then afterChild.(Parents := Bump(afterChild.Parents, parent, info),
                     ParentsCount := afterChild.ParentsCount + info.Count)
    else afterChild
  }

  /** Bumping a bucket adds the record's count to the sum of the bucket counts. */
  lemma BumpTotalCount(buckets: map<string, Cost>, name: string, info: Cost)
    ensures TotalCount(Bump(buckets, name, info)) == TotalCount(buckets) + info.Count
  {
    TotalCountUpdate(buckets, name, Bump(buckets, name, info)[name]);
  }

  /** The loop body keeps each running total equal to the sum of its bucket counts. */
  lemma VisitBalanced(family: NearestFamily, f: string, name: string, info: Cost)
    requires Balanced(family)
    ensures Balanced(Visit(family, f, name, info))
  {
    BumpTotalCount(family.Children, Child(name), info);
    BumpTotalCount(family.Parents, Parent(name), info);
  }

  /** Visiting one more edge `k` of the order-free definition is one iteration of the loop body. */
  lemma FamilyStep(m: map<string, Cost>, f: string, keys: set<string>, k: string)
    requires keys <= m.Keys && k in m && k !in keys
    ensures Family(m, f, keys + {k}) == Visit(Family(m, f, keys), f, k, m[k])
  {
    var keys' := keys + {k};
    var v := Visit(Family(m, f, keys), f, k, m[k]);
    ChildBucketsStep(m, f, keys, k);
    ParentBucketsStep(m, f, keys, k);
    assert v.Children == ChildBuckets(m, f, keys');
    assert v.Parents == ParentBuckets(m, f, keys');
    assert v.ChildrenCount == Sum(m, OutEdges(keys', f)).Count by {
      if Parent(k) == f {
        assert OutEdges(keys', f) == OutEdges(keys, f) + {k};
        SumAdd(m, OutEdges(keys, f), k);
      } else {
        assert OutEdges(keys', f) == OutEdges(keys, f);
      }
    }
    assert v.ParentsCount == Sum(m, InEdges(keys', f)).Count by {
      if Child(k) == f && Parent(k) != "" {
        assert InEdges(keys', f) == InEdges(keys, f) + {k};
        SumAdd(m, InEdges(keys, f), k);
      } else {
        assert InEdges(keys', f) == InEdges(keys, f);
      }
    }
  }

  /**
   * Totals equal sums of buckets: `ChildrenCount` is the sum of the counts
   * of the callee buckets, `ParentsCount` that of the caller buckets.
   */
  lemma {:induction false} FamilyBalanced(m: map<string, Cost>, f: string, keys: set<string>)
    requires keys <= m.Keys
    ensures Balanced(Family(m, f, keys))
    decreases keys
  {
    if keys == {} {
      FamilyOfNone(m, f);
    } else {
      var k := Pick(keys);
      var rest := keys - {k};
      assert rest + {k} == keys;
      FamilyBalanced(m, f, rest);
      FamilyStep(m, f, rest, k);
      VisitBalanced(Family(m, f, rest), f, k, m[k]);
    }
  }

  /**
   * The buckets hold the sums the query promises: for every callee `c`, the
   * count and wall time summed over the edges `f ==> c`; for every known
   * caller `p`, those summed over the edges `p ==> f`; the other three
   * metrics stay zero, and no caller bucket is named "".
   */
  lemma FamilyBuckets(m: map<string, Cost>, f: string, keys: set<string>)
    requires keys <= m.Keys
    ensures var family := Family(m, f, keys);
      && (forall c :: c in family.Children <==> Edges(keys, f, c) != {})
      && (forall c :: c in family.Children ==>
            family.Children[c].Count == Sum(m, Edges(keys, f, c)).Count &&
            family.Children[c].WallTime == Sum(m, Edges(keys, f, c)).WallTime &&
            family.Children[c].CpuTime == 0.0 && family.Children[c].Memory == 0.0 &&
            family.Children[c].PeakMemory == 0.0)
      && "" !in family.Parents
      && (forall p :: p in family.Parents <==> p != "" && Edges(keys, p, f) != {})
      && (forall p :: p in family.Parents ==>
            family.Parents[p].Count == Sum(m, Edges(keys, p, f)).Count &&
            family.Parents[p].WallTime == Sum(m, Edges(keys, p, f)).WallTime &&
            family.Parents[p].CpuTime == 0.0 && family.Parents[p].Memory == 0.0 &&
            family.Parents[p].PeakMemory == 0.0)
  {
    forall c {
      CalleeHasEdge(keys, f, c);
    }
    forall p {
      CallerHasEdge(keys, f, p);
    }
  }

  /**
   * A self-recursive edge `f ==> f` is counted twice: once in the callee
   * bucket `f` and once in the caller bucket `f`.
   */
  lemma SelfEdgeInBothBuckets(m: map<string, Cost>, f: string)
    requires f != "" && !ContainsSep(f)
    requires PairName(f, f) in m
    ensures var family := Family(m, f, m.Keys);
      && f in family.Children && f in family.Parents
      && PairName(f, f) in Edges(m.Keys, f, f)
  {
    var k := PairName(f, f);
    RoundTrip(f, f);
    assert Child(k) in Callees(m.Keys, f);
    assert Parent(k) in Callers(m.Keys, f);
  }

  /**
   * Querying the empty name collects every edge that decodes with an empty
   * parent: the bare keys, but also keys such as `==>c` and keys with two or
   * more separators, filed under their first piece. A key without a
   * separator is its own callee bucket.
   */
  lemma RootCallsAreChildrenOfEmpty(m: map<string, Cost>, k: string)
    requires k in m
    ensures Parent(k) == "" ==> Child(k) in Family(m, "", m.Keys).Children
    ensures !ContainsSep(k) ==> k in Family(m, "", m.Keys).Children
  {
    if !ContainsSep(k) {
      ParseWithoutSep(k);
    }
    if Parent(k) == "" {
      assert Child(k) in Callees(m.Keys, "");
    }
  }

  // ---------------------------------------------------------------------------
  // Flattening into a symbol table.

  /**
   * A symbol-table entry (`Call`), abstracted: its name and the edge records
   * it received, keyed by edge, as inclusive additions and as exclusive
   * subtractions. How a `Call` turns them into costs is not part of this model.
   */
  datatype Call = Call(Name: string, Inclusive: map<string, Cost>, Exclusive: map<string, Cost>)

  /** The flattened profile: every entry once, in no particular order, and `main()`. */
  datatype Profile = Profile(Calls: seq<Call>, Main: Option<Call>)

  /** `&Call{Name: name}`. */
  function NewCall(name: string): Call
  {
    Call(name, map[], map[])
  }

  /** One edge record received as inclusive cost. */
  function AddPairCall(call: Call, key: string, info: Cost): Call
  {
    call.(Inclusive := call.Inclusive[key := info])
  }

  /** One edge record received as an exclusive subtraction. */
  function SubtractExcl(call: Call, key: string, info: Cost): Call
  {
    call.(Exclusive := call.Exclusive[key := info])
  }

  /** The names of the symbol table: every callee, and every known caller. */
  ghost function SymbolNames(keys: set<string>): set<string>
  {
    (set k | k in keys :: Child(k)) + (set k | k in keys && Parent(k) != "" :: Parent(k))
  }

  /** The records of the edges among `keys` whose callee is `n`. */
  ghost function Received(m: map<string, Cost>, keys: set<string>, n: string): map<string, Cost>
    requires keys <= m.Keys
  {
    map k | k in keys && Child(k) == n :: m[k]
  }

  /** The records of the edges among `keys` whose caller is `n`, when `n` is a known caller. */
  ghost function Subtracted(m: map<string, Cost>, keys: set<string>, n: string): map<string, Cost>
    requires keys <= m.Keys
  {
    map k | k in keys && n != "" && Parent(k) == n :: m[k]
  }

  /** The symbol table over the edges `keys` of `m`, defined name by name. */
  ghost function Symbols(m: map<string, Cost>, keys: set<string>): map<string, Call>
    requires keys <= m.Keys
  {
    map n | n in SymbolNames(keys) :: Call(n, Received(m, keys, n), Subtracted(m, keys, n))
  }

  /** One iteration of the first loop of `Flatten` on the edge `key`. */
  function FlattenStep(symbols: map<string, Call>, key: string, info: Cost): map<string, Call>
  {
    var parent, child := Parent(key), Child(key);
    var call := if child in symbols then symbols[child] else NewCall(child);
    var symbols' := symbols[child := AddPairCall(call, key, info)];
    if parent == "" then symbols'
    else
      var pcall := if parent in symbols' then symbols'[parent] else NewCall(parent);
      symbols'[parent := SubtractExcl(pcall, key, info)]
  }

  /** A name is a symbol exactly when some edge has it as callee or as known caller. */
  lemma SymbolNameHasEdge(keys: set<string>, n: string)
    ensures n in SymbolNames(keys) <==>
      exists k :: k in keys && (Child(k) == n || (n != "" && Parent(k) == n))
  {
    if exists k :: k in keys && (Child(k) == n || (n != "" && Parent(k) == n)) {
      var k :| k in keys && (Child(k) == n || (n != "" && Parent(k) == n));
      if Child(k) == n {
        assert n in (set k | k in keys :: Child(k));
      } else {
        assert n in (set k | k in keys && Parent(k) != "" :: Parent(k));
      }
    }
  }

  /** A name that is no symbol has received nothing. */
  lemma NoSymbolNoRecords(m: map<string, Cost>, keys: set<string>, n: string)
    requires keys <= m.Keys && n !in SymbolNames(keys)
    ensures Received(m, keys, n) == map[] && Subtracted(m, keys, n) == map[]
  {
    SymbolNameHasEdge(keys, n);
    MapsEqual(Received(m, keys, n), map[]);
    MapsEqual(Subtracted(m, keys, n), map[]);
  }

  /** One more edge `k` is received by its callee only. */
  lemma ReceivedStep(m: map<string, Cost>, keys: set<string>, k: string, n: string)
    requires keys <= m.Keys && k in m && k !in keys
    ensures Received(m, keys + {k}, n) ==
      if Child(k) == n then Received(m, keys, n)[k := m[k]] else Received(m, keys, n)
  {
    MapsEqual(Received(m, keys + {k}, n),
      if Child(k) == n then Received(m, keys, n)[k := m[k]] else Received(m, keys, n));
  }

  /** One more edge `k` is subtracted by its known caller only. */
  lemma SubtractedStep(m: map<string, Cost>, keys: set<string>, k: string, n: string)
    requires keys <= m.Keys && k in m && k !in keys
    ensures Subtracted(m, keys + {k}, n) ==
      if n != "" && Parent(k) == n then Subtracted(m, keys, n)[k := m[k]] else Subtracted(m, keys, n)
  {
    MapsEqual(Subtracted(m, keys + {k}, n),
      if n != "" && Parent(k) == n then Subtracted(m, keys, n)[k := m[k]] else Subtracted(m, keys, n));
  }

  /** The entry `n` after one more edge `k`, as the loop body leaves it. */
  lemma SymbolAt(m: map<string, Cost>, keys: set<string>, k: string, n: string)
    requires keys <= m.Keys && k in m && k !in keys
    ensures var after, step := Symbols(m, keys + {k}), FlattenStep(Symbols(m, keys), k, m[k]);
      (n in after <==> n in step) && (n in after ==> after[n] == step[n])
  {
    SymbolNameHasEdge(keys + {k}, n);
    SymbolNameHasEdge(keys, n);
    ReceivedStep(m, keys, k, n);
    SubtractedStep(m, keys, k, n);
    if n !in SymbolNames(keys) {
      NoSymbolNoRecords(m, keys, n);
    }
  }

  /** Visiting one more edge is one iteration of the loop body. */
  lemma SymbolsStep(m: map<string, Cost>, keys: set<string>, k: string)
    requires keys <= m.Keys && k in m && k !in keys
    ensures Symbols(m, keys + {k}) == FlattenStep(Symbols(m, keys), k, m[k])
  {
    forall n
      ensures var after, step := Symbols(m, keys + {k}), FlattenStep(Symbols(m, keys), k, m[k]);
        (n in after <==> n in step) && (n in after ==> after[n] == step[n])
    {
      SymbolAt(m, keys, k, n);
    }
    MapsEqual(Symbols(m, keys + {k}), FlattenStep(Symbols(m, keys), k, m[k]));
  }

  /**
   * The symbol table accounts for every edge once on each side: the edge
   * `k` is received inclusively by its callee's entry and by no other, and
   * exclusively by its caller's entry when it has a caller, and by no other.
   * Every entry carries its own name.
   */
  lemma SymbolsAccountEachEdge(m: map<string, Cost>, k: string, n: string)
    requires k in m
    ensures var symbols := Symbols(m, m.Keys);
      && Child(k) in symbols && symbols[Child(k)].Inclusive[k] == m[k]
      && (n in symbols ==> symbols[n].Name == n)
      && (n in symbols ==> (k in symbols[n].Inclusive <==> n == Child(k)))
      && (n in symbols ==> (k in symbols[n].Exclusive <==> n == Parent(k) && n != ""))
      && (Parent(k) != "" ==> Parent(k) in symbols && symbols[Parent(k)].Exclusive[k] == m[k])
  {
    assert Child(k) in SymbolNames(m.Keys);
    if Parent(k) != "" {
      assert Parent(k) in SymbolNames(m.Keys);
    }
  }

  // ---------------------------------------------------------------------------
  // Averaging several maps.

  /** The Go map value of every element, in order. */
  ghost function Contents(maps: seq<PairCallMap>): (ms: seq<map<string, Cost>>)
    reads maps
    ensures |ms| == |maps| && forall i :: 0 <= i < |maps| ==> ms[i] == maps[i].M
  {
    if maps == [] then [] else Contents(maps[..|maps| - 1]) + [maps[|maps| - 1].M]
  }

  /** Every key of any of the maps. */
  ghost function KeyUnion(ms: seq<map<string, Cost>>): set<string>
  {
    set i, k | 0 <= i < |ms| && k in ms[i] :: k
  }

  /** The sum of the records at `k` over the maps that hold `k`, in order. */
  function Total(ms: seq<map<string, Cost>>, k: string): Cost
  {
    if ms == [] then Zero
    else
      var init := Total(ms[..|ms| - 1], k);
      var last := ms[|ms| - 1];
      if k in last then Plus(init, last[k]) else init
  }

  /** One more map adds its record at `k`, if it has one. */
  lemma TotalSnoc(ms: seq<map<string, Cost>>, m: map<string, Cost>, k: string)
    ensures Total(ms + [m], k) == if k in m then Plus(Total(ms, k), m[k]) else Total(ms, k)
  {
    assert (ms + [m])[..|ms|] == ms;
  }

  /** The average of `ms`: every key of any map, its total divided by the number of maps. */
  ghost function Average(ms: seq<map<string, Cost>>): map<string, Cost>
  {
    if ms == [] then map[]
    else map k | k in KeyUnion(ms) :: Scaled(Total(ms, k), |ms| as real)
  }

  /** The maps of `ms` but the last cover the keys of `ms` but those only in the last. */
  lemma KeyUnionSnoc(ms: seq<map<string, Cost>>, m: map<string, Cost>)
    ensures KeyUnion(ms + [m]) == KeyUnion(ms) + m.Keys
  {
    var ms' := ms + [m];
    forall k | k in KeyUnion(ms')
      ensures k in KeyUnion(ms) + m.Keys
    {
      var i :| 0 <= i < |ms'| && k in ms'[i];
      if i < |ms| {
        assert ms[i] == ms'[i];
      }
    }
    forall k | k in KeyUnion(ms) + m.Keys
      ensures k in KeyUnion(ms')
    {
      if k in m {
        assert ms'[|ms|] == m;
      } else {
        var i :| 0 <= i < |ms| && k in ms[i];
        assert ms'[i] == ms[i];
      }
    }
  }

  /** A key held by none of the maps totals to zero. */
  lemma {:induction false} TotalOutsideUnion(ms: seq<map<string, Cost>>, k: string)
    requires k !in KeyUnion(ms)
    ensures Total(ms, k) == Zero
    decreases |ms|
  {
    if ms != [] {
      var init := ms[..|ms| - 1];
      assert ms == init + [ms[|ms| - 1]];
      KeyUnionSnoc(init, ms[|ms| - 1]);
      TotalOutsideUnion(init, k);
    }
  }

  /** Averaging one map by the general rule gives that map back. */
  lemma AverageOfOne(m: map<string, Cost>)
    ensures Average([m]) == m
  {
    assert [] + [m] == [m];
    KeyUnionSnoc([], m);
    forall k | k in m
      ensures Average([m])[k] == m[k]
    {
      TotalSnoc([], m, k);
      PlusZero(m[k]);
      ScaledByOne(m[k]);
    }
    MapsEqual(Average([m]), m);
  }

  /** `n` copies of one map. */
  function Copies(m: map<string, Cost>, n: nat): (ms: seq<map<string, Cost>>)
    ensures |ms| == n && forall i :: 0 <= i < n ==> ms[i] == m
  {
    if n == 0 then [] else Copies(m, n - 1) + [m]
  }

  /** `n` times a record. */
  function Times(c: Cost, n: nat): Cost
  {
    Cost(c.Count * n, c.WallTime * n as real, c.CpuTime * n as real,
         c.Memory * n as real, c.PeakMemory * n as real)
  }

  /** One more copy adds the record once more. */
  lemma TimesSucc(c: Cost, n: nat)
    ensures Plus(Times(c, n), c) == Times(c, n + 1)
  {
    var r := n as real;
    assert (n + 1) as real == r + 1.0;
    assert c.WallTime * r + c.WallTime == c.WallTime * (r + 1.0);
    assert c.CpuTime * r + c.CpuTime == c.CpuTime * (r + 1.0);
    assert c.Memory * r + c.Memory == c.Memory * (r + 1.0);
    assert c.PeakMemory * r + c.PeakMemory == c.PeakMemory * (r + 1.0);
  }

  /** The total over `n` copies of a map is `n` times the record. */
  lemma {:induction false} TotalOfCopies(m: map<string, Cost>, n: nat, k: string)
    requires k in m
    ensures Total(Copies(m, n), k) == Times(m[k], n)
  {
    if n == 0 {
      assert Times(m[k], 0) == Zero;
    } else {
      TotalOfCopies(m, n - 1, k);
      TotalSnoc(Copies(m, n - 1), m, k);
      TimesSucc(m[k], n - 1);
    }
  }

  /** Dividing `n` times a record by `n` gives the record back. */
  lemma ScaledTimes(c: Cost, n: nat)
    requires n >= 1
    ensures Scaled(Times(c, n), n as real) == c
  {
    assert TruncToInt(n as real) == n;
    TruncDivOfMultiple(c.Count, n);
  }

  /** Averaging repeated identical runs gives the run back, count included. */
  lemma AverageOfCopies(m: map<string, Cost>, n: nat)
    requires n >= 1
    ensures Average(Copies(m, n)) == m
  {
    var ms := Copies(m, n);
    assert KeyUnion(ms) == m.Keys by {
      forall k | k in m ensures k in KeyUnion(ms) {
        assert k in ms[0];
      }
    }
    forall k | k in m
      ensures Average(ms)[k] == m[k]
    {
      TotalOfCopies(m, n, k);
      ScaledTimes(m[k], n);
    }
  }

  /** Two maps together hold the keys of either. */
  lemma KeyUnionOfTwo(m1: map<string, Cost>, m2: map<string, Cost>)
    ensures KeyUnion([m1, m2]) == m1.Keys + m2.Keys
  {
    assert [] + [m1] == [m1] && [m1] + [m2] == [m1, m2];
    assert KeyUnion([]) == {};
    KeyUnionSnoc([], m1);
    KeyUnionSnoc([m1], m2);
  }

  /** The total over two maps adds their records, a missing one counting as zero. */
  lemma TotalOfTwo(m1: map<string, Cost>, m2: map<string, Cost>, k: string)
    ensures Total([m1, m2], k) == Plus(GetOrZero(m1, k), GetOrZero(m2, k))
  {
    var t1 := Total([m1], k);
    assert t1 == GetOrZero(m1, k) by {
      assert [] + [m1] == [m1];
      TotalSnoc([], m1, k);
      PlusZero(GetOrZero(m1, k));
    }
    assert Total([m1, m2], k) == if k in m2 then Plus(t1, m2[k]) else t1 by {
      assert [m1] + [m2] == [m1, m2];
      TotalSnoc([m1], m2, k);
    }
    PlusZero(t1);
  }

  /**
   * The average of two runs holds the keys of either; a key missing from
   * one run counts as zero there, and the sum is still divided by two.
   */
  lemma AverageOfTwo(m1: map<string, Cost>, m2: map<string, Cost>, k: string)
    ensures k in Average([m1, m2]) <==> k in m1 || k in m2
    ensures k in Average([m1, m2]) ==>
      Average([m1, m2])[k] == Scaled(Plus(GetOrZero(m1, k), GetOrZero(m2, k)), 2.0)
  {
    KeyUnionOfTwo(m1, m2);
    TotalOfTwo(m1, m2, k);
  }

  /**
   * Two runs holding "X" with count 2, wall time 10 and count 4, wall time
   * 20 average to count 3, wall time 15; a key "Y" held by one run only
   * (count 3, wall time 8) is divided by two all the same, its count
   * truncated to 1.
   */
  lemma AverageExample(m1: map<string, Cost>, m2: map<string, Cost>)
    requires m1 == map["X" := Cost(2, 10.0, 0.0, 0.0, 0.0)]
    requires m2 == map["X" := Cost(4, 20.0, 0.0, 0.0, 0.0), "Y" := Cost(3, 8.0, 0.0, 0.0, 0.0)]
    ensures Average([m1, m2]) == map["X" := Cost(3, 15.0, 0.0, 0.0, 0.0), "Y" := Cost(1, 4.0, 0.0, 0.0, 0.0)]
  {
    var avg := Average([m1, m2]);
    var expected := map["X" := Cost(3, 15.0, 0.0, 0.0, 0.0), "Y" := Cost(1, 4.0, 0.0, 0.0, 0.0)];
    assert "X" in avg && avg["X"] == Cost(3, 15.0, 0.0, 0.0, 0.0) by {
      ScaledPair(m1["X"], m2["X"], Cost(3, 15.0, 0.0, 0.0, 0.0));
      AverageOfTwo(m1, m2, "X");
    }
    assert "Y" in avg && avg["Y"] == Cost(1, 4.0, 0.0, 0.0, 0.0) by {
      assert "Y" != "X" by { assert "Y"[0] != "X"[0]; }
      assert GetOrZero(m1, "Y") == Zero;
      ScaledPair(GetOrZero(m1, "Y"), m2["Y"], Cost(1, 4.0, 0.0, 0.0, 0.0));
      AverageOfTwo(m1, m2, "Y");
    }
    forall k
      ensures k in avg <==> k in expected
    {
      AverageOfTwo(m1, m2, k);
    }
    MapsEqual(avg, expected);
  }

  /** Arithmetic of the example: two records added and halved. */
  lemma ScaledPair(a: Cost, b: Cost, r: Cost)
    requires a.CpuTime == a.Memory == a.PeakMemory == 0.0
    requires b.CpuTime == b.Memory == b.PeakMemory == 0.0
    requires r.Count >= 0 && r.CpuTime == r.Memory == r.PeakMemory == 0.0
    requires r.WallTime * 2.0 == a.WallTime + b.WallTime
    requires 0 <= a.Count + b.Count - 2 * r.Count < 2
    ensures Scaled(Plus(a, b), 2.0) == r
  {
    assert TruncToInt(2.0) == 2;
    var n := a.Count + b.Count;
    assert n >= 0;
    assert TruncDiv(n, 2) == n / 2;
    DivUnique(n, 2, r.Count);
  }

  // ---------------------------------------------------------------------------
  // The map itself.

  /** `PairCallMap`: the edge map, updated in place during ingestion. */
  class PairCallMap {
    var M: map<string, Cost>

    /** `NewPairCallMap`: an empty map. */
    constructor ()
      ensures M == map[]
    {
      M := map[];
    }

    /**
     * `NewPairCall`, get-or-create: an existing key returns its record and
     * changes nothing; a missing key gains an all-zero record, which is
     * returned. No other key or record changes.
     */
    method NewPairCall(name: string) returns (pc: Cost)
      modifies this
      ensures name in old(M) ==> pc == old(M)[name] && M == old(M)
      ensures name !in old(M) ==> pc == Zero && M == old(M)[name := Zero]
      ensures M.Keys == old(M).Keys + {name} && name in M && M[name] == pc
      ensures forall k :: k in old(M) ==> M[k] == old(M)[k]
    {
      if name in M {
        pc := M[name];
        return;
      }
      pc := Zero;
      M := M[name := pc];
    }

    /**
     * `ComputeNearestFamily`: the callees and known callers of `f` with
     * their summed counts and wall times, and the totals. The map is only
     * read.
     */
    method ComputeNearestFamily(f: string) returns (family: NearestFamily)
      ensures family == Family(M, f, M.Keys)
      ensures Balanced(family)
    {
      family := NewNearestFamily();
      FamilyOfNone(M, f);
      var done: set<string> := {};
      while done != M.Keys
        invariant done <= M.Keys
        invariant family == Family(M, f, done)
        decreases M.Keys - done
      {
        var name :| name in M.Keys && name !in done;
        ghost var before := family;
        var info := M[name];
        var parent, child := Parent(name), Child(name);
        if parent == f {
          family := family.(Children := Bump(family.Children, child, info),
                            ChildrenCount := family.ChildrenCount + info.Count);
        }
        if child == f && parent != "" {
          family := family.(Parents := Bump(family.Parents, parent, info),
                            ParentsCount := family.ParentsCount + info.Count);
        }
        assert family == Visit(before, f, name, info);
        FamilyStep(M, f, done, name);
        done := done + {name};
      }
      FamilyBalanced(M, f, M.Keys);
    }

    /**
     * `Flatten`: the symbol table of every callee and known caller, each
     * entry having received its inclusive and exclusive edge records; every
     * entry is listed once, and `Main` is the `main()` entry when there is one.
     */
    method Flatten() returns (profile: Profile)
      ensures |profile.Calls| == |Symbols(M, M.Keys)|
      ensures forall i :: 0 <= i < |profile.Calls| ==>
        profile.Calls[i].Name in Symbols(M, M.Keys) &&
        Symbols(M, M.Keys)[profile.Calls[i].Name] == profile.Calls[i]
      ensures forall i, j :: 0 <= i < j < |profile.Calls| ==>
        profile.Calls[i].Name != profile.Calls[j].Name
      ensures Names(profile.Calls) == Symbols(M, M.Keys).Keys
      ensures profile.Main ==
        if "main()" in Symbols(M, M.Keys) then Some(Symbols(M, M.Keys)["main()"]) else None
    {
      var symbols: map<string, Call> := map[];
      var done: set<string> := {};
      assert Symbols(M, {}) == map[] by {
        assert SymbolNames({}) == {};
      }
      while done != M.Keys
        invariant done <= M.Keys
        invariant symbols == Symbols(M, done)
        decreases M.Keys - done
      {
        var name :| name in M.Keys && name !in done;
        var info := M[name];
        var parent, child := Parent(name), Child(name);
        var call := if child in symbols then symbols[child] else NewCall(child);
        symbols := symbols[child := AddPairCall(call, name, info)];
        if parent != "" {
          call := if parent in symbols then symbols[parent] else NewCall(parent);
          symbols := symbols[parent := SubtractExcl(call, name, info)];
        }
        SymbolsStep(M, done, name);
        done := done + {name};
      }

      var calls := ListCalls(symbols);
      var main := if "main()" in symbols then Some(symbols["main()"]) else None;
      profile := Profile(calls, main);
    }
  }

  /** The names of a list of calls. */
  function Names(calls: seq<Call>): set<string>
  {
    set i | 0 <= i < |calls| :: calls[i].Name
  }

  /** One more call adds its name. */
  lemma NamesSnoc(calls: seq<Call>, c: Call)
    ensures Names(calls + [c]) == Names(calls) + {c.Name}
  {
    var calls' := calls + [c];
    assert calls'[|calls|] == c;
    forall n | n in Names(calls)
      ensures n in Names(calls')
    {
      var i :| 0 <= i < |calls| && calls[i].Name == n;
      assert calls'[i] == calls[i];
    }
  }

  /**
   * The listing loop of `Flatten`: every entry of the symbol table once,
   * in some order.
   */
  method ListCalls(symbols: map<string, Call>) returns (calls: seq<Call>)
    requires forall n :: n in symbols ==> symbols[n].Name == n
    ensures |calls| == |symbols|
    ensures Names(calls) == symbols.Keys
    ensures forall i :: 0 <= i < |calls| ==>
      calls[i].Name in symbols && symbols[calls[i].Name] == calls[i]
    ensures forall i, j :: 0 <= i < j < |calls| ==> calls[i].Name != calls[j].Name
  {
    calls := [];
    var listed: set<string> := {};
    while listed != symbols.Keys
      invariant listed <= symbols.Keys
      invariant |calls| == |listed| && Names(calls) == listed
      invariant forall i :: 0 <= i < |calls| ==>
        calls[i].Name in listed && symbols[calls[i].Name] == calls[i]
      invariant forall i, j :: 0 <= i < j < |calls| ==> calls[i].Name != calls[j].Name
      decreases symbols.Keys - listed
    {
      var n :| n in symbols.Keys && n !in listed;
      NamesSnoc(calls, symbols[n]);
      ghost var before := calls;
      calls := calls + [symbols[n]];
      listed := listed + {n};
      forall i, j | 0 <= i < j < |calls|
        ensures calls[i].Name != calls[j].Name
      {
        assert calls[i] == before[i];
        if j < |before| {
          assert calls[j] == before[j];
        }
      }
    }
    assert |symbols| == |symbols.Keys|;
  }

  /**
   * `AvgPairCallMaps`: a single map is returned itself; otherwise a fresh
   * map holding every key of any input, with the records summed over the
   * inputs that hold the key and divided by the number of inputs. No input
   * changes; an empty list gives an empty map.
   */
  method AvgPairCallMaps(maps: seq<PairCallMap>) returns (res: PairCallMap)
    ensures |maps| == 1 ==> res == maps[0]
    ensures |maps| != 1 ==> fresh(res) && res.M == Average(Contents(maps))
    ensures |maps| == 0 ==> res.M == map[]
    ensures forall i :: 0 <= i < |maps| ==> maps[i].M == old(maps[i].M)
  {
    if |maps| == 1 {
      return maps[0];
    }
    ghost var ms := Contents(maps);
    res := new PairCallMap();
    assert KeyUnion(ms[..0]) == {};

    for i := 0 to |maps|
      invariant fresh(res)
      invariant res.M.Keys == KeyUnion(ms[..i])
      invariant forall k :: k in res.M ==> res.M[k] == Total(ms[..i], k)
    {
      assert ms[..i + 1] == ms[..i] + [maps[i].M];
      AccumulateInto(res, maps[i].M, ms[..i]);
    }
    assert ms[..|maps|] == ms;
    if |maps| >= 1 {
      ScaleAll(res, |maps|, ms);
    }
  }

  /**
   * One pass of the summing loop: `acc` held the totals over `ms`; adding
   * every record of `m` makes it hold the totals over `ms + [m]`, a key new
   * to `acc` taking `m`'s record as it is.
   */
  method AccumulateInto(acc: PairCallMap, m: map<string, Cost>, ghost ms: seq<map<string, Cost>>)
    modifies acc
    requires acc.M.Keys == KeyUnion(ms)
    requires forall k :: k in acc.M ==> acc.M[k] == Total(ms, k)
    ensures acc.M.Keys == KeyUnion(ms + [m])
    ensures forall k :: k in acc.M ==> acc.M[k] == Total(ms + [m], k)
  {
    ghost var before := KeyUnion(ms);
    var done: set<string> := {};
    while done != m.Keys
      invariant done <= m.Keys
      invariant acc.M.Keys == before + done
      invariant forall k :: k in acc.M ==>
        acc.M[k] == if k in done then Plus(Total(ms, k), m[k]) else Total(ms, k)
      decreases m.Keys - done
    {
      var k :| k in m.Keys && k !in done;
      var v := m[k];
      if k !in acc.M {
        TotalOutsideUnion(ms, k);
        PlusZero(v);
        acc.M := acc.M[k := v];
      } else {
        acc.M := acc.M[k := Plus(acc.M[k], v)];
      }
      done := done + {k};
    }
    KeyUnionSnoc(ms, m);
    forall k | k in acc.M
      ensures acc.M[k] == Total(ms + [m], k)
    {
      TotalSnoc(ms, m, k);
    }
  }

  /**
   * The dividing loop: `acc` holds the totals over the `n` maps of `ms`,
   * at least one; dividing each by `n` leaves their average.
   */
  method ScaleAll(acc: PairCallMap, n: nat, ghost ms: seq<map<string, Cost>>)
    modifies acc
    requires n == |ms| >= 1
    requires acc.M.Keys == KeyUnion(ms)
    requires forall k :: k in acc.M ==> acc.M[k] == Total(ms, k)
    ensures acc.M == Average(ms)
  {
    var num := n as real;
    var scaled: set<string> := {};
    while scaled != acc.M.Keys
      invariant scaled <= acc.M.Keys
      invariant acc.M.Keys == KeyUnion(ms)
      invariant forall k :: k in acc.M ==>
        acc.M[k] == if k in scaled then Scaled(Total(ms, k), num) else Total(ms, k)
      decreases acc.M.Keys - scaled
    {
      var k :| k in acc.M.Keys && k !in scaled;
      acc.M := acc.M[k := Scaled(acc.M[k], num)];
      scaled := scaled + {k};
    }
    MapsEqual(acc.M, Average(ms));
  }
}
