# xhprof edge maps, modelled in Dafny

This project models the call-graph edge store of the xhprof profile reader
(`xhprof/paircall.go`) and proves properties of it.

A profile records one cost record (`PairCall`) per call-graph edge. The
record holds an invocation count and four cost metrics: wall time, CPU time,
memory and peak memory. The records sit in a `PairCallMap` under an encoded
edge key. The key is `parent==>child` for a call from `parent` to `child`,
and the bare `child` for a root call.

The model covers:

- the edge-key codec `pairName` / `parsePairName` (module `EdgeKeys`,
  `pair_name.dfy`);
- the cost record and its in-place `Add` and `Divide` (module `PairCalls`,
  `pair_call.dfy`);
- the map with `NewPairCall` (module `PairCallMaps`, `pair_call_map.dfy`);
- the nearest-family query `ComputeNearestFamily`: the direct callees and
  known callers of a function, with summed counts and wall times;
- the flattening of the edge map into a symbol table (`Flatten`);
- the averaging of several runs (`AvgPairCallMaps`).

`EdgeSums` (`edge_sum.dfy`) gives the order-free sums over sets of edge keys
that the specifications are written in. `Wrappers` holds `Option`.

Every loop over a Go map visits its keys in an order Go leaves unspecified.
The model picks the next key with `:|` from the keys not yet visited. Each
loop is proved equal to an order-free definition:

- `Family` for `ComputeNearestFamily`;
- `Symbols` for `Flatten`;
- `Average` for `AvgPairCallMaps`.

Step lemmas show that one loop iteration keeps the loop's state equal to
the definition. `FamilyStep` and `SymbolsStep` take the definition over the
visited keys `keys` to the definition over `keys + {k}`. For averaging, the
outer loop runs over the list of maps: `AccumulateInto` takes the totals
over the maps `ms` visited so far to those over `ms + [m]` (through
`TotalSnoc` and `KeyUnionSnoc`), and `ScaleAll` divides them. The
properties the code promises are lemmas about those definitions.

The model follows the code on two points a first reading might get wrong:

- `parsePairName` cuts the key at EVERY separator, as `strings.Split` does.
  Only a result of exactly two pieces is read as (parent, child). A key with
  two or more separators decodes as a root call of the text before the first
  separator (`ParseManySeps`). It is not split at the first separator.
- `AvgPairCallMaps` of an empty list returns a fresh, empty map. It does not
  fail.

Values of `float32` are modelled as exact `real`s. `int` is modelled as an
unbounded integer. `int(d)` becomes an explicit truncation toward zero
(`TruncToInt`). Go's integer `/` becomes an explicit quotient rounded toward
zero (`TruncDiv`), because Dafny's `/` is Euclidean.

## Model

| member | source | states |
|---|---|---|
| `EdgeKeys.FindSepSpec` | xhprof/paircall.go:179 | The separator search finds the first `==>` in the key, and finds none exactly when the key holds none. |
| `EdgeKeys.Split` | xhprof/paircall.go:179 | Go's `strings.Split(name, "==>")`, cutting at every separator from left to right. No contract of its own; `SplitSpec` states its properties. |
| `EdgeKeys.SplitSpec` | xhprof/paircall.go:179 | `strings.Split` gives at least one piece. No piece holds the separator. The pieces joined with `==>` give the key back. |
| `EdgeKeys.ParsedSidesHaveNoSep` | xhprof/paircall.go:178-188 | Neither decoded side holds the separator. |
| `EdgeKeys.ParsePairName` | xhprof/paircall.go:178-188 | `parsePairName`: two pieces give (parent, child), any other number gives ("", first piece). No contract of its own; `ParsedSidesHaveNoSep`, `ParseWithoutSep`, `ParseOneSep`, `ParseManySeps` and the round-trip lemmas state its properties. |
| `EdgeKeys.PairName` | xhprof/paircall.go:190-198 | `pairName`: an empty side is dropped, otherwise `parent==>child`. No contract of its own; `EncodedSepIsUnique`, `RoundTrip`, `RootRoundTrip` and `EmptyChildDecodesAsRoot` state its properties. |
| `EdgeKeys.ParseWithoutSep` | xhprof/paircall.go:183-185 | A key without a separator decodes as a root call: the parent is "" and the child is the whole key. |
| `EdgeKeys.ParseOneSep` | xhprof/paircall.go:180-182 | A key with exactly one separator decodes to the text before it (parent) and the text after it (child). |
| `EdgeKeys.ParseManySeps` | xhprof/paircall.go:179-185 | A key with two or more separators decodes as ("", text before the first separator). |
| `EdgeKeys.EncodedSepIsUnique` | xhprof/paircall.go:197 | When parent and child hold no separator, `parent==>child` holds the separator only where the encoder put it. |
| `EdgeKeys.RoundTrip` | xhprof/paircall.go:178-198 | Decoding the encoding of a non-empty, separator-free parent and child gives back both. |
| `EdgeKeys.RootRoundTrip` | xhprof/paircall.go:190-192 | A root call (empty parent) encodes as the bare child and decodes back to ("", child). |
| `EdgeKeys.EmptyChildDecodesAsRoot` | xhprof/paircall.go:193-194 | An empty child is dropped by the encoder, so `pairName(p, "")` decodes as a root call of `p`. |
| `PairCalls.TruncToInt` | xhprof/paircall.go:26 | `int(d)` truncates toward zero: for d >= 1 the result n has n <= d < n + 1; symmetrically for d <= -1. |
| `PairCalls.TruncDiv` | xhprof/paircall.go:26 | Go's integer `/`, rounding toward zero. No contract of its own; `TruncDivSpec` and `TruncDivOfMultiple` state its properties. |
| `PairCalls.TruncDivSpec` | xhprof/paircall.go:26 | Go's integer quotient leaves a remainder smaller than the divisor in size and never of the opposite sign of the dividend. |
| `PairCalls.TruncDivOfMultiple` | xhprof/paircall.go:26 | Go's integer quotient of a multiple of n >= 1 by n is exact, for counts of either sign. |
| `PairCalls.Plus` | xhprof/paircall.go:15-23 | The field-by-field sum `Add` leaves in its receiver. No contract of its own; `PlusZero` and `PlusCommutesAssociates` state its properties, and `PairCall.Add` is proved against it. |
| `PairCalls.Scaled` | xhprof/paircall.go:25-33 | The record `Divide(d)` leaves: the count by `int(d)` rounding toward zero, the metrics by `d`. No contract of its own; `ScaledByOne` and `ScaledByWhole` state its properties, and `PairCall.Divide` is proved against it. |
| `PairCalls.PlusZero` | xhprof/paircall.go:159-162 | Adding a record to a fresh zero record equals copying it. |
| `PairCalls.PlusCommutesAssociates` | xhprof/paircall.go:15-23 | Accumulation by `Add` is commutative and associative, so the order of the additions does not matter. |
| `PairCalls.ScaledByOne` | xhprof/paircall.go:25-33 | `Divide(1)` is the identity. |
| `PairCalls.ScaledByWhole` | xhprof/paircall.go:25-33 | Dividing by a whole n >= 1: each of the four metrics times n gives the original back. The count's remainder is below n in size and has the count's sign; a non-negative count becomes its floor quotient. |
| `PairCalls.PairCall.constructor` | xhprof/paircall.go:67 | `new(PairCall)` has every field zero. |
| `PairCalls.PairCall.Add` | xhprof/paircall.go:15-23 | Adds `o` into the receiver field by field and returns the receiver. `o` is unchanged unless it is the receiver. |
| `PairCalls.PairCall.Divide` | xhprof/paircall.go:25-33 | Divides the count by `int(d)` rounding toward zero, divides the metrics by `d`, and returns the receiver. |
| `EdgeSums.SumRemove` | xhprof/paircall.go:119 | A sum over a set of edge keys can take out any member first, so the sum does not depend on the visiting order. |
| `PairCallMaps.NewNearestFamily` | xhprof/paircall.go:42-48 | Both bucket maps are empty, both totals are zero, and the totals agree with the buckets. |
| `PairCallMaps.Bump` | xhprof/paircall.go:122-130 | Get-or-create one bucket, then add the edge's wall time and count to it (also lines 134-142 for callers). No contract of its own; `BumpElsewhere`, `BumpTotalCount` and the bucket step lemmas state its properties. |
| `PairCallMaps.Visit` | xhprof/paircall.go:120-143 | One iteration of the loop body of `ComputeNearestFamily`. No contract of its own; `FamilyStep` and `VisitBalanced` state its properties. |
| `PairCallMaps.Family` | xhprof/paircall.go:116-147 | The order-free nearest family: buckets and totals defined as sums over edge sets. No contract of its own; `FamilyBuckets`, `FamilyBalanced` and `SelfEdgeInBothBuckets` state its properties, and `ComputeNearestFamily` is proved equal to it. |
| `PairCallMaps.FamilyOfNone` | xhprof/paircall.go:117 | Before any edge is visited, the family is the freshly created one. |
| `PairCallMaps.ChildBucketsStep` | xhprof/paircall.go:121-131 | One more edge from `f` adds its count and wall time to its callee's bucket, creating the bucket if it is missing. Other edges leave the buckets alone. |
| `PairCallMaps.ParentBucketsStep` | xhprof/paircall.go:133-143 | One more edge into `f` from a known caller adds its count and wall time to that caller's bucket, creating the bucket if it is missing. Other edges leave the buckets alone. |
| `PairCallMaps.FamilyStep` | xhprof/paircall.go:119-144 | The family over the visited edges plus `k` is one iteration of the loop body on the family over the visited edges. |
| `PairCallMaps.BumpTotalCount` | xhprof/paircall.go:128-130 | Bumping a bucket raises the sum of the bucket counts by exactly the edge's count, which is what the running total gains. |
| `PairCallMaps.VisitBalanced` | xhprof/paircall.go:119-144 | The loop body keeps `ChildrenCount` and `ParentsCount` equal to the sums of their buckets' counts. |
| `PairCallMaps.FamilyBalanced` | xhprof/paircall.go:116-147 | Over any set of edges, each total equals the sum of the counts in its buckets. |
| `PairCallMaps.FamilyBuckets` | xhprof/paircall.go:116-147 | Callee bucket `c` exists exactly when some edge goes `f ==> c`, and holds the summed count and wall time of those edges with the other metrics zero. Likewise for callers. No caller bucket is named "". |
| `PairCallMaps.SelfEdgeInBothBuckets` | xhprof/paircall.go:121-143 | A self-call `f ==> f` lands both in callee bucket `f` and in caller bucket `f`. |
| `PairCallMaps.RootCallsAreChildrenOfEmpty` | xhprof/paircall.go:120-121 | Querying the empty name gives a callee bucket to every edge that decodes with an empty parent, including `==>c` and keys with two or more separators; a key without a separator is its own bucket. |
| `PairCallMaps.PairCallMap.ComputeNearestFamily` | xhprof/paircall.go:116-147 | The result is the order-free family of `f` over every edge of the map, and its totals agree with its buckets. |
| `PairCallMaps.NewCall` | xhprof/paircall.go:83 | `&Call{Name: child}`, also at line 94: an entry with its name and nothing received. No contract of its own. |
| `PairCallMaps.AddPairCall` | xhprof/paircall.go:86 | The callee's entry receives the edge record inclusively, keyed by the edge. No contract of its own; `SymbolsAccountEachEdge` states its effect on the table. |
| `PairCallMaps.SubtractExcl` | xhprof/paircall.go:97 | The known caller's entry receives the edge record as an exclusive subtraction, keyed by the edge. No contract of its own; `SymbolsAccountEachEdge` states its effect on the table. |
| `PairCallMaps.FlattenStep` | xhprof/paircall.go:79-98 | One iteration of the first loop of `Flatten`. No contract of its own; `SymbolsStep` proves the order-free table takes this step. |
| `PairCallMaps.Symbols` | xhprof/paircall.go:77-99 | The order-free symbol table: one entry per callee and known caller, with the records of its edges. No contract of its own; `SymbolNameHasEdge` and `SymbolsAccountEachEdge` state its properties, and `Flatten` is proved to list it. |
| `PairCallMaps.SymbolNameHasEdge` | xhprof/paircall.go:81-98 | A name has an entry in the symbol table exactly when some edge has it as callee or as known caller. |
| `PairCallMaps.NoSymbolNoRecords` | xhprof/paircall.go:81-98 | A name without an entry has received no edge record on either side. |
| `PairCallMaps.SymbolsStep` | xhprof/paircall.go:78-99 | The symbol table over the visited edges plus `k` is one iteration of the first loop on the table over the visited edges. A self-call updates the same entry on both sides. |
| `PairCallMaps.SymbolsAccountEachEdge` | xhprof/paircall.go:78-99 | Every edge is received inclusively by its callee's entry and by no other entry. It is subtracted exclusively by its known caller's entry and by no other entry. Every entry carries its own name. |
| `PairCallMaps.ListCalls` | xhprof/paircall.go:101-106 | The listed calls are the symbol table's entries, each exactly once: the right length, distinct names, and every name listed. |
| `PairCallMaps.PairCallMap.Flatten` | xhprof/paircall.go:73-114 | `Calls` lists every symbol-table entry exactly once, and every listed entry is the table's entry for its name. `Main` is the `main()` entry when there is one. |
| `PairCallMaps.PairCallMap.constructor` | xhprof/paircall.go:54-59 | `NewPairCallMap` gives an empty map. |
| `PairCallMaps.PairCallMap.NewPairCall` | xhprof/paircall.go:61-71 | Get-or-create. An existing key returns its record and changes nothing. A missing key gains a zero record, which is returned. No other entry changes. |
| `PairCallMaps.TotalSnoc` | xhprof/paircall.go:157-167 | One more map adds its record at `k`, if it holds one, to the running total. |
| `PairCallMaps.Average` | xhprof/paircall.go:149-176 | The order-free average: every key of any map, its total divided by the number of maps; empty for no maps. No contract of its own; `AverageOfOne`, `AverageOfCopies`, `AverageOfTwo` and `AverageExample` state its properties, and `AvgPairCallMaps` is proved equal to it. |
| `PairCallMaps.KeyUnionSnoc` | xhprof/paircall.go:156-168 | One more map adds exactly its keys to the result's keys. |
| `PairCallMaps.TotalOutsideUnion` | xhprof/paircall.go:158-163 | A key no earlier map holds has a zero total, so copying the first record equals adding it. |
| `PairCallMaps.AccumulateInto` | xhprof/paircall.go:157-167 | One pass of the summing loop takes the totals over the earlier maps to the totals over them plus this map, keys included. |
| `PairCallMaps.ScaleAll` | xhprof/paircall.go:170-173 | The dividing loop turns the totals over n >= 1 maps into their average. |
| `PairCallMaps.AvgPairCallMaps` | xhprof/paircall.go:149-176 | One map is returned itself. Otherwise the result is a fresh map holding the union of the keys, each record summed over the maps that hold its key and divided by `len(maps)`, the number of all input maps, including those that lack the key, with the count truncated. An empty list gives an empty map. No input changes. |
| `PairCallMaps.AverageOfOne` | xhprof/paircall.go:149-152 | The general averaging rule applied to one map also gives that map back, so the short cut agrees with it. |
| `PairCallMaps.AverageOfCopies` | xhprof/paircall.go:149-176 | Averaging n >= 1 identical runs gives the run back, count included. |
| `PairCallMaps.KeyUnionOfTwo` | xhprof/paircall.go:156-168 | The result of averaging two maps holds the keys of either. |
| `PairCallMaps.TotalOfTwo` | xhprof/paircall.go:157-167 | The total over two maps adds their records, a missing record counting as zero. |
| `PairCallMaps.AverageOfTwo` | xhprof/paircall.go:154-175 | A key of either of two runs is averaged over both. A key missing from one run counts as zero there, and the sum is still divided by two. |
| `PairCallMaps.AverageExample` | xhprof/paircall.go:149-176 | Runs {X: 2, 10} and {X: 4, 20; Y: 3, 8} (count, wall time) average to {X: 3, 15; Y: 1, 4}. |

## Left out

- Floating point: the Go metrics are `float32`, with rounding, overflow and NaN. Here they are exact reals, so every equality on them holds at infinite precision only.
- Integer width: counts are unbounded integers, so the 64-bit wrap-around of `int` is not modelled: not in `Add`, not in the bucket counts and `ChildrenCount` / `ParentsCount` (lines 129-130 and 141-142), and not in the summed counts of `AvgPairCallMaps`.
- PairCalls.PairCall.Divide: the overflow of the most negative `int` divided by -1 is not modelled; the quotient here is exact.
- Go strings are byte strings; here they are `seq<char>`. The separator `==>` is ASCII, so cutting and joining keys is the same either way.
- `int(d)` on a `float32` outside the range of `int` is implementation-defined in Go. It is not modelled.
- PairCalls.PairCall.Divide: requires |d| >= 1. For |d| < 1 Go's `int(d)` is 0 and the integer division panics.
- Pointer aliasing: the map values are record values, not `*PairCall` pointers. `NewPairCall` returns the record's value, so a caller mutating the record through the returned pointer is not modelled. Neither is two keys sharing one record. The in-place update is modelled by the class `PairCall` alone.
- Nil pointers: Go panics on a nil `*PairCallMap` in `maps` (`m.M`, line 157), on a nil `*PairCall` map value (`*v` at line 161, `info.WallTime` at line 128) and on a nil argument to `Add` (line 16). Here references are non-null and records are values, so these panics cannot arise and are not modelled.
- `Call.AddPairCall` and `Call.SubtractExcl` are defined outside `xhprof/paircall.go` and are not modelled. A `Call` here records, keyed by edge, which edge records it received on each side; how it turns them into inclusive and exclusive costs is not modelled.
- The order of `Profile.Calls`: Go lists the entries in map iteration order. The model states only that each entry is listed once.
- `NearestFamily.Children` and `Parents` are `*PairCallMap` in Go. Here they are plain maps of record values.
- JSON field tags and serialization are not modelled.
