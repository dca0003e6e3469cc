/**
 * The edge-key codec of the profiler: a call-graph edge "parent calls child"
 * is stored under the single string key `parent==>child`, and a root call
 * (no known caller) under the bare `child`.
 *
 * Decoding follows the Go code exactly: the key is cut at EVERY occurrence of
 * the separator (Go's `strings.Split`), and only a result of exactly two
 * pieces is read as (parent, child); any other result is read as a root call
 * of the first piece.
 */
module EdgeKeys {
  import opened Wrappers

  /** The separator between caller and callee. */
  const Sep: string := "==>"

  /** `s` holds the separator starting at index `i`. */
  predicate SepAt(s: string, i: int)
  {
    0 <= i && i + 3 <= |s| && s[i] == '=' && s[i + 1] == '=' && s[i + 2] == '>'
  }

  /** `s` holds the separator somewhere. */
  ghost predicate ContainsSep(s: string)
  {
    exists i :: SepAt(s, i)
  }

  /** The first occurrence of the separator at or after `from`, if any. */
  function FindSepFrom(s: string, from: nat): Option<nat>
    requires from <= |s|
    decreases |s| - from
  {
    if from + 3 > |s| then None
    else if SepAt(s, from) then Some(from)
    else FindSepFrom(s, from + 1)
  }

  /** The first occurrence of the separator in `s` (Go's `strings.Index`). */
  function FindSep(s: string): Option<nat>
  {
    FindSepFrom(s, 0)
  }

  /** `FindSepFrom` finds the first separator at or after `from`, or reports there is none. */
  lemma {:induction false} FindSepFromSpec(s: string, from: nat)
    requires from <= |s|
    ensures var r := FindSepFrom(s, from);
      && (r.Some? ==> from <= r.value && SepAt(s, r.value))
      && (r.Some? ==> forall j :: from <= j < r.value ==> !SepAt(s, j))
      && (r.None? ==> forall j :: from <= j ==> !SepAt(s, j))
    decreases |s| - from
  {
    if from + 3 <= |s| && !SepAt(s, from) {
      FindSepFromSpec(s, from + 1);
    }
  }

  /** `FindSep` finds the first separator, and finds none exactly when there is none. */
  lemma FindSepSpec(s: string)
    ensures FindSep(s).None? <==> !ContainsSep(s)
    ensures FindSep(s).Some? ==>
      SepAt(s, FindSep(s).value) && forall j :: 0 <= j < FindSep(s).value ==> !SepAt(s, j)
  {
    FindSepFromSpec(s, 0);
  }

  /** The pieces glued back together with the separator between them. */
  function Join(pieces: seq<string>): string
    requires |pieces| >= 1
  {
    if |pieces| == 1 then pieces[0] else pieces[0] + Sep + Join(pieces[1..])
  }

  /** No separator appears in a prefix that ends before the first separator. */
  lemma PrefixBeforeFirstSep(s: string, i: nat)
    requires i <= |s|
    requires forall j :: 0 <= j < i ==> !SepAt(s, j)
    ensures !ContainsSep(s[..i])
  {
    forall j | SepAt(s[..i], j)
      ensures SepAt(s, j)
    {
    }
  }

  /**
   * Go's `strings.Split(s, "==>")`: `s` cut at every occurrence of the
   * separator, scanning left to right.
   */
  function Split(s: string): seq<string>
    decreases |s|
  {
    match FindSep(s)
    case None => [s]
    case Some(i) =>
      FindSepFromSpec(s, 0);
      [s[..i]] + Split(s[i + 3..])
  }

  /**
   * The pieces of `Split` never hold the separator and glue back to the
   * original string; there is always at least one piece.
   */
  lemma {:induction false} SplitSpec(s: string)
    ensures |Split(s)| >= 1
    ensures Join(Split(s)) == s
    ensures forall i :: 0 <= i < |Split(s)| ==> !ContainsSep(Split(s)[i])
    decreases |s|
  {
    FindSepSpec(s);
    match FindSep(s)
    case None =>
    case Some(i) =>
      PrefixBeforeFirstSep(s, i);
      SplitSpec(s[i + 3..]);
      assert s == s[..i] + Sep + s[i + 3..];
  }

  /** `parsePairName`: decode an edge key into (parent, child). */
  function ParsePairName(name: string): (string, string)
  {
    var fns := Split(name);
    if |fns| == 2 then (fns[0], fns[1]) else ("", fns[0])
  }

  /** Neither side of a decoded key holds the separator. */
  lemma ParsedSidesHaveNoSep(name: string)
    ensures !ContainsSep(ParsePairName(name).0) && !ContainsSep(ParsePairName(name).1)
  {
    SplitSpec(name);
  }

  /** `pairName`: encode an edge. An empty side is dropped, with no separator. */
  function PairName(parent: string, child: string): string
  {
    if parent == "" then child
    else if child == "" then parent
    else parent + Sep + child
  }

  /** A key without the separator decodes as a root call of the whole key. */
  lemma ParseWithoutSep(name: string)
    requires !ContainsSep(name)
    ensures ParsePairName(name) == ("", name)
  {
    FindSepSpec(name);
  }

  /** Splitting a key whose only separator is at `i` gives exactly two pieces. */
  lemma SplitOneSep(name: string, i: nat)
    requires SepAt(name, i)
    requires forall j :: SepAt(name, j) ==> j == i
    ensures Split(name) == [name[..i], name[i + 3..]]
  {
    var rest := name[i + 3..];
    forall j | SepAt(rest, j)
      ensures SepAt(name, i + 3 + j)
    {
    }
    FindSepSpec(name);
    FindSepSpec(rest);
  }

  /** A key with exactly one separator decodes to the text on either side. */
  lemma ParseOneSep(name: string, i: nat)
    requires SepAt(name, i)
    requires forall j :: SepAt(name, j) ==> j == i
    ensures ParsePairName(name) == (name[..i], name[i + 3..])
  {
    SplitOneSep(name, i);
  }

  /**
   * A key with two or more separators is NOT split at its first separator:
   * it decodes as a root call whose child is the text before the first one.
   */
  lemma ParseManySeps(name: string, i: nat, j: nat)
    requires SepAt(name, i) && SepAt(name, j) && i < j
    requires forall k :: 0 <= k < i ==> !SepAt(name, k)
    ensures ParsePairName(name) == ("", name[..i])
  {
    var rest := name[i + 3..];
    FindSepSpec(name);
    assert FindSep(name) == Some(i);
    assert j >= i + 3;
    assert SepAt(rest, j - i - 3);
    FindSepSpec(rest);
    assert FindSep(rest).Some?;
    SplitSpec(rest[FindSep(rest).value + 3..]);
    assert |Split(rest)| >= 2;
    assert Split(name) == [name[..i]] + Split(rest);
  }

  /** The only separator of `parent ==> child` is the one the encoder put there. */
  lemma EncodedSepIsUnique(parent: string, child: string, j: int)
    requires !ContainsSep(parent) && !ContainsSep(child)
    requires SepAt(parent + Sep + child, j)
    ensures j == |parent|
  {
    var s := parent + Sep + child;
    var n := |parent|;
    assert j + 3 <= n ==> SepAt(parent, j);
    assert j >= n + 3 ==> SepAt(child, j - n - 3);
  }

  /** Round trip: a caller/callee pair free of the separator survives encoding. */
  lemma RoundTrip(parent: string, child: string)
    requires parent != "" && child != ""
    requires !ContainsSep(parent) && !ContainsSep(child)
    ensures ParsePairName(PairName(parent, child)) == (parent, child)
  {
    var s := parent + Sep + child;
    forall j | SepAt(s, j)
      ensures j == |parent|
    {
      EncodedSepIsUnique(parent, child, j);
    }
    ParseOneSep(s, |parent|);
    assert s[..|parent|] == parent;
    assert s[|parent| + 3..] == child;
  }

  /** Round trip for a root call: it encodes as the bare child and decodes back. */
  lemma RootRoundTrip(child: string)
    requires !ContainsSep(child)
    ensures ParsePairName(PairName("", child)) == ("", child)
  {
    ParseWithoutSep(child);
  }

  /**
   * The encoding is lossy for an empty child: `parent` alone is written, and
   * it decodes as a root call of `parent`.
   */
  lemma EmptyChildDecodesAsRoot(parent: string)
    requires parent != "" && !ContainsSep(parent)
    ensures ParsePairName(PairName(parent, "")) == ("", parent)
  {
    ParseWithoutSep(parent);
  }
}
