/** A plain JavaScript object used as a string-to-string dictionary
    (`Record<string, string>`): assignment keeps a key's first position, and
    `Object.entries` lists array-index keys first, in ascending numeric order,
    then every other key in creation order. */
module JsObject {
  import opened Types
  import opened Strings

  /** The own properties of the object, in creation order. */
  type Properties = seq<(string, string)>

  function KeysOf(d: Properties): seq<string>
  {
    seq(|d|, i requires 0 <= i < |d| => d[i].0)
  }

  predicate DistinctKeys(d: Properties)
  {
    forall i, j :: 0 <= i < j < |d| ==> d[i].0 != d[j].0
  }

  /** `obj[key]`, `None` standing for `undefined`. */
  function Get(d: Properties, key: string): Option<string>
  {
    if d == [] then None else if d[0].0 == key then Some(d[0].1) else Get(d[1..], key)
  }

  lemma {:induction false} GetAbsent(d: Properties, key: string)
    requires key !in KeysOf(d)
    ensures Get(d, key) == None
  {
    if d != [] {
      assert KeysOf(d)[0] == d[0].0;
      assert KeysOf(d[1..]) == KeysOf(d)[1..];
      GetAbsent(d[1..], key);
    }
  }

  /** `obj[key] = value`: an existing key keeps its position and takes the new
      value; a new key is added at the end. */
  function Set(d: Properties, key: string, value: string): (r: Properties)
    ensures Get(r, key) == Some(value)
    ensures forall k :: k != key ==> Get(r, k) == Get(d, k)
    ensures key in KeysOf(d) ==> KeysOf(r) == KeysOf(d)
    ensures key !in KeysOf(d) ==> r == d + [(key, value)]
    ensures forall p :: p in r ==> p == (key, value) || p in d
  {
    if d == [] then [(key, value)]
    else if d[0].0 == key then
      assert KeysOf(d)[0] == key;
      [(key, value)] + d[1..]
    else
      var rest := Set(d[1..], key, value);
      assert KeysOf(d)[0] != key;
      assert KeysOf(d[1..]) == KeysOf(d)[1..];
      [d[0]] + rest
  }

  /** Assignment never introduces a second property with the same key. */
  lemma SetKeepsKeysDistinct(d: Properties, key: string, value: string)
    requires DistinctKeys(d)
    ensures DistinctKeys(Set(d, key, value))
  {
    var r := Set(d, key, value);
    if key in KeysOf(d) {
      forall i, j | 0 <= i < j < |r| ensures r[i].0 != r[j].0 {
        assert r[i].0 == KeysOf(r)[i] == KeysOf(d)[i] == d[i].0;
        assert r[j].0 == KeysOf(r)[j] == KeysOf(d)[j] == d[j].0;
      }
    } else {
      forall i | 0 <= i < |d| ensures d[i].0 != key {
        assert KeysOf(d)[i] == d[i].0;
      }
    }
  }

  /** Assigning to an existing key replaces its value where it stands. */
  lemma {:induction false} SetOverwrites(d: Properties, i: nat, value: string)
    requires i < |d| && forall j :: 0 <= j < i ==> d[j].0 != d[i].0
    ensures Set(d, d[i].0, value) == d[i := (d[i].0, value)]
  {
    if i > 0 {
      SetOverwrites(d[1..], i - 1, value);
      assert d[1..][i - 1 := (d[i].0, value)] == d[i := (d[i].0, value)][1..];
    }
  }

  lemma KeysOfConcat(a: Properties, b: Properties)
    ensures KeysOf(a + b) == KeysOf(a) + KeysOf(b)
  {
  }

  /** ECMAScript's "array index": the canonical decimal form of an integer from
      0 to 2^32 - 2. */
  predicate IsArrayIndex(key: string)
  {
    |key| >= 1 && AllDigits(key) && (key[0] == '0' ==> |key| == 1) && DigitsValue(key) < 0xFFFF_FFFF
  }

  /** A key is an array index exactly when it is how a number below 2^32 - 1 prints. */
  lemma ArrayIndexIff(key: string)
    ensures IsArrayIndex(key) <==> exists n: nat :: n < 0xFFFF_FFFF && key == NatToString(n)
  {
    if IsArrayIndex(key) {
      NatToStringOfDigits(key);
    }
    if exists n: nat :: n < 0xFFFF_FFFF && key == NatToString(n) {
      var n: nat :| n < 0xFFFF_FFFF && key == NatToString(n);
      DigitsValueOfNatToString(n);
    }
  }

  function IndexValue(key: string): nat
    requires IsArrayIndex(key)
  {
    DigitsValue(key)
  }

  predicate AllIndexKeys(d: Properties)
  {
    forall i :: 0 <= i < |d| ==> IsArrayIndex(d[i].0)
  }

  predicate SortedByIndex(d: Properties)
    requires AllIndexKeys(d)
  {
    forall i, j :: 0 <= i < j < |d| ==> IndexValue(d[i].0) <= IndexValue(d[j].0)
  }

  /** The properties whose keys are array indices, in creation order. */
  function IndexProperties(d: Properties): (r: Properties)
    ensures AllIndexKeys(r)
  {
    if d == [] then []
    else (if IsArrayIndex(d[0].0) then [d[0]] else []) + IndexProperties(d[1..])
  }

  /** The other properties, in creation order. */
  function NamedProperties(d: Properties): (r: Properties)
    ensures forall i :: 0 <= i < |r| ==> !IsArrayIndex(r[i].0)
  {
    if d == [] then []
    else (if IsArrayIndex(d[0].0) then [] else [d[0]]) + NamedProperties(d[1..])
  }

  lemma {:induction false} PartitionMultiset(d: Properties)
    ensures multiset(IndexProperties(d)) + multiset(NamedProperties(d)) == multiset(d)
  {
    if d != [] {
      PartitionMultiset(d[1..]);
      assert d == [d[0]] + d[1..];
    }
  }

  lemma {:induction false} NoIndexKeys(d: Properties)
    requires forall i :: 0 <= i < |d| ==> !IsArrayIndex(d[i].0)
    ensures IndexProperties(d) == [] && NamedProperties(d) == d
  {
    if d != [] {
      NoIndexKeys(d[1..]);
    }
  }

  /** Inserts an array-index property before the first larger index. */
  function InsertByIndex(p: (string, string), sorted: Properties): (r: Properties)
    requires IsArrayIndex(p.0) && AllIndexKeys(sorted)
    ensures AllIndexKeys(r)
    ensures multiset(r) == multiset(sorted) + multiset{p}
    ensures forall x :: x in r ==> x == p || x in sorted
  {
    if sorted == [] || IndexValue(p.0) <= IndexValue(sorted[0].0) then [p] + sorted
    else
      assert sorted == [sorted[0]] + sorted[1..];
      [sorted[0]] + InsertByIndex(p, sorted[1..])
  }

  lemma {:induction false} InsertByIndexSorted(p: (string, string), sorted: Properties)
    requires IsArrayIndex(p.0) && AllIndexKeys(sorted) && SortedByIndex(sorted)
    ensures SortedByIndex(InsertByIndex(p, sorted))
  {
    if sorted != [] && IndexValue(p.0) > IndexValue(sorted[0].0) {
      var rest := InsertByIndex(p, sorted[1..]);
      InsertByIndexSorted(p, sorted[1..]);
      var r := [sorted[0]] + rest;
      forall j | 0 <= j < |rest| ensures IndexValue(sorted[0].0) <= IndexValue(rest[j].0) {
        assert rest[j] in rest;
        if rest[j] != p {
          var m :| 0 <= m < |sorted[1..]| && sorted[1..][m] == rest[j];
          assert sorted[m + 1] == rest[j];
        }
      }
    }
  }

  /** Insertion sort on the numeric value of the keys. */
  function SortByIndex(d: Properties): (r: Properties)
    requires AllIndexKeys(d)
    ensures AllIndexKeys(r) && SortedByIndex(r)
    ensures multiset(r) == multiset(d)
  {
    if d == [] then []
    else
      assert d == [d[0]] + d[1..];
      var rest := SortByIndex(d[1..]);
      InsertByIndexSorted(d[0], rest);
      InsertByIndex(d[0], rest)
  }

  /** `Object.entries(obj)`: a permutation of the properties that lists the
      array-index keys first, in ascending numeric order, and then every other
      key in creation order. */
  function Entries(d: Properties): (r: Properties)
    ensures multiset(r) == multiset(d)
    ensures var n := |IndexProperties(d)|;
      && n <= |r|
      && AllIndexKeys(r[..n]) && SortedByIndex(r[..n])
      && r[n..] == NamedProperties(d)
  {
    PartitionMultiset(d);
    var sorted := SortByIndex(IndexProperties(d));
    assert |sorted| == |IndexProperties(d)| by {
      assert |multiset(sorted)| == |multiset(IndexProperties(d))|;
    }
    var r := sorted + NamedProperties(d);
    assert r[..|sorted|] == sorted;
    r
  }

  /** With no array-index key, `Object.entries` is creation order. */
  lemma EntriesInCreationOrder(d: Properties)
    requires forall i :: 0 <= i < |d| ==> !IsArrayIndex(d[i].0)
    ensures Entries(d) == d
  {
    NoIndexKeys(d);
  }
}
