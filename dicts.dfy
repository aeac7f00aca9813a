/**
 * Python's insertion-ordered `dict` (and `OrderedDict`) as an association list. Assigning to a
 * key that is present replaces its value in place; assigning to a new key appends it. Iteration
 * (`.items()`, `.keys()`) follows the list.
 */
module Dicts {
  import opened Wrappers
  import Strings

  type Dict<K, V> = seq<(K, V)>

  /** `list(d.keys())`. */
  function Keys<K(==), V>(d: Dict<K, V>): (r: seq<K>)
    ensures |r| == |d|
    ensures forall i :: 0 <= i < |d| ==> r[i] == d[i].0
  {
    if |d| == 0 then [] else [d[0].0] + Keys(d[1..])
  }

  /** `list(d.values())`. */
  function Values<K, V>(d: Dict<K, V>): (r: seq<V>)
    ensures |r| == |d|
    ensures forall i :: 0 <= i < |d| ==> r[i] == d[i].1
  {
    seq(|d|, i requires 0 <= i < |d| => d[i].1)
  }

  /** What every real dictionary satisfies: no key twice. */
  predicate DistinctKeys<K(==), V>(d: Dict<K, V>)
  {
    forall i, j :: 0 <= i < j < |d| ==> d[i].0 != d[j].0
  }

  /** `d.get(k)`: the value of the (first) entry with key `k`. */
  function Get<K(==), V>(d: Dict<K, V>, k: K): (r: Option<V>)
    ensures r.Some? <==> k in Keys(d)
  {
    if |d| == 0 then None
    else if d[0].0 == k then Some(d[0].1)
    else
      assert Keys(d) == [d[0].0] + Keys(d[1..]);
      Get(d[1..], k)
  }

  /** What `Get` finds is an entry of the dictionary. */
  lemma {:induction false} GetEntry<K, V>(d: Dict<K, V>, k: K) returns (i: nat)
    requires Get(d, k).Some?
    ensures i < |d| && d[i] == (k, Get(d, k).value)
  {
    if d[0].0 == k {
      i := 0;
    } else {
      var j := GetEntry(d[1..], k);
      i := j + 1;
    }
  }

  /** `d[k] = v`. */
  function Set<K(==), V>(d: Dict<K, V>, k: K, v: V): Dict<K, V>
  {
    if |d| == 0 then [(k, v)]
    else if d[0].0 == k then [(k, v)] + d[1..]
    else [d[0]] + Set(d[1..], k, v)
  }

  /** After `d[k] = v`, `k` maps to `v` and every other key to what it mapped to before. */
  lemma {:induction false} SetLookup<K, V>(d: Dict<K, V>, k: K, v: V, k': K)
    ensures Get(Set(d, k, v), k') == if k' == k then Some(v) else Get(d, k')
  {
    if |d| > 0 && d[0].0 != k {
      SetLookup(d[1..], k, v, k');
      assert Set(d, k, v)[1..] == Set(d[1..], k, v);
    } else if |d| > 0 {
      assert Set(d, k, v)[1..] == d[1..];
    }
  }

  /** `d[k] = v` keeps the key order, appending `k` if it is new. */
  lemma {:induction false} SetKeys<K, V>(d: Dict<K, V>, k: K, v: V)
    ensures Keys(Set(d, k, v)) == if k in Keys(d) then Keys(d) else Keys(d) + [k]
  {
    if |d| > 0 {
      assert Keys(d) == [d[0].0] + Keys(d[1..]);
      if d[0].0 == k {
        assert Keys(Set(d, k, v)) == [k] + Keys(d[1..]);
      } else {
        SetKeys(d[1..], k, v);
        assert Keys(Set(d, k, v)) == [d[0].0] + Keys(Set(d[1..], k, v));
      }
    }
  }

  /** `d[k] = v` never repeats a key. */
  lemma SetDistinct<K, V>(d: Dict<K, V>, k: K, v: V)
    requires DistinctKeys(d)
    ensures DistinctKeys(Set(d, k, v))
  {
    SetKeys(d, k, v);
    var r := Set(d, k, v);
    forall i, j | 0 <= i < j < |r| ensures r[i].0 != r[j].0 {
      assert Keys(r)[i] == r[i].0 && Keys(r)[j] == r[j].0;
      if k !in Keys(d) && j == |d| {
        assert Keys(d)[i] == r[i].0;
      } else {
        assert Keys(d)[i] == r[i].0 && Keys(d)[j] == r[j].0;
      }
    }
  }

  /** All three facts about `d[k] = v` at once, for every other key. */
  lemma SetFacts<K(!new), V>(d: Dict<K, V>, k: K, v: V)
    ensures Get(Set(d, k, v), k) == Some(v)
    ensures forall k' :: k' != k ==> Get(Set(d, k, v), k') == Get(d, k')
    ensures Keys(Set(d, k, v)) == if k in Keys(d) then Keys(d) else Keys(d) + [k]
    ensures DistinctKeys(d) ==> DistinctKeys(Set(d, k, v))
  {
    SetLookup(d, k, v, k);
    forall k' | k' != k ensures Get(Set(d, k, v), k') == Get(d, k') {
      SetLookup(d, k, v, k');
    }
    SetKeys(d, k, v);
    if DistinctKeys(d) {
      SetDistinct(d, k, v);
    }
  }

  /** A second `d[k] = w` replaces what the first `d[k] = v` wrote. */
  lemma {:induction false} SetOverwrite<K, V>(d: Dict<K, V>, k: K, v: V, w: V)
    ensures Set(Set(d, k, v), k, w) == Set(d, k, w)
  {
    if |d| > 0 && d[0].0 != k {
      SetOverwrite(d[1..], k, v, w);
      assert Set(d, k, v)[1..] == Set(d[1..], k, v);
    }
  }

  /** A new key goes to the end. */
  lemma {:induction false} SetAppends<K, V>(d: Dict<K, V>, k: K, v: V)
    requires k !in Keys(d)
    ensures Set(d, k, v) == d + [(k, v)]
  {
    if |d| > 0 {
      assert Keys(d) == [d[0].0] + Keys(d[1..]);
      SetAppends(d[1..], k, v);
      assert d == [d[0]] + d[1..];
    }
  }

  /** `d[k] = v` keeps every other entry and adds only `(k, v)`. */
  lemma {:induction false} SetEntries<K, V>(d: Dict<K, V>, k: K, v: V, e: (K, V))
    requires e in Set(d, k, v)
    ensures e in d || e == (k, v)
  {
    if |d| > 0 && d[0].0 != k {
      if e != d[0] {
        assert e in Set(d[1..], k, v);
        SetEntries(d[1..], k, v, e);
      }
    } else if |d| > 0 && e != (k, v) {
      assert e in d[1..];
    }
  }

  /**
   * `{k: v for (k, v) in pairs}`: each key sits where it first occurs and carries the value of
   * its last occurrence.
   */
  function FromPairs<K(==), V>(pairs: seq<(K, V)>): Dict<K, V>
  {
    if |pairs| == 0 then []
    else
      var last := pairs[|pairs| - 1];
      Set(FromPairs(pairs[..|pairs| - 1]), last.0, last.1)
  }

  /** The comprehension never repeats a key. */
  lemma {:induction false} FromPairsDistinct<K, V>(pairs: seq<(K, V)>)
    ensures DistinctKeys(FromPairs(pairs))
  {
    if |pairs| > 0 {
      var last := pairs[|pairs| - 1];
      FromPairsDistinct(pairs[..|pairs| - 1]);
      SetDistinct(FromPairs(pairs[..|pairs| - 1]), last.0, last.1);
    }
  }

  /** Its keys are exactly the keys of the pairs. */
  lemma {:induction false} FromPairsKeys<K, V>(pairs: seq<(K, V)>, k: K)
    ensures k in Keys(FromPairs(pairs)) <==> k in Keys(pairs)
  {
    if |pairs| > 0 {
      var front := pairs[..|pairs| - 1];
      var last := pairs[|pairs| - 1];
      FromPairsKeys(front, k);
      SetKeys(FromPairs(front), last.0, last.1);
      assert Keys(pairs) == Keys(front) + [last.0];
    }
  }

  /** A key maps to the value of its last pair. */
  lemma {:induction false} FromPairsLast<K, V>(pairs: seq<(K, V)>, i: nat)
    requires i < |pairs|
    requires forall j :: i < j < |pairs| ==> pairs[j].0 != pairs[i].0
    ensures Get(FromPairs(pairs), pairs[i].0) == Some(pairs[i].1)
  {
    var front := pairs[..|pairs| - 1];
    var last := pairs[|pairs| - 1];
    SetLookup(FromPairs(front), last.0, last.1, pairs[i].0);
    if i < |pairs| - 1 {
      FromPairsLast(front, i);
    }
  }

  /** Every entry of the result is one of the pairs. */
  lemma {:induction false} FromPairsEntries<K, V>(pairs: seq<(K, V)>, e: (K, V))
    requires e in FromPairs(pairs)
    ensures e in pairs
  {
    var front := pairs[..|pairs| - 1];
    var last := pairs[|pairs| - 1];
    SetEntries(FromPairs(front), last.0, last.1, e);
    if e != last {
      FromPairsEntries(front, e);
    }
  }

  /** Without repeated keys, the comprehension rebuilds the pairs as they are, in order. */
  lemma {:induction false} FromPairsIdentity<K, V>(pairs: seq<(K, V)>)
    requires DistinctKeys(pairs)
    ensures FromPairs(pairs) == pairs
  {
    if |pairs| > 0 {
      var front := pairs[..|pairs| - 1];
      var last := pairs[|pairs| - 1];
      FromPairsIdentity(front);
      assert last.0 !in Keys(front) by {
        forall j | 0 <= j < |front| ensures front[j].0 != last.0 {
          assert front[j] == pairs[j];
        }
      }
      SetAppends(front, last.0, last.1);
      assert front + [last] == pairs;
    }
  }

  /** In a dictionary without repeated keys, the entry at position `i` is what `Get` finds. */
  lemma {:induction false} GetAt<K, V>(d: Dict<K, V>, i: nat)
    requires DistinctKeys(d) && i < |d|
    ensures Get(d, d[i].0) == Some(d[i].1)
  {
    if i > 0 {
      GetAt(d[1..], i - 1);
    }
  }

  /** What `Get` finds is one of the entries. */
  lemma GetIn<K, V>(d: Dict<K, V>, k: K)
    requires Get(d, k).Some?
    ensures (k, Get(d, k).value) in d
  {
    var i := GetEntry(d, k);
  }

  /** Assigning to a key that is already there changes its entry where it stands. */
  lemma {:induction false} SetInPlace<K, V>(d: Dict<K, V>, i: nat, v: V)
    requires DistinctKeys(d) && i < |d|
    ensures Set(d, d[i].0, v) == d[..i] + [(d[i].0, v)] + d[i + 1..]
  {
    if i > 0 {
      SetInPlace(d[1..], i - 1, v);
      assert d[1..][..i - 1] == d[1..i] && d[1..][i..] == d[i + 1..];
      assert d[..i] == [d[0]] + d[1..i];
    }
  }

  /** `d[k]` of a nested dictionary, `{}` when the key is missing (what `setdefault(k, {})` reads). */
  function GetOrEmpty<K(==), K2, V2>(d: Dict<K, Dict<K2, V2>>, k: K): (r: Dict<K2, V2>)
    ensures k !in Keys(d) ==> r == []
    ensures k in Keys(d) ==> Get(d, k) == Some(r)
  {
    match Get(d, k) case None => [] case Some(v) => v
  }

  lemma GetOrEmptySet<K, K2, V2>(d: Dict<K, Dict<K2, V2>>, k: K, v: Dict<K2, V2>, k': K)
    ensures GetOrEmpty(Set(d, k, v), k') == if k' == k then v else GetOrEmpty(d, k')
  {
    SetLookup(d, k, v, k');
  }

  // ---------------------------------------------------------------------------------------------
  // `sorted(d.items())` for string keys

  /** Keys strictly ascending in code-point order. */
  predicate SortedByKey<V(==)>(d: Dict<string, V>)
  {
    forall i, j :: 0 <= i < j < |d| ==> Strings.Less(d[i].0, d[j].0)
  }

  function InsertByKey<V(==)>(e: (string, V), d: Dict<string, V>): (r: Dict<string, V>)
    requires SortedByKey(d) && e.0 !in Keys(d)
    ensures SortedByKey(r)
    ensures multiset(r) == multiset(d) + multiset{e}
  {
    if |d| == 0 then [e]
    else if Strings.Less(e.0, d[0].0) then
      InsertFrontSorted(e, d);
      [e] + d
    else
      SortedTail(d, e.0);
      var rest := InsertByKey(e, d[1..]);
      InsertAfterHead(e, d, rest);
      [d[0]] + rest
  }

  /** What the recursive call of `InsertByKey` needs: the tail is sorted and still lacks the key. */
  lemma SortedTail<V>(d: Dict<string, V>, k: string)
    requires SortedByKey(d) && |d| > 0 && k !in Keys(d)
    ensures SortedByKey(d[1..]) && k !in Keys(d[1..]) && k != d[0].0
  {
    assert Keys(d) == [d[0].0] + Keys(d[1..]);
    forall i, j | 0 <= i < j < |d[1..]| ensures Strings.Less(d[1..][i].0, d[1..][j].0) {
      assert d[1..][i] == d[i + 1] && d[1..][j] == d[j + 1];
    }
  }

  /** Putting the first entry back in front of the sorted rest with `e` inserted. */
  lemma InsertAfterHead<V>(e: (string, V), d: Dict<string, V>, rest: Dict<string, V>)
    requires SortedByKey(d) && |d| > 0 && e.0 != d[0].0 && !Strings.Less(e.0, d[0].0)
    requires SortedByKey(rest) && multiset(rest) == multiset(d[1..]) + multiset{e}
    ensures SortedByKey([d[0]] + rest)
    ensures multiset([d[0]] + rest) == multiset(d) + multiset{e}
  {
    Strings.LessTotal(e.0, d[0].0);
    HeadBelowRest(d, e, rest);
    ConsSorted(d[0], rest);
    assert d == [d[0]] + d[1..];
  }

  lemma InsertFrontSorted<V>(e: (string, V), d: Dict<string, V>)
    requires SortedByKey(d) && |d| > 0 && Strings.Less(e.0, d[0].0)
    ensures SortedByKey([e] + d)
  {
    var r := [e] + d;
    forall j | 0 < j < |r| ensures Strings.Less(e.0, r[j].0) {
      if j > 1 {
        Strings.LessTransitive(e.0, d[0].0, d[j - 1].0);
      }
    }
    forall i, j | 0 <= i < j < |r| ensures Strings.Less(r[i].0, r[j].0) {
      if i > 0 {
        assert r[i] == d[i - 1] && r[j] == d[j - 1];
      }
    }
  }

  /** The first key of a sorted dictionary lies below every key of the sorted rest with `e` inserted. */
  lemma HeadBelowRest<V>(d: Dict<string, V>, e: (string, V), rest: Dict<string, V>)
    requires SortedByKey(d) && |d| > 0 && Strings.Less(d[0].0, e.0)
    requires multiset(rest) == multiset(d[1..]) + multiset{e}
    ensures forall j :: 0 <= j < |rest| ==> Strings.Less(d[0].0, rest[j].0)
  {
    forall j | 0 <= j < |rest| ensures Strings.Less(d[0].0, rest[j].0) {
      var x := rest[j];
      assert x in multiset(rest);
      if x != e {
        assert x in multiset(d[1..]);
        var m :| 0 <= m < |d[1..]| && d[1..][m] == x;
        assert d[m + 1] == x;
      }
    }
  }

  lemma ConsSorted<V>(x: (string, V), rest: Dict<string, V>)
    requires SortedByKey(rest)
    requires forall j :: 0 <= j < |rest| ==> Strings.Less(x.0, rest[j].0)
    ensures SortedByKey([x] + rest)
  {
    var r := [x] + rest;
    forall i, j | 0 <= i < j < |r| ensures Strings.Less(r[i].0, r[j].0) {
      assert r[j] == rest[j - 1];
      if i > 0 {
        assert r[i] == rest[i - 1];
      }
    }
  }

  /** `OrderedDict(sorted(d.items()))`: the same entries, in ascending key order. */
  function SortByKey<V(==)>(d: Dict<string, V>): (r: Dict<string, V>)
    requires DistinctKeys(d)
    ensures SortedByKey(r)
    ensures multiset(r) == multiset(d)
  {
    if |d| == 0 then []
    else
      var rest := SortByKey(d[1..]);
      FirstKeyNotInRest(d, rest);
      assert d == [d[0]] + d[1..];
      InsertByKey(d[0], rest)
  }

  lemma FirstKeyNotInRest<V>(d: Dict<string, V>, rest: Dict<string, V>)
    requires DistinctKeys(d) && |d| > 0 && multiset(rest) == multiset(d[1..])
    ensures d[0].0 !in Keys(rest)
  {
    forall i | 0 <= i < |rest| ensures rest[i].0 != d[0].0 {
      assert rest[i] in multiset(d[1..]);
      var m :| 0 <= m < |d[1..]| && d[1..][m] == rest[i];
      assert d[m + 1] == rest[i];
    }
  }

  /** A sorted dictionary has no repeated keys. */
  lemma SortedDistinct<V>(d: Dict<string, V>)
    requires SortedByKey(d)
    ensures DistinctKeys(d)
  {
    forall i, j | 0 <= i < j < |d| ensures d[i].0 != d[j].0 {
      if d[i].0 == d[j].0 {
        Strings.LessIrreflexive(d[i].0);
      }
    }
  }

  /** An association found in one dictionary is found in any other with the same entries. */
  lemma LookupCarriesOver<K, V>(d: Dict<K, V>, e: Dict<K, V>, k: K)
    requires DistinctKeys(e) && multiset(d) == multiset(e) && Get(d, k).Some?
    ensures Get(e, k) == Get(d, k)
  {
    var i := GetEntry(d, k);
    assert d[i] in multiset(e);
    var m :| 0 <= m < |e| && e[m] == d[i];
    GetAt(e, m);
  }

  /** Two dictionaries with the same entries and no repeated keys answer every lookup alike. */
  lemma SameEntriesSameLookups<K, V>(d: Dict<K, V>, e: Dict<K, V>, k: K)
    requires DistinctKeys(d) && DistinctKeys(e) && multiset(d) == multiset(e)
    ensures Get(d, k) == Get(e, k)
  {
    if Get(d, k).Some? {
      LookupCarriesOver(d, e, k);
    }
    if Get(e, k).Some? {
      LookupCarriesOver(e, d, k);
    }
  }

  /** Sorting keeps every key-value association and adds none. */
  lemma SortByKeyLookups<V>(d: Dict<string, V>, k: string)
    requires DistinctKeys(d)
    ensures Get(SortByKey(d), k) == Get(d, k)
  {
    SortedDistinct(SortByKey(d));
    SameEntriesSameLookups(SortByKey(d), d, k);
  }
}
