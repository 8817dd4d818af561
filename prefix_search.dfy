/**
 * The prefix searcher over the chain index (backend/src/indexPdb.js,
 * `makePrefixSearcher`): the keys are sorted once, and a query is answered
 * by a binary search for the first key not below the query followed by a
 * walk over the run of keys that start with it.
 *
 * `PrefixSearchResult` states the answer without the binary search, as a
 * filter over all keys; `PrefixSearcher.Search` is proved to compute it.
 */
module PrefixSearch {
  import opened Strings
  import opened PdbIndex

  /**
   * `lowerBound(arr, target)`: on a sorted array, the first position whose
   * element is not below `target` (`|arr|` if there is none).
   */
  method LowerBound(arr: seq<string>, target: string) returns (lo: nat)
    requires Sorted(arr)
    ensures lo <= |arr|
    ensures forall i :: 0 <= i < lo ==> Less(arr[i], target)
    ensures forall i :: lo <= i < |arr| ==> !Less(arr[i], target)
  {
    lo := 0;
    var hi := |arr|;
    while lo < hi
      invariant 0 <= lo <= hi <= |arr|
      invariant forall i :: 0 <= i < lo ==> Less(arr[i], target)
      invariant forall i :: hi <= i < |arr| ==> !Less(arr[i], target)
      decreases hi - lo
    {
      var mid := (lo + hi) / 2;
      if Less(arr[mid], target) {
        forall i | 0 <= i <= mid ensures Less(arr[i], target) {
          if i < mid { AtMostThenLess(arr[i], arr[mid], target); }
        }
        lo := mid + 1;
      } else {
        forall i | mid <= i < |arr| ensures !Less(arr[i], target) {
          if i > mid && Less(arr[i], target) { AtMostThenLess(arr[mid], arr[i], target); }
        }
        hi := mid;
      }
    }
  }

  /** The keys of `ks` that start with `q`, in the order of `ks`. */
  function Matching(ks: seq<string>, q: string): (r: seq<string>)
    ensures |r| <= |ks|
  {
    if ks == [] then []
    else (if StartsWith(ks[0], q) then [ks[0]] else []) + Matching(ks[1..], q)
  }

  lemma {:induction false} MatchingAppend(a: seq<string>, b: seq<string>, q: string)
    ensures Matching(a + b, q) == Matching(a, q) + Matching(b, q)
  {
    if a == [] {
      assert a + b == b;
    } else {
      var h := if StartsWith(a[0], q) then [a[0]] else [];
      MatchingStep(a, b, q);
      MatchingAppend(a[1..], b, q);
      assert Matching(a, q) == h + Matching(a[1..], q);
    }
  }

  lemma MatchingStep(a: seq<string>, b: seq<string>, q: string)
    requires a != []
    ensures Matching(a + b, q) == (if StartsWith(a[0], q) then [a[0]] else []) + Matching(a[1..] + b, q)
  {
    assert (a + b)[0] == a[0];
    assert (a + b)[1..] == a[1..] + b;
  }

  /** Matching the first `n + 1` keys extends matching the first `n` by at most the key at `n`. */
  lemma MatchingPrefixStep(ks: seq<string>, q: string, n: nat)
    requires n < |ks|
    ensures Matching(ks[..n + 1], q) == Matching(ks[..n], q) + (if StartsWith(ks[n], q) then [ks[n]] else [])
  {
    assert ks[..n + 1] == ks[..n] + [ks[n]];
    MatchingAppend(ks[..n], [ks[n]], q);
  }

  /** Matching splits at any position. */
  lemma MatchingSplit(ks: seq<string>, q: string, n: nat)
    requires n <= |ks|
    ensures Matching(ks, q) == Matching(ks[..n], q) + Matching(ks[n..], q)
  {
    assert ks == ks[..n] + ks[n..];
    MatchingAppend(ks[..n], ks[n..], q);
  }

  /** The matches are exactly the keys that start with `q`. */
  lemma {:induction false} MatchingMembers(ks: seq<string>, q: string)
    ensures forall k :: k in Matching(ks, q) <==> k in ks && StartsWith(k, q)
  {
    if ks != [] {
      MatchingMembers(ks[1..], q);
      assert ks == [ks[0]] + ks[1..];
    }
  }

  /** The ids of the chain entries under the keys `ks`, in order (a key without an entry adds nothing). */
  function IdsAt(index: ChainIndex, ks: seq<string>): (r: seq<string>)
    ensures |r| <= |ks|
  {
    if ks == [] then [] else (if ks[0] in index then [index[ks[0]].id] else []) + IdsAt(index, ks[1..])
  }

  lemma {:induction false} IdsAtAppend(index: ChainIndex, a: seq<string>, b: seq<string>)
    ensures IdsAt(index, a + b) == IdsAt(index, a) + IdsAt(index, b)
  {
    if a == [] {
      assert a + b == b;
    } else {
      IdsAtStep(index, a, b);
      IdsAtAppend(index, a[1..], b);
    }
  }

  lemma IdsAtStep(index: ChainIndex, a: seq<string>, b: seq<string>)
    requires a != []
    ensures IdsAt(index, a + b) == (if a[0] in index then [index[a[0]].id] else []) + IdsAt(index, a[1..] + b)
  {
    assert (a + b)[0] == a[0];
    assert (a + b)[1..] == a[1..] + b;
  }

  /** When every key has an entry, there is one id per key, in order. */
  lemma {:induction false} IdsAtPresent(index: ChainIndex, ks: seq<string>)
    requires forall k :: k in ks ==> k in index
    ensures |IdsAt(index, ks)| == |ks|
    ensures forall j :: 0 <= j < |ks| ==> IdsAt(index, ks)[j] == index[ks[j]].id
  {
    if ks != [] {
      IdsAtPresent(index, ks[1..]);
      assert forall j :: 0 < j < |ks| ==> ks[j] == ks[1..][j - 1];
    }
  }

  /** The query as `prefixSearch` normalises it: trimmed, then lower-cased. */
  function NormalQuery(q: string): string { ToLower(Trim(q)) }

  /**
   * What `prefixSearch(q, limit)` returns, stated as a filter: nothing for a
   * blank query, otherwise the ids of the first `limit` keys, in ascending
   * order, that start with the normalised query.
   */
  function PrefixSearchResult(index: ChainIndex, q: string, limit: nat): seq<string> {
    var nq := NormalQuery(q);
    if nq == [] then [] else FirstMatchIds(index, SortedKeys(index.Keys), nq, limit)
  }

  /** The ids of the first `limit` keys of `ks` that start with `q`. */
  function FirstMatchIds(index: ChainIndex, ks: seq<string>, q: string, limit: nat): seq<string> {
    IdsAt(index, Take(Matching(ks, q), limit))
  }

  /** The searcher `makePrefixSearcher(index)` returns: the index and its keys, sorted once. */
  class PrefixSearcher {
    const index: ChainIndex
    const keys: seq<string>

    constructor(index: ChainIndex)
      ensures this.index == index && keys == SortedKeys(index.Keys)
    {
      this.index := index;
      keys := SortedKeys(index.Keys);
    }

    /** `prefixSearch(q, limit)`. */
    method Search(q: string, limit: nat) returns (out: seq<string>)
      requires keys == SortedKeys(index.Keys)
      ensures out == PrefixSearchResult(index, q, limit)
    {
      var nq := NormalQuery(q);
      if nq == [] { return []; }
      StrictlySortedIsSorted(keys);
      var start := LowerBound(keys, nq);
      out := Walk(nq, start, limit);
    }

    /**
     * The walk of `prefixSearch` from the lower bound: collect ids while the
     * keys start with the query, stopping at the first that does not or
     * once `limit` ids are collected.
     */
    method Walk(nq: string, start: nat, limit: nat) returns (out: seq<string>)
      requires Sorted(keys) && start <= |keys|
      requires forall k :: k in keys ==> k in index
      requires forall j :: 0 <= j < start ==> Less(keys[j], nq)
      requires forall j :: start <= j < |keys| ==> !Less(keys[j], nq)
      ensures out == FirstMatchIds(index, keys, nq, limit)
    {
      out := [];
      var i := start;
      while i < |keys| && |out| < limit
        invariant start <= i <= |keys| && |out| == i - start <= limit
        invariant forall j :: start <= j < i ==> StartsWith(keys[j], nq)
        invariant out == IdsAt(index, keys[start..i])
        decreases |keys| - i
      {
        var k := keys[i];
        if !StartsWith(k, nq) { break; }
        assert forall j :: start <= j < i + 1 ==> StartsWith(keys[j], nq);
        IdsAtExtend(index, keys, start, i);
        out := out + [index[k].id];
        i := i + 1;
      }
      SearchAnswer(keys, nq, limit, start, i);
    }
  }

  /** One more key of the run adds its id to the output. */
  lemma IdsAtExtend(index: ChainIndex, keys: seq<string>, start: nat, i: nat)
    requires start <= i < |keys| && keys[i] in index
    ensures IdsAt(index, keys[start..i + 1]) == IdsAt(index, keys[start..i]) + [index[keys[i]].id]
  {
    assert keys[start..i + 1] == keys[start..i] + [keys[i]];
    IdsAtAppend(index, keys[start..i], [keys[i]]);
    assert [keys[i]][1..] == [];
  }

  /**
   * The walk's output is the answer: once the run from `start` to `i` ends
   * at the end of the keys, at a key without the prefix, or at `limit`
   * keys, it is the first `limit` matches.
   */
  lemma SearchAnswer(keys: seq<string>, q: string, limit: nat, start: nat, i: nat)
    requires Sorted(keys)
    requires start <= i <= |keys|
    requires forall j :: 0 <= j < start ==> Less(keys[j], q)
    requires forall j :: start <= j < |keys| ==> !Less(keys[j], q)
    requires forall j :: start <= j < i ==> StartsWith(keys[j], q)
    requires i == |keys| || i - start == limit || !StartsWith(keys[i], q)
    requires i - start <= limit
    ensures keys[start..i] == Take(Matching(keys, q), limit)
  {
    RunIsMatching(keys, q, start, i);
    if i - start != limit {
      RunEnds(keys, q, start, i);
      assert Matching(keys, q) == keys[start..i];
    }
  }

  lemma StrictlySortedIsSorted(s: seq<string>)
    requires StrictlySorted(s)
    ensures Sorted(s)
  {
    forall i, j | 0 <= i < j < |s| ensures !Less(s[j], s[i]) {
      LessAsymmetric(s[i], s[j]);
    }
  }

  /** Keys that do not start with `q` contribute nothing. */
  lemma {:induction false} MatchingSkip(ks: seq<string>, q: string, n: nat)
    requires n <= |ks|
    requires forall i :: 0 <= i < n ==> !StartsWith(ks[i], q)
    ensures Matching(ks, q) == Matching(ks[n..], q)
  {
    if n > 0 {
      MatchingSkip(ks[1..], q, n - 1);
      assert ks[1..][n - 1..] == ks[n..];
    }
  }

  /** A run of keys that start with `q` is kept as a whole. */
  lemma {:induction false} MatchingRun(ks: seq<string>, q: string, n: nat)
    requires n <= |ks|
    requires forall i :: 0 <= i < n ==> StartsWith(ks[i], q)
    ensures Matching(ks, q) == ks[..n] + Matching(ks[n..], q)
  {
    if n > 0 {
      var tail := ks[1..];
      MatchingRun(tail, q, n - 1);
      assert Matching(ks, q) == [ks[0]] + Matching(tail, q);
      assert tail[n - 1..] == ks[n..];
      assert ks[..n] == [ks[0]] + tail[..n - 1];
    }
  }

  /**
   * On sorted keys, with everything before `start` below `q` and the keys
   * from `start` to `i` starting with `q`, the matches begin with that run.
   */
  lemma RunIsMatching(keys: seq<string>, q: string, start: nat, i: nat)
    requires start <= i <= |keys|
    requires forall j :: 0 <= j < start ==> Less(keys[j], q)
    requires forall j :: start <= j < i ==> StartsWith(keys[j], q)
    ensures Matching(keys, q) == keys[start..i] + Matching(keys[i..], q)
  {
    forall j | 0 <= j < start ensures !StartsWith(keys[j], q) {
      if StartsWith(keys[j], q) { PrefixNotLess(keys[j], q); }
    }
    MatchingSkip(keys, q, start);
    MatchingRun(keys[start..], q, i - start);
    assert keys[start..][..i - start] == keys[start..i];
    assert keys[start..][i - start..] == keys[i..];
  }

  /** The run ends at the first key from `start` on that does not start with `q`. */
  lemma RunEnds(keys: seq<string>, q: string, start: nat, i: nat)
    requires Sorted(keys) && start <= i <= |keys|
    requires forall j :: start <= j < |keys| ==> !Less(keys[j], q)
    requires i == |keys| || !StartsWith(keys[i], q)
    ensures Matching(keys[i..], q) == []
  {
    forall j | i <= j < |keys| ensures !StartsWith(keys[j], q) {
      if j > i && StartsWith(keys[j], q) { PrefixBetween(q, keys[i], keys[j]); }
    }
    MatchingSkip(keys[i..], q, |keys| - i);
  }

  // ---------------------------------------------------------------------
  // What the answer contains
  // ---------------------------------------------------------------------

  /** Never more than `limit` ids. */
  lemma PrefixSearchBounded(index: ChainIndex, q: string, limit: nat)
    ensures |PrefixSearchResult(index, q, limit)| <= limit
  {
  }

  /** Every id returned is the id of a key that starts with the normalised query. */
  lemma PrefixSearchSound(index: ChainIndex, q: string, limit: nat, j: nat)
    requires j < |PrefixSearchResult(index, q, limit)|
    ensures exists k :: k in index && StartsWith(k, NormalQuery(q)) && PrefixSearchResult(index, q, limit)[j] == index[k].id
  {
    var nq := NormalQuery(q);
    var ks := SortedKeys(index.Keys);
    var m := Matching(ks, nq);
    MatchingMembers(ks, nq);
    IdsAtPresent(index, Take(m, limit));
    var k := Take(m, limit)[j];
    assert k in m;
  }

  /**
   * A short answer is complete: when fewer than `limit` ids come back,
   * every key that starts with the (non-blank) query has its id among them.
   */
  lemma PrefixSearchComplete(index: ChainIndex, q: string, limit: nat, k: string)
    requires NormalQuery(q) != [] && k in index && StartsWith(k, NormalQuery(q))
    requires |PrefixSearchResult(index, q, limit)| < limit
    ensures index[k].id in PrefixSearchResult(index, q, limit)
  {
    var nq := NormalQuery(q);
    var ks := SortedKeys(index.Keys);
    var m := Matching(ks, nq);
    MatchingMembers(ks, nq);
    var t := Take(m, limit);
    assert PrefixSearchResult(index, q, limit) == IdsAt(index, t);
    IdsAtPresent(index, t);
    assert t == m;
    var i :| 0 <= i < |m| && m[i] == k;
    assert PrefixSearchResult(index, q, limit)[i] == index[k].id;
  }

  /** Filtering keeps a strictly ascending sequence strictly ascending. */
  lemma {:induction false} MatchingStrictlySorted(ks: seq<string>, q: string)
    requires StrictlySorted(ks)
    ensures StrictlySorted(Matching(ks, q))
  {
    if ks != [] {
      var rest := Matching(ks[1..], q);
      MatchingStrictlySorted(ks[1..], q);
      MatchingMembers(ks[1..], q);
      forall j | 0 <= j < |rest| ensures Less(ks[0], rest[j]) {
        assert rest[j] in ks[1..];
      }
    }
  }

  /**
   * On a built index, the ids come back in strictly ascending order of
   * their lower-cased form, and each lower-cased id starts with the query.
   */
  lemma PrefixSearchOrderedOnBuiltIndex(files: seq<string>, q: string, limit: nat)
    ensures var r := PrefixSearchResult(ChainIndexOf(files), q, limit);
      && (forall j :: 0 <= j < |r| ==> StartsWith(ToLower(r[j]), NormalQuery(q)))
      && (forall i, j :: 0 <= i < j < |r| ==> Less(ToLower(r[i]), ToLower(r[j])))
  {
    var index := ChainIndexOf(files);
    var nq := NormalQuery(q);
    if nq != [] {
      var ks := SortedKeys(index.Keys);
      var m := Matching(ks, nq);
      MatchingMembers(ks, nq);
      MatchingStrictlySorted(ks, nq);
      var t := Take(m, limit);
      IdsAtPresent(index, t);
      var r := PrefixSearchResult(index, q, limit);
      forall j | 0 <= j < |r| ensures ToLower(r[j]) == t[j] && StartsWith(t[j], nq) {
        assert t[j] in m;
        ChainIndexWellFormed(files, t[j]);
      }
    }
  }
}
