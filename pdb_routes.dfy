/**
 * The request handlers of the structure router over the built indexes
 * (backend/src/routesPdb.js). Each handler is a method over the two
 * dictionaries and the request's parameters; its answer is stated by a
 * function, and the lemmas below say what that answer contains. HTTP, the
 * file system and the JSON encoding are not modelled: a file's presence on
 * disk is the parameter `onDisk`, and the order in which `Object.entries`
 * or `Object.values` visits a dictionary is the parameter `order`.
 */
module PdbRoutes {
  import opened Strings
  import opened Outcomes
  import opened PdbIndex
  import opened PrefixSearch

  // ---------------------------------------------------------------------
  // GET /search
  // ---------------------------------------------------------------------

  /** `Math.min(parseInt(limit || "20"), 200)` for a limit that parses to a natural number. */
  function SearchLimit(requested: Option<nat>): (r: nat)
    ensures r <= 200
    ensures requested.None? ==> r == 20
    ensures requested.Some? ==> r == if requested.value < 200 then requested.value else 200
  {
    var n := if requested.Some? then requested.value else 20;
    if n < 200 then n else 200
  }

  /** The `chainIds` of the bases `ks`, concatenated in order (a key without an aggregate adds nothing). */
  function BaseIdsOf(pdbIndex: BaseIndex, ks: seq<string>): seq<string> {
    if ks == [] then []
    else (if ks[0] in pdbIndex then pdbIndex[ks[0]].chainIds else []) + BaseIdsOf(pdbIndex, ks[1..])
  }

  lemma {:induction false} BaseIdsOfAppend(pdbIndex: BaseIndex, a: seq<string>, b: seq<string>)
    ensures BaseIdsOf(pdbIndex, a + b) == BaseIdsOf(pdbIndex, a) + BaseIdsOf(pdbIndex, b)
  {
    if a == [] {
      assert a + b == b;
    } else {
      assert (a + b)[1..] == a[1..] + b;
      BaseIdsOfAppend(pdbIndex, a[1..], b);
    }
  }

  lemma BaseIdsOfOne(pdbIndex: BaseIndex, k: string)
    ensures BaseIdsOf(pdbIndex, [k]) == if k in pdbIndex then pdbIndex[k].chainIds else []
  {
    assert [k][1..] == [];
  }

  /** Tier 1: the `chainIds` of every base whose key starts with `q`, in ascending key order. */
  function TierOneIds(pdbIndex: BaseIndex, q: string): seq<string> {
    BaseIdsOf(pdbIndex, Matching(SortedKeys(pdbIndex.Keys), q))
  }

  /** Tier 2: the ids of every chain key that starts with `q`, in ascending key order. */
  function TierTwoIds(chainIndex: ChainIndex, q: string): seq<string> {
    IdsAt(chainIndex, Matching(SortedKeys(chainIndex.Keys), q))
  }

  /**
   * The answer of `/search`: nothing for a blank query; otherwise the
   * tier-1 ids if there are any, else the tier-2 ids; at most the limit of them.
   */
  function SearchResults(chainIndex: ChainIndex, pdbIndex: BaseIndex, q: string, requested: Option<nat>): seq<string> {
    var nq := NormalQuery(q);
    var limit := SearchLimit(requested);
    if nq == [] then []
    else if TierOneIds(pdbIndex, nq) != [] then Take(TierOneIds(pdbIndex, nq), limit)
    else Take(TierTwoIds(chainIndex, nq), limit)
  }

  /** The `/search` handler. */
  method Search(chainIndex: ChainIndex, pdbIndex: BaseIndex, q: string, requested: Option<nat>)
    returns (results: seq<string>)
    ensures results == SearchResults(chainIndex, pdbIndex, q, requested)
  {
    var nq := NormalQuery(q);
    var limit := SearchLimit(requested);
    if nq == [] { return []; }
    var pdbKeys := SortedKeys(pdbIndex.Keys);
    var found := CollectBaseIds(pdbIndex, pdbKeys, nq, limit);
    if found == [] {
      var chainKeys := SortedKeys(chainIndex.Keys);
      found := CollectChainIds(chainIndex, chainKeys, nq, limit);
    }
    results := Take(found, limit);
  }

  /**
   * The tier-1 loop: for each key starting with `q`, append that base's
   * `chainIds`, stopping once at least `limit` ids are collected.
   */
  method CollectBaseIds(pdbIndex: BaseIndex, keys: seq<string>, q: string, limit: nat) returns (results: seq<string>)
    ensures Take(results, limit) == Take(BaseIdsOf(pdbIndex, Matching(keys, q)), limit)
    ensures limit > 0 ==> (results == [] <==> BaseIdsOf(pdbIndex, Matching(keys, q)) == [])
  {
    results := [];
    for i := 0 to |keys|
      invariant results == BaseIdsOf(pdbIndex, Matching(keys[..i], q))
      invariant |results| < limit || Matching(keys[..i], q) == []
    {
      var k := keys[i];
      ghost var before := Matching(keys[..i], q);
      MatchingPrefixStep(keys, q, i);
      if !StartsWith(k, q) {
        assert Matching(keys[..i + 1], q) == before;
        continue;
      }
      assert Matching(keys[..i + 1], q) == before + [k];
      BaseIdsOfAppend(pdbIndex, before, [k]);
      BaseIdsOfOne(pdbIndex, k);
      results := results + (if k in pdbIndex then pdbIndex[k].chainIds else []);
      if |results| >= limit {
        MatchingSplit(keys, q, i + 1);
        BaseIdsOfAppend(pdbIndex, Matching(keys[..i + 1], q), Matching(keys[i + 1..], q));
        TakeOfLongPrefix(results, BaseIdsOf(pdbIndex, Matching(keys[i + 1..], q)), limit);
        break;
      }
    }
    assert keys[..|keys|] == keys;
  }

  /**
   * The tier-2 loop: for each chain key starting with `q`, append its id,
   * stopping once `limit` ids are collected (after the first when `limit`
   * is 0).
   */
  method CollectChainIds(chainIndex: ChainIndex, keys: seq<string>, q: string, limit: nat) returns (results: seq<string>)
    requires forall k :: k in keys ==> k in chainIndex
    ensures Take(results, limit) == Take(IdsAt(chainIndex, Matching(keys, q)), limit)
  {
    results := [];
    for i := 0 to |keys|
      invariant results == IdsAt(chainIndex, Matching(keys[..i], q))
      invariant |results| < limit || Matching(keys[..i], q) == []
    {
      var k := keys[i];
      MatchingPrefixStep(keys, q, i);
      if !StartsWith(k, q) {
        assert Matching(keys[..i + 1], q) == Matching(keys[..i], q);
        continue;
      }
      CollectStep(chainIndex, keys, q, i);
      results := results + [chainIndex[k].id];
      if |results| >= limit {
        CollectStopped(chainIndex, keys, q, limit, i + 1, results);
        return;
      }
    }
    assert keys[..|keys|] == keys;
  }

  /** A matching key adds its entry's id to the collected ids. */
  lemma CollectStep(chainIndex: ChainIndex, keys: seq<string>, q: string, i: nat)
    requires i < |keys| && StartsWith(keys[i], q) && keys[i] in chainIndex
    ensures IdsAt(chainIndex, Matching(keys[..i + 1], q))
      == IdsAt(chainIndex, Matching(keys[..i], q)) + [chainIndex[keys[i]].id]
  {
    MatchingPrefixStep(keys, q, i);
    IdsAtAppend(chainIndex, Matching(keys[..i], q), [keys[i]]);
    assert [keys[i]][1..] == [];
  }

  /** Stopping after position `stop` with at least `limit` ids keeps the first `limit` ids of every match. */
  lemma CollectStopped(chainIndex: ChainIndex, keys: seq<string>, q: string, limit: nat, stop: nat, results: seq<string>)
    requires stop <= |keys| && results == IdsAt(chainIndex, Matching(keys[..stop], q)) && |results| >= limit
    ensures Take(results, limit) == Take(IdsAt(chainIndex, Matching(keys, q)), limit)
  {
    MatchingSplit(keys, q, stop);
    IdsAtAppend(chainIndex, Matching(keys[..stop], q), Matching(keys[stop..], q));
    TakeOfLongPrefix(results, IdsAt(chainIndex, Matching(keys[stop..], q)), limit);
  }

  /** The ids of the first `n` matches are the first `n` ids of the matches. */
  lemma FirstMatchIdsAsTake(index: ChainIndex, keys: seq<string>, q: string, n: nat)
    requires forall k :: k in keys ==> k in index
    ensures FirstMatchIds(index, keys, q, n) == Take(IdsAt(index, Matching(keys, q)), n)
  {
    var m := Matching(keys, q);
    MatchingMembers(keys, q);
    var t := Take(m, n);
    IdsAtPresent(index, t);
    if |t| == n {
      assert m == t + m[n..];
      IdsAtAppend(index, t, m[n..]);
      TakeOfLongPrefix(IdsAt(index, t), IdsAt(index, m[n..]), n);
    }
  }

  /** A prefix at least `n` long decides the first `n` elements. */
  lemma TakeOfLongPrefix<T>(a: seq<T>, b: seq<T>, n: nat)
    requires |a| >= n
    ensures Take(a + b, n) == Take(a, n)
  {
    assert (a + b)[..n] == a[..n];
  }

  // ---------------------------------------------------------------------
  // What /search answers
  // ---------------------------------------------------------------------

  /** At most the limit, and never more than 200, ids come back. */
  lemma SearchBounded(chainIndex: ChainIndex, pdbIndex: BaseIndex, q: string, requested: Option<nat>)
    ensures |SearchResults(chainIndex, pdbIndex, q, requested)| <= SearchLimit(requested) <= 200
  {
  }

  /**
   * When no base key yields an id, `/search` answers exactly what the prefix
   * searcher over the chain index answers: the linear scan and the binary
   * search agree.
   */
  lemma SearchFallbackIsPrefixSearch(chainIndex: ChainIndex, pdbIndex: BaseIndex, q: string, requested: Option<nat>)
    requires TierOneIds(pdbIndex, NormalQuery(q)) == []
    ensures SearchResults(chainIndex, pdbIndex, q, requested) == PrefixSearchResult(chainIndex, q, SearchLimit(requested))
  {
    var nq := NormalQuery(q);
    if nq != [] {
      FirstMatchIdsAsTake(chainIndex, SortedKeys(chainIndex.Keys), nq, SearchLimit(requested));
    }
  }

  /** An id in the concatenation comes from one of the bases. */
  lemma {:induction false} BaseIdsOfMember(pdbIndex: BaseIndex, ks: seq<string>, r: string)
    requires r in BaseIdsOf(pdbIndex, ks)
    ensures exists k :: k in ks && k in pdbIndex && r in pdbIndex[k].chainIds
  {
    if r !in (if ks[0] in pdbIndex then pdbIndex[ks[0]].chainIds else []) {
      BaseIdsOfMember(pdbIndex, ks[1..], r);
      var k :| k in ks[1..] && k in pdbIndex && r in pdbIndex[k].chainIds;
      assert k in ks;
    }
  }

  /** Every base in the list contributes all of its ids. */
  lemma {:induction false} BaseIdsOfCovers(pdbIndex: BaseIndex, ks: seq<string>, k: string)
    requires k in ks && k in pdbIndex
    ensures |BaseIdsOf(pdbIndex, ks)| >= |pdbIndex[k].chainIds|
  {
    if ks[0] != k {
      BaseIdsOfCovers(pdbIndex, ks[1..], k);
    }
  }

  /**
   * On a built index, the chain-key fallback is never used while some base
   * key starts with the query: the answer is the first ids of tier 1.
   */
  lemma SearchPrefersBases(files: seq<string>, q: string, requested: Option<nat>, k: string)
    requires NormalQuery(q) != [] && k in PdbIndexOf(files) && StartsWith(k, NormalQuery(q))
    ensures TierOneIds(PdbIndexOf(files), NormalQuery(q)) != []
    ensures SearchResults(ChainIndexOf(files), PdbIndexOf(files), q, requested)
         == Take(TierOneIds(PdbIndexOf(files), NormalQuery(q)), SearchLimit(requested))
  {
    var pdbIndex := PdbIndexOf(files);
    var nq := NormalQuery(q);
    var keys := SortedKeys(pdbIndex.Keys);
    MatchingMembers(keys, nq);
    PdbIndexContent(files, k);
    BaseIdsOfCovers(pdbIndex, Matching(keys, nq), k);
  }

  /** On a built index, every id `/search` returns starts, lower-cased, with the normalised query. */
  lemma SearchResultsMatch(files: seq<string>, q: string, requested: Option<nat>)
    ensures forall r :: r in SearchResults(ChainIndexOf(files), PdbIndexOf(files), q, requested)
                     ==> StartsWith(ToLower(r), NormalQuery(q))
  {
    var chainIndex := ChainIndexOf(files);
    var pdbIndex := PdbIndexOf(files);
    var nq := NormalQuery(q);
    var limit := SearchLimit(requested);
    var results := SearchResults(chainIndex, pdbIndex, q, requested);
    if nq != [] {
      var tier1 := TierOneIds(pdbIndex, nq);
      if tier1 != [] {
        var keys := SortedKeys(pdbIndex.Keys);
        MatchingMembers(keys, nq);
        forall r | r in results ensures StartsWith(ToLower(r), nq) {
          assert r in tier1;
          BaseIdsOfMember(pdbIndex, Matching(keys, nq), r);
          var k :| k in Matching(keys, nq) && k in pdbIndex && r in pdbIndex[k].chainIds;
          ChainIdsExtendBaseKey(files, k, r);
          StartsWithTrans(ToLower(r), k, nq);
        }
      } else {
        SearchFallbackIsPrefixSearch(chainIndex, pdbIndex, q, requested);
        PrefixSearchOrderedOnBuiltIndex(files, q, limit);
      }
    }
  }

  // ---------------------------------------------------------------------
  // GET /sequence-search
  // ---------------------------------------------------------------------

  /** One `{ id, sequence }` row of `/sequence-search`, `/seq-index` and `/sequences`. */
  datatype Row = Row(id: string, sequence: string)

  /** `Math.min(parseInt(limit || "5"), 50)` for a limit that parses to a natural number. */
  function SequenceLimit(requested: Option<nat>): (r: nat)
    ensures r <= 50
    ensures requested.None? ==> r == 5
    ensures requested.Some? ==> r == if requested.value < 50 then requested.value else 50
  {
    var n := if requested.Some? then requested.value else 5;
    if n < 50 then n else 50
  }

  /** The hit for one visited key: an entry whose sequence is non-empty and contains `q`. */
  function SequenceHit(chainIndex: ChainIndex, k: string, q: string): seq<Row> {
    if k in chainIndex && chainIndex[k].sequence.Some? && chainIndex[k].sequence.value != ""
       && Contains(chainIndex[k].sequence.value, q)
    then [Row(chainIndex[k].id, chainIndex[k].sequence.value)]
    else []
  }

  /** Every hit of the scan over the keys in visiting order `order`. */
  function SequenceHits(chainIndex: ChainIndex, order: seq<string>, q: string): seq<Row> {
    if order == [] then [] else SequenceHit(chainIndex, order[0], q) + SequenceHits(chainIndex, order[1..], q)
  }

  lemma {:induction false} SequenceHitsAppend(chainIndex: ChainIndex, a: seq<string>, b: seq<string>, q: string)
    ensures SequenceHits(chainIndex, a + b, q) == SequenceHits(chainIndex, a, q) + SequenceHits(chainIndex, b, q)
  {
    if a == [] {
      assert a + b == b;
    } else {
      assert (a + b)[1..] == a[1..] + b;
      SequenceHitsAppend(chainIndex, a[1..], b, q);
    }
  }

  lemma SequenceHitsSnoc(chainIndex: ChainIndex, order: seq<string>, i: nat, q: string)
    requires i < |order|
    ensures SequenceHits(chainIndex, order[..i + 1], q)
      == SequenceHits(chainIndex, order[..i], q) + SequenceHit(chainIndex, order[i], q)
  {
    assert order[..i + 1] == order[..i] + [order[i]];
    SequenceHitsAppend(chainIndex, order[..i], [order[i]], q);
    assert [order[i]][1..] == [];
  }

  /** The query as `/sequence-search` normalises it: trimmed, then upper-cased. */
  function SequenceQuery(q: string): string { ToUpper(Trim(q)) }

  /**
   * The answer of `/sequence-search`: nothing for a query shorter than five
   * characters; otherwise the first hits in visiting order, as many as the
   * limit, and one when the limit is 0 (the row is pushed before the limit
   * is checked).
   */
  function SequenceSearchResults(chainIndex: ChainIndex, order: seq<string>, q: string, requested: Option<nat>): seq<Row> {
    var nq := SequenceQuery(q);
    var limit := SequenceLimit(requested);
    if |nq| < 5 then [] else Take(SequenceHits(chainIndex, order, nq), if limit == 0 then 1 else limit)
  }

  /** The `/sequence-search` handler, visiting the chain keys in the order `order`. */
  method SequenceSearch(chainIndex: ChainIndex, order: seq<string>, q: string, requested: Option<nat>)
    returns (results: seq<Row>)
    ensures results == SequenceSearchResults(chainIndex, order, q, requested)
  {
    var nq := SequenceQuery(q);
    var limit := SequenceLimit(requested);
    if |nq| < 5 { return []; }
    results := [];
    for i := 0 to |order|
      invariant results == SequenceHits(chainIndex, order[..i], nq)
      invariant |results| < limit || results == []
    {
      var k := order[i];
      SequenceHitsSnoc(chainIndex, order, i, nq);
      var hit: seq<Row> := [];
      if k in chainIndex {
        var s := chainIndex[k].sequence;
        if s.Some? && s.value != "" && Contains(s.value, nq) {
          hit := [Row(chainIndex[k].id, s.value)];
        }
      }
      assert hit == SequenceHit(chainIndex, k, nq);
      results := results + hit;
      if hit != [] && |results| >= limit {
        StopScan(chainIndex, order, nq, i + 1, results);
        StoppedAtLimit(chainIndex, order, q, requested, results);
        return;
      }
    }
    ScanExhausted(chainIndex, order, q, requested, results);
  }

  /** The scan that stops on reaching the limit answers the first `max(limit, 1)` hits. */
  lemma StoppedAtLimit(chainIndex: ChainIndex, order: seq<string>, q: string, requested: Option<nat>, results: seq<Row>)
    requires |SequenceQuery(q)| >= 5
    requires Take(SequenceHits(chainIndex, order, SequenceQuery(q)), |results|) == results
    requires var limit := SequenceLimit(requested); |results| == if limit == 0 then 1 else limit
    ensures results == SequenceSearchResults(chainIndex, order, q, requested)
  {
  }

  /** The scan that visits every key without reaching the limit answers every hit. */
  lemma ScanExhausted(chainIndex: ChainIndex, order: seq<string>, q: string, requested: Option<nat>, results: seq<Row>)
    requires |SequenceQuery(q)| >= 5
    requires results == SequenceHits(chainIndex, order[..|order|], SequenceQuery(q))
    requires var limit := SequenceLimit(requested); |results| < limit || results == []
    ensures results == SequenceSearchResults(chainIndex, order, q, requested)
  {
    assert order[..|order|] == order;
  }

  /** Stopping the scan after position `stop` keeps a prefix of every hit. */
  lemma StopScan(chainIndex: ChainIndex, order: seq<string>, q: string, stop: nat, results: seq<Row>)
    requires stop <= |order| && results == SequenceHits(chainIndex, order[..stop], q)
    ensures Take(SequenceHits(chainIndex, order, q), |results|) == results
  {
    assert order == order[..stop] + order[stop..];
    SequenceHitsAppend(chainIndex, order[..stop], order[stop..], q);
    TakeOfLongPrefix(results, SequenceHits(chainIndex, order[stop..], q), |results|);
  }

  /** Every row comes from a visited entry whose non-empty sequence contains `q`. */
  lemma {:induction false} SequenceHitsSound(chainIndex: ChainIndex, order: seq<string>, q: string, h: Row)
    requires h in SequenceHits(chainIndex, order, q)
    ensures h.sequence != "" && Contains(h.sequence, q)
    ensures exists k :: k in order && k in chainIndex && chainIndex[k].id == h.id && chainIndex[k].sequence == Some(h.sequence)
  {
    if h !in SequenceHit(chainIndex, order[0], q) {
      SequenceHitsSound(chainIndex, order[1..], q, h);
      var k :| k in order[1..] && k in chainIndex && chainIndex[k].id == h.id && chainIndex[k].sequence == Some(h.sequence);
      assert k in order;
    }
  }

  /**
   * Every row of the answer has a non-empty sequence that contains the
   * upper-cased query, taken from a visited entry; there are at most
   * `max(limit, 1)` rows, so never more than 50.
   */
  lemma SequenceSearchSound(chainIndex: ChainIndex, order: seq<string>, q: string, requested: Option<nat>, h: Row)
    requires h in SequenceSearchResults(chainIndex, order, q, requested)
    ensures |SequenceQuery(q)| >= 5 && h.sequence != "" && Contains(h.sequence, SequenceQuery(q))
    ensures exists k :: k in order && k in chainIndex && chainIndex[k].id == h.id && chainIndex[k].sequence == Some(h.sequence)
    ensures |SequenceSearchResults(chainIndex, order, q, requested)| <= 50
  {
    var nq := SequenceQuery(q);
    var all := SequenceHits(chainIndex, order, nq);
    var limit := SequenceLimit(requested);
    var t := Take(all, if limit == 0 then 1 else limit);
    assert h in all by { assert t == all[..|t|]; }
    SequenceHitsSound(chainIndex, order, nq, h);
  }

  /** Without sequences there are no hits. */
  lemma {:induction false} NoSequencesNoHits(chainIndex: ChainIndex, order: seq<string>, q: string)
    requires forall k :: k in chainIndex ==> chainIndex[k].sequence.None?
    ensures SequenceHits(chainIndex, order, q) == []
  {
    if order != [] {
      NoSequencesNoHits(chainIndex, order[1..], q);
    }
  }

  /** The build never sets a sequence, so `/sequence-search` over a freshly built index finds nothing. */
  lemma SequenceSearchOnBuiltIndex(files: seq<string>, order: seq<string>, q: string, requested: Option<nat>)
    ensures SequenceSearchResults(ChainIndexOf(files), order, q, requested) == []
  {
    var chainIndex := ChainIndexOf(files);
    forall k | k in chainIndex ensures chainIndex[k].sequence.None? {
      ChainIndexWellFormed(files, k);
    }
    NoSequencesNoHits(chainIndex, order, SequenceQuery(q));
  }

  // ---------------------------------------------------------------------
  // GET /seq-index (the filter; the locale-aware sort is not modelled)
  // ---------------------------------------------------------------------

  /** `id` matches `^[a-z0-9]+_[a-z0-9]+$`, tested at its first "_". */
  predicate IsChainIdShape(id: string) {
    match IndexOf(id, '_')
    case None => false
    case Some(i) => IsLowerAlnumWord(id[..i]) && IsLowerAlnumWord(id[i + 1..])
  }

  lemma LowerWordNoUnderscore(a: string)
    requires IsLowerAlnumWord(a)
    ensures '_' !in a
  {
    assert forall i :: 0 <= i < |a| ==> a[i] != '_';
  }

  /** The shape test is the regular expression: two lower-case alphanumeric words around one "_". */
  lemma ChainIdShapeIff(id: string)
    ensures IsChainIdShape(id) <==> exists a, b :: IsLowerAlnumWord(a) && IsLowerAlnumWord(b) && id == a + "_" + b
  {
    if IsChainIdShape(id) {
      var i := IndexOf(id, '_').value;
      assert id == id[..i] + "_" + id[i + 1..];
    }
    if exists a, b :: IsLowerAlnumWord(a) && IsLowerAlnumWord(b) && id == a + "_" + b {
      var a, b :| IsLowerAlnumWord(a) && IsLowerAlnumWord(b) && id == a + "_" + b;
      LowerWordNoUnderscore(a);
      IndexOfAfterPrefix(a, '_', b);
      assert id[..|a|] == a && id[|a| + 1..] == b;
    }
  }

  /** The row `/seq-index` lists for one entry: trimmed lower-case id, trimmed upper-case sequence. */
  function SeqIndexRow(e: ChainEntry): Option<Row> {
    var id := ToLower(Trim(e.id));
    var sq := ToUpper(Trim(if e.sequence.Some? then e.sequence.value else ""));
    if id == "" || sq == "" || !IsChainIdShape(id) then None else Some(Row(id, sq))
  }

  function SeqIndexRowAt(chainIndex: ChainIndex, k: string): seq<Row> {
    if k in chainIndex && SeqIndexRow(chainIndex[k]).Some? then [SeqIndexRow(chainIndex[k]).value] else []
  }

  /** The rows of `/seq-index` before sorting, visiting the keys in the order `order`. */
  function SeqIndexRows(chainIndex: ChainIndex, order: seq<string>): seq<Row> {
    if order == [] then [] else SeqIndexRowAt(chainIndex, order[0]) + SeqIndexRows(chainIndex, order[1..])
  }

  lemma {:induction false} SeqIndexRowsAppend(chainIndex: ChainIndex, a: seq<string>, b: seq<string>)
    ensures SeqIndexRows(chainIndex, a + b) == SeqIndexRows(chainIndex, a) + SeqIndexRows(chainIndex, b)
  {
    if a == [] {
      assert a + b == b;
    } else {
      assert (a + b)[1..] == a[1..] + b;
      SeqIndexRowsAppend(chainIndex, a[1..], b);
    }
  }

  lemma SeqIndexRowsSnoc(chainIndex: ChainIndex, order: seq<string>, i: nat)
    requires i < |order|
    ensures SeqIndexRows(chainIndex, order[..i + 1]) == SeqIndexRows(chainIndex, order[..i]) + SeqIndexRowAt(chainIndex, order[i])
  {
    assert order[..i + 1] == order[..i] + [order[i]];
    SeqIndexRowsAppend(chainIndex, order[..i], [order[i]]);
    SeqIndexRowsSingle(chainIndex, order[i]);
  }

  lemma SeqIndexRowsSingle(chainIndex: ChainIndex, k: string)
    ensures SeqIndexRows(chainIndex, [k]) == SeqIndexRowAt(chainIndex, k)
  {
    assert [k][1..] == [];
  }

  /** The `/seq-index` handler's loop. */
  method SeqIndex(chainIndex: ChainIndex, order: seq<string>) returns (results: seq<Row>)
    ensures results == SeqIndexRows(chainIndex, order)
  {
    results := [];
    for i := 0 to |order|
      invariant results == SeqIndexRows(chainIndex, order[..i])
    {
      var k := order[i];
      SeqIndexRowsSnoc(chainIndex, order, i);
      if k !in chainIndex { continue; }
      var row := SeqIndexRow(chainIndex[k]);
      if row.None? { continue; }
      results := results + [row.value];
    }
    assert order[..|order|] == order;
  }

  /**
   * Every listed row has a chain-shaped lower-case id and a non-empty
   * upper-case sequence, and is the row of a visited entry.
   */
  lemma {:induction false} SeqIndexSound(chainIndex: ChainIndex, order: seq<string>, r: Row)
    requires r in SeqIndexRows(chainIndex, order)
    ensures IsChainIdShape(r.id) && NoUpper(r.id) && r.sequence != "" && NoLower(r.sequence)
    ensures exists k :: k in order && k in chainIndex && SeqIndexRow(chainIndex[k]) == Some(r)
  {
    if r in SeqIndexRowAt(chainIndex, order[0]) {
      var e := chainIndex[order[0]];
      ToLowerNoUpper(Trim(e.id));
      ToUpperNoLower(Trim(if e.sequence.Some? then e.sequence.value else ""));
      assert order[0] in order;
    } else {
      SeqIndexSound(chainIndex, order[1..], r);
      var k :| k in order[1..] && k in chainIndex && SeqIndexRow(chainIndex[k]) == Some(r);
      assert k in order;
    }
  }

  /** Every visited entry that passes the filter is listed. */
  lemma {:induction false} SeqIndexComplete(chainIndex: ChainIndex, order: seq<string>, k: string)
    requires k in order && k in chainIndex && SeqIndexRow(chainIndex[k]).Some?
    ensures SeqIndexRow(chainIndex[k]).value in SeqIndexRows(chainIndex, order)
  {
    if order[0] != k {
      SeqIndexComplete(chainIndex, order[1..], k);
    }
  }

  lemma EmptyUpperTrim()
    ensures ToUpper(Trim("")) == ""
  {
    assert |Trim("")| == 0;
  }

  lemma {:induction false} NoSequencesNoRows(chainIndex: ChainIndex, order: seq<string>)
    requires forall k :: k in chainIndex ==> chainIndex[k].sequence.None?
    ensures SeqIndexRows(chainIndex, order) == []
  {
    if order != [] {
      if order[0] in chainIndex {
        NoSequenceNoRow(chainIndex[order[0]]);
      }
      NoSequencesNoRows(chainIndex, order[1..]);
    }
  }

  lemma NoSequenceNoRow(e: ChainEntry)
    requires e.sequence.None?
    ensures SeqIndexRow(e) == None
  {
    EmptyUpperTrim();
  }

  /** The build never sets a sequence, so `/seq-index` over a freshly built index lists nothing. */
  lemma SeqIndexOnBuiltIndex(files: seq<string>, order: seq<string>)
    ensures SeqIndexRows(ChainIndexOf(files), order) == []
  {
    var chainIndex := ChainIndexOf(files);
    forall k | k in chainIndex ensures chainIndex[k].sequence.None? {
      ChainIndexWellFormed(files, k);
    }
    NoSequencesNoRows(chainIndex, order);
  }

  // ---------------------------------------------------------------------
  // POST /sequences
  // ---------------------------------------------------------------------

  /** The most ids `/sequences` looks at. */
  const MaxSequenceIds: nat := 500

  /** One requested id as `/sequences` cleans it. */
  function CleanId(x: string): string { ToLower(Trim(x)) }

  /** The cleaned ids that match `^[a-z0-9]+$`, in request order. */
  function KeptIds(ids: seq<string>): (r: seq<string>)
    ensures |r| <= |ids|
  {
    if ids == [] then [] else KeptId(ids[0]) + KeptIds(ids[1..])
  }

  function KeptId(x: string): seq<string> {
    if IsLowerAlnumWord(CleanId(x)) then [CleanId(x)] else []
  }

  /** The ids `/sequences` answers for: cleaned, filtered, at most 500. */
  function CleanIds(ids: seq<string>): seq<string> { Take(KeptIds(ids), MaxSequenceIds) }

  /** Every kept id is a lower-case alphanumeric word obtained by cleaning one of the inputs. */
  lemma {:induction false} KeptIdsSound(ids: seq<string>, c: string)
    requires c in KeptIds(ids)
    ensures IsLowerAlnumWord(c) && exists j :: 0 <= j < |ids| && CleanId(ids[j]) == c
  {
    if !IsLowerAlnumWord(CleanId(ids[0])) || CleanId(ids[0]) != c {
      KeptIdsSound(ids[1..], c);
      var j :| 0 <= j < |ids[1..]| && CleanId(ids[1..][j]) == c;
      assert CleanId(ids[j + 1]) == c;
    }
  }

  /** A lower-case alphanumeric word is already clean. */
  lemma CleanIdOfWord(w: string)
    requires IsLowerAlnumWord(w)
    ensures CleanId(w) == w
  {
    assert !IsSpace(w[0]) && !IsSpace(w[|w| - 1]);
    TrimOfTrimmed(w);
    assert NoUpper(w);
    ToLowerOfNoUpper(w);
  }

  lemma KeptIdOfWord(w: string)
    requires IsLowerAlnumWord(w)
    ensures KeptId(w) == [w]
  {
    CleanIdOfWord(w);
  }

  lemma {:induction false} KeptIdsOfWords(ids: seq<string>)
    requires forall w :: w in ids ==> IsLowerAlnumWord(w)
    ensures KeptIds(ids) == ids
  {
    if ids != [] {
      assert ids[0] in ids;
      KeptIdOfWord(ids[0]);
      KeptIdsOfWords(ids[1..]);
    }
  }

  /** The cleaned ids are at most 500 lower-case alphanumeric words, and cleaning them again changes nothing. */
  lemma CleanIdsIdempotent(ids: seq<string>)
    ensures |CleanIds(ids)| <= MaxSequenceIds
    ensures forall w :: w in CleanIds(ids) ==> IsLowerAlnumWord(w)
    ensures CleanIds(CleanIds(ids)) == CleanIds(ids)
  {
    var c := CleanIds(ids);
    forall w | w in c ensures IsLowerAlnumWord(w) {
      KeptIdsSound(ids, w);
    }
    KeptIdsOfWords(c);
  }

  /** The first of `chains` that ends in "_a". */
  function FirstEndingA(chains: seq<string>): Option<string> {
    if chains == [] then None
    else if EndsWith(chains[0], "_a") then Some(chains[0])
    else FirstEndingA(chains[1..])
  }

  lemma {:induction false} FirstEndingASpec(chains: seq<string>)
    ensures FirstEndingA(chains).None? <==> forall j :: 0 <= j < |chains| ==> !EndsWith(chains[j], "_a")
    ensures FirstEndingA(chains).Some? ==>
      exists i :: 0 <= i < |chains| && chains[i] == FirstEndingA(chains).value && EndsWith(chains[i], "_a")
        && forall j :: 0 <= j < i ==> !EndsWith(chains[j], "_a")
  {
    if chains != [] && !EndsWith(chains[0], "_a") {
      var rest := chains[1..];
      FirstEndingASpec(rest);
      assert forall j :: 1 <= j < |chains| ==> chains[j] == rest[j - 1];
      if FirstEndingA(rest).Some? {
        var i :| 0 <= i < |rest| && rest[i] == FirstEndingA(rest).value && EndsWith(rest[i], "_a")
          && forall j :: 0 <= j < i ==> !EndsWith(rest[j], "_a");
        assert chains[i + 1] == rest[i];
      }
    }
  }

  function LowerAll(xs: seq<string>): seq<string> {
    seq(|xs|, i requires 0 <= i < |xs| => ToLower(xs[i]))
  }

  /** The chain `/sequences` reads a base's sequence from. */
  function PreferredChain(chainIds: seq<string>): string
    requires chainIds != []
  {
    var chains := LowerAll(chainIds);
    match FirstEndingA(chains)
    case Some(c) => c
    case None => chains[0]
  }

  /**
   * The preferred chain is the first lower-cased chain id ending in "_a";
   * when none does, it is the first chain id, lower-cased.
   */
  lemma PreferredChainSpec(chainIds: seq<string>)
    requires chainIds != []
    ensures var p := PreferredChain(chainIds);
      if exists j :: 0 <= j < |chainIds| && EndsWith(ToLower(chainIds[j]), "_a") then
        exists i :: 0 <= i < |chainIds| && p == ToLower(chainIds[i]) && EndsWith(p, "_a")
          && forall j :: 0 <= j < i ==> !EndsWith(ToLower(chainIds[j]), "_a")
      else p == ToLower(chainIds[0])
  {
    var chains := LowerAll(chainIds);
    FirstEndingASpec(chains);
    assert forall j :: 0 <= j < |chainIds| ==> chains[j] == ToLower(chainIds[j]);
  }

  /** The row `/sequences` returns for one cleaned base id, if any. */
  function SequenceFor(chainIndex: ChainIndex, pdbIndex: BaseIndex, base: string): Option<Row> {
    if base !in pdbIndex || pdbIndex[base].chainIds == [] then None
    else
      var preferred := PreferredChain(pdbIndex[base].chainIds);
      var raw := if preferred in chainIndex && chainIndex[preferred].sequence.Some?
        then chainIndex[preferred].sequence.value else "";
      var sq := ToUpper(Trim(raw));
      if sq == "" then None else Some(Row(base, sq))
  }

  function SequenceRows(chainIndex: ChainIndex, pdbIndex: BaseIndex, bases: seq<string>): seq<Row> {
    if bases == [] then [] else SequenceRowAt(chainIndex, pdbIndex, bases[0]) + SequenceRows(chainIndex, pdbIndex, bases[1..])
  }

  function SequenceRowAt(chainIndex: ChainIndex, pdbIndex: BaseIndex, base: string): seq<Row> {
    match SequenceFor(chainIndex, pdbIndex, base)
    case Some(r) => [r]
    case None => []
  }

  lemma {:induction false} SequenceRowsAppend(chainIndex: ChainIndex, pdbIndex: BaseIndex, a: seq<string>, b: seq<string>)
    ensures SequenceRows(chainIndex, pdbIndex, a + b) == SequenceRows(chainIndex, pdbIndex, a) + SequenceRows(chainIndex, pdbIndex, b)
  {
    if a == [] {
      assert a + b == b;
    } else {
      SequenceRowsStep(chainIndex, pdbIndex, a, b);
      SequenceRowsAppend(chainIndex, pdbIndex, a[1..], b);
    }
  }

  lemma SequenceRowsStep(chainIndex: ChainIndex, pdbIndex: BaseIndex, a: seq<string>, b: seq<string>)
    requires a != []
    ensures SequenceRows(chainIndex, pdbIndex, a + b)
      == SequenceRowAt(chainIndex, pdbIndex, a[0]) + SequenceRows(chainIndex, pdbIndex, a[1..] + b)
  {
    assert (a + b)[0] == a[0];
    assert (a + b)[1..] == a[1..] + b;
  }

  lemma SequenceRowsSnoc(chainIndex: ChainIndex, pdbIndex: BaseIndex, bases: seq<string>, i: nat)
    requires i < |bases|
    ensures SequenceRows(chainIndex, pdbIndex, bases[..i + 1])
      == SequenceRows(chainIndex, pdbIndex, bases[..i]) + SequenceRowAt(chainIndex, pdbIndex, bases[i])
  {
    assert bases[..i + 1] == bases[..i] + [bases[i]];
    SequenceRowsAppend(chainIndex, pdbIndex, bases[..i], [bases[i]]);
    SequenceRowsSingle(chainIndex, pdbIndex, bases[i]);
  }

  lemma SequenceRowsSingle(chainIndex: ChainIndex, pdbIndex: BaseIndex, b: string)
    ensures SequenceRows(chainIndex, pdbIndex, [b]) == SequenceRowAt(chainIndex, pdbIndex, b)
  {
    assert [b][1..] == [];
  }

  /** The answer of `/sequences` for the requested ids. */
  function SequencesResult(chainIndex: ChainIndex, pdbIndex: BaseIndex, ids: seq<string>): seq<Row> {
    SequenceRows(chainIndex, pdbIndex, CleanIds(ids))
  }

  /** The `/sequences` handler. */
  method Sequences(chainIndex: ChainIndex, pdbIndex: BaseIndex, ids: seq<string>) returns (out: seq<Row>)
    ensures out == SequencesResult(chainIndex, pdbIndex, ids)
  {
    var cleaned := CleanIds(ids);
    out := CollectSequences(chainIndex, pdbIndex, cleaned);
  }

  /** The loop of `/sequences` over the cleaned ids. */
  method CollectSequences(chainIndex: ChainIndex, pdbIndex: BaseIndex, cleaned: seq<string>) returns (out: seq<Row>)
    ensures out == SequenceRows(chainIndex, pdbIndex, cleaned)
  {
    out := [];
    for i := 0 to |cleaned|
      invariant out == SequenceRows(chainIndex, pdbIndex, cleaned[..i])
    {
      var base := cleaned[i];
      SequenceRowsSnoc(chainIndex, pdbIndex, cleaned, i);
      var row := SequenceFor(chainIndex, pdbIndex, base);
      if row.None? { continue; }
      out := out + [row.value];
    }
    assert cleaned[..|cleaned|] == cleaned;
  }

  lemma {:induction false} SequenceRowsSound(chainIndex: ChainIndex, pdbIndex: BaseIndex, bases: seq<string>, r: Row)
    requires r in SequenceRows(chainIndex, pdbIndex, bases)
    ensures r.id in bases && SequenceFor(chainIndex, pdbIndex, r.id) == Some(r)
  {
    if SequenceFor(chainIndex, pdbIndex, bases[0]) != Some(r) {
      SequenceRowsSound(chainIndex, pdbIndex, bases[1..], r);
    }
  }

  lemma {:induction false} SequenceRowsBounded(chainIndex: ChainIndex, pdbIndex: BaseIndex, bases: seq<string>)
    ensures |SequenceRows(chainIndex, pdbIndex, bases)| <= |bases|
  {
    if bases != [] {
      SequenceRowsBounded(chainIndex, pdbIndex, bases[1..]);
    }
  }

  /**
   * At most 500 rows; each row's id is one of the cleaned ids and an
   * indexed base with chains, and its sequence is the non-empty trimmed,
   * upper-cased sequence of the base's preferred chain.
   */
  lemma SequencesSound(chainIndex: ChainIndex, pdbIndex: BaseIndex, ids: seq<string>, r: Row)
    requires r in SequencesResult(chainIndex, pdbIndex, ids)
    ensures |SequencesResult(chainIndex, pdbIndex, ids)| <= MaxSequenceIds
    ensures r.id in CleanIds(ids) && IsLowerAlnumWord(r.id)
    ensures r.id in pdbIndex && pdbIndex[r.id].chainIds != []
    ensures var p := PreferredChain(pdbIndex[r.id].chainIds);
      p in chainIndex && chainIndex[p].sequence.Some? && r.sequence == ToUpper(Trim(chainIndex[p].sequence.value)) && r.sequence != ""
  {
    CleanIdsIdempotent(ids);
    SequenceRowsBounded(chainIndex, pdbIndex, CleanIds(ids));
    SequenceRowsSound(chainIndex, pdbIndex, CleanIds(ids), r);
    EmptyUpperTrim();
  }

  /** Every cleaned id whose base has a sequence is answered. */
  lemma {:induction false} SequenceRowsComplete(chainIndex: ChainIndex, pdbIndex: BaseIndex, bases: seq<string>, b: string)
    requires b in bases && SequenceFor(chainIndex, pdbIndex, b).Some?
    ensures SequenceFor(chainIndex, pdbIndex, b).value in SequenceRows(chainIndex, pdbIndex, bases)
  {
    if bases[0] != b {
      SequenceRowsComplete(chainIndex, pdbIndex, bases[1..], b);
    }
  }

  lemma {:induction false} NoSequencesNoSequenceRows(chainIndex: ChainIndex, pdbIndex: BaseIndex, bases: seq<string>)
    requires forall k :: k in chainIndex ==> chainIndex[k].sequence.None?
    ensures SequenceRows(chainIndex, pdbIndex, bases) == []
  {
    if bases != [] {
      NoSequenceNoRowAt(chainIndex, pdbIndex, bases[0]);
      NoSequencesNoSequenceRows(chainIndex, pdbIndex, bases[1..]);
    }
  }

  lemma NoSequenceNoRowAt(chainIndex: ChainIndex, pdbIndex: BaseIndex, base: string)
    requires forall k :: k in chainIndex ==> chainIndex[k].sequence.None?
    ensures SequenceRowAt(chainIndex, pdbIndex, base) == []
  {
    EmptyUpperTrim();
  }

  /** Over a freshly built index no chain has a sequence, so `/sequences` answers nothing. */
  lemma SequencesOnBuiltIndex(files: seq<string>, ids: seq<string>)
    ensures SequencesResult(ChainIndexOf(files), PdbIndexOf(files), ids) == []
  {
    var chainIndex := ChainIndexOf(files);
    forall k | k in chainIndex ensures chainIndex[k].sequence.None? {
      ChainIndexWellFormed(files, k);
    }
    NoSequencesNoSequenceRows(chainIndex, PdbIndexOf(files), CleanIds(ids));
  }

  // ---------------------------------------------------------------------
  // GET /file/:id, GET /:pdb/:chain, GET /:pdb
  // ---------------------------------------------------------------------

  /** `s` matches `^[a-z0-9_]+$`. */
  predicate IsKeyWord(s: string) {
    |s| > 0 && forall i :: 0 <= i < |s| ==> IsDigit(s[i]) || IsLower(s[i]) || s[i] == '_'
  }

  /**
   * `/file/:id`: the entry whose key is the trimmed, lower-cased id, if
   * the key is well formed, indexed, and its file is among `onDisk`.
   */
  function FileById(chainIndex: ChainIndex, onDisk: set<string>, id: string): Outcome<ChainEntry> {
    var key := ToLower(Trim(id));
    if !IsKeyWord(key) then Fail(400, "Invalid id")
    else if key !in chainIndex then Fail(404, "PDB chain not found")
    else if chainIndex[key].file !in onDisk then Fail(404, "File missing on server")
    else Ok(chainIndex[key])
  }

  /** `/:pdb/:chain`: the entry under `pdb_chain`, both parts trimmed and lower-cased. */
  function PdbChain(chainIndex: ChainIndex, onDisk: set<string>, pdb: string, chain: string): Outcome<ChainEntry> {
    var p := ToLower(Trim(pdb));
    var c := ToLower(Trim(chain));
    if !IsLowerAlnumWord(p) || !IsLowerAlnumWord(c) then Fail(400, "Invalid pdb or chain")
    else
      var key := p + "_" + c;
      if key !in chainIndex then Fail(404, "PDB chain not found")
      else if chainIndex[key].file !in onDisk then Fail(404, "File missing on server")
      else Ok(chainIndex[key])
  }

  /** `/:pdb`: the aggregate under the trimmed, lower-cased id. */
  function PdbById(pdbIndex: BaseIndex, pdb: string): Outcome<PdbEntry> {
    var key := ToLower(Trim(pdb));
    if !IsLowerAlnumWord(key) then Fail(400, "Invalid pdb id")
    else if key !in pdbIndex then Fail(404, "PDB not found")
    else Ok(pdbIndex[key])
  }

  /**
   * The checks of `/file/:id` come in the handler's order: the shape of
   * the key, then the index, then the disk; the entry is served exactly
   * when all three pass.
   */
  lemma FileByIdOrder(chainIndex: ChainIndex, onDisk: set<string>, id: string)
    ensures var r := FileById(chainIndex, onDisk, id);
      var key := ToLower(Trim(id));
      && (r == Fail(400, "Invalid id") <==> !IsKeyWord(key))
      && (r == Fail(404, "PDB chain not found") <==> IsKeyWord(key) && key !in chainIndex)
      && (r == Fail(404, "File missing on server") <==>
            IsKeyWord(key) && key in chainIndex && chainIndex[key].file !in onDisk)
      && (r.Ok? <==> IsKeyWord(key) && key in chainIndex && chainIndex[key].file in onDisk)
      && (r.Ok? ==> r.value == chainIndex[key])
  {
  }

  /**
   * The checks of `/:pdb/:chain` come in the handler's order: the shape of
   * both parts, then the index, then the disk.
   */
  lemma PdbChainOrder(chainIndex: ChainIndex, onDisk: set<string>, pdb: string, chain: string)
    ensures var r := PdbChain(chainIndex, onDisk, pdb, chain);
      var p := ToLower(Trim(pdb));
      var c := ToLower(Trim(chain));
      var key := p + "_" + c;
      var valid := IsLowerAlnumWord(p) && IsLowerAlnumWord(c);
      && (r == Fail(400, "Invalid pdb or chain") <==> !valid)
      && (r == Fail(404, "PDB chain not found") <==> valid && key !in chainIndex)
      && (r == Fail(404, "File missing on server") <==>
            valid && key in chainIndex && chainIndex[key].file !in onDisk)
      && (r.Ok? <==> valid && key in chainIndex && chainIndex[key].file in onDisk)
      && (r.Ok? ==> r.value == chainIndex[key])
  {
  }

  /** The checks of `/:pdb` come in the handler's order: the shape of the id, then the index. */
  lemma PdbByIdOrder(pdbIndex: BaseIndex, pdb: string)
    ensures var r := PdbById(pdbIndex, pdb);
      var key := ToLower(Trim(pdb));
      && (r == Fail(400, "Invalid pdb id") <==> !IsLowerAlnumWord(key))
      && (r == Fail(404, "PDB not found") <==> IsLowerAlnumWord(key) && key !in pdbIndex)
      && (r.Ok? <==> IsLowerAlnumWord(key) && key in pdbIndex)
      && (r.Ok? ==> r.value == pdbIndex[key])
  {
  }

  /** An upper-case code is its own trim, and lower-cases to a lower-case alphanumeric word. */
  lemma UpperCodeLowers(s: string)
    requires IsUpperCode(s)
    ensures Trim(s) == s && IsLowerAlnumWord(ToLower(s))
  {
    assert !IsSpace(s[0]) && !IsSpace(s[|s| - 1]);
    TrimOfTrimmed(s);
  }

  /** The key of a built entry, spelled out: lower-case base, then "_" and lower-case chain when there is one. */
  lemma ChainKeyParts(e: ChainEntry)
    requires WellFormed(e)
    ensures e.chain == "" ==> ChainKey(e) == ToLower(e.pdb)
    ensures e.chain != "" ==> ChainKey(e) == ToLower(e.pdb) + "_" + ToLower(e.chain)
    ensures IsLowerAlnumWord(ToLower(e.pdb)) && (e.chain != "" ==> IsLowerAlnumWord(ToLower(e.chain)))
  {
    UpperCodeLowers(e.pdb);
    if e.chain != "" {
      UpperCodeLowers(e.chain);
      ToLowerAround(e.pdb, '_', e.chain);
    }
  }

  /** A built entry's id is its own trim, and its key is a well-formed, trimmed, lower-case key. */
  lemma BuiltIdShape(e: ChainEntry)
    requires WellFormed(e)
    ensures Trim(e.id) == e.id && IsKeyWord(ChainKey(e))
  {
    ChainKeyParts(e);
    var k := ChainKey(e);
    var lp := ToLower(e.pdb);
    if e.chain == "" {
      UpperCodeLowers(e.pdb);
    } else {
      var lc := ToLower(e.chain);
      assert e.id[0] == e.pdb[0] && e.id[|e.id| - 1] == e.chain[|e.chain| - 1];
      assert !IsSpace(e.id[0]) && !IsSpace(e.id[|e.id| - 1]);
      TrimOfTrimmed(e.id);
      forall i | 0 <= i < |k| ensures IsDigit(k[i]) || IsLower(k[i]) || k[i] == '_' {
        if i < |lp| {
          assert k[i] == lp[i];
        } else if i > |lp| {
          assert k[i] == lc[i - |lp| - 1];
        }
      }
    }
  }

  /**
   * Every entry of a built index whose file is on disk is served by
   * `/file/:id`, under its key and under its upper-case id alike.
   */
  lemma FileByIdServesBuiltIndex(files: seq<string>, onDisk: set<string>, k: string)
    requires k in ChainIndexOf(files) && ChainIndexOf(files)[k].file in onDisk
    ensures FileById(ChainIndexOf(files), onDisk, k) == Ok(ChainIndexOf(files)[k])
    ensures FileById(ChainIndexOf(files), onDisk, ChainIndexOf(files)[k].id) == Ok(ChainIndexOf(files)[k])
  {
    ChainIndexWellFormed(files, k);
    BuiltIdShape(ChainIndexOf(files)[k]);
    ServesEntryByKey(ChainIndexOf(files), onDisk, k);
    ServesEntryById(ChainIndexOf(files), onDisk, k);
  }

  /** An entry on disk under a well-formed key is served under that key. */
  lemma ServesEntryByKey(chainIndex: ChainIndex, onDisk: set<string>, k: string)
    requires k in chainIndex && chainIndex[k].file in onDisk && IsKeyWord(k)
    ensures FileById(chainIndex, onDisk, k) == Ok(chainIndex[k])
  {
    KeyWordFixed(k);
  }

  /** An entry on disk whose trimmed id lower-cases to its well-formed key is served under its id. */
  lemma ServesEntryById(chainIndex: ChainIndex, onDisk: set<string>, k: string)
    requires k in chainIndex && chainIndex[k].file in onDisk && IsKeyWord(k)
    requires ToLower(chainIndex[k].id) == k && Trim(chainIndex[k].id) == chainIndex[k].id
    ensures FileById(chainIndex, onDisk, chainIndex[k].id) == Ok(chainIndex[k])
  {
  }

  /** A key word is its own trim and its own lower-case form. */
  lemma KeyWordFixed(w: string)
    requires IsKeyWord(w)
    ensures Trim(w) == w && ToLower(w) == w
  {
    forall i | 0 <= i < |w| ensures !IsUpper(w[i]) {
      assert IsDigit(w[i]) || IsLower(w[i]) || w[i] == '_';
    }
    ToLowerOfNoUpper(w);
    assert IsDigit(w[0]) || IsLower(w[0]) || w[0] == '_';
    assert IsDigit(w[|w| - 1]) || IsLower(w[|w| - 1]) || w[|w| - 1] == '_';
    TrimOfTrimmed(w);
  }

  /** What `/file/:id` serves from a built index is the entry whose key is the normalised id, and its file is on disk. */
  lemma FileByIdOnBuiltIndex(files: seq<string>, onDisk: set<string>, id: string, e: ChainEntry)
    requires FileById(ChainIndexOf(files), onDisk, id) == Ok(e)
    ensures ChainKey(e) == ToLower(Trim(id)) && WellFormed(e) && e.file in onDisk
  {
    ChainIndexWellFormed(files, ToLower(Trim(id)));
  }

  /** With `'_' !in a` and `'_' !in c`, `a + "_" + b == c + "_" + d` splits the same way. */
  lemma SplitAtUnderscore(a: string, b: string, c: string, d: string)
    requires '_' !in a && '_' !in c && a + "_" + b == c + "_" + d
    ensures a == c && b == d
  {
    IndexOfAfterPrefix(a, '_', b);
    IndexOfAfterPrefix(c, '_', d);
    var s := a + "_" + b;
    assert a == s[..|a|] && b == s[|a| + 1..];
  }

  /** A built entry whose key holds "_" has a chain. */
  lemma UnderscoreKeyHasChain(e: ChainEntry)
    requires WellFormed(e)
    ensures e.chain == "" ==> '_' !in ChainKey(e)
  {
    ChainKeyParts(e);
    if e.chain == "" {
      LowerWordNoUnderscore(ToLower(e.pdb));
    }
  }

  /** Every chain entry of a built index whose file is on disk is served by `/:pdb/:chain` for its own base and chain. */
  lemma PdbChainServesBuiltIndex(files: seq<string>, onDisk: set<string>, k: string)
    requires k in ChainIndexOf(files) && ChainIndexOf(files)[k].chain != "" && ChainIndexOf(files)[k].file in onDisk
    ensures var e := ChainIndexOf(files)[k]; PdbChain(ChainIndexOf(files), onDisk, e.pdb, e.chain) == Ok(e)
  {
    var e := ChainIndexOf(files)[k];
    ChainIndexWellFormed(files, k);
    ChainKeyParts(e);
    UpperCodeLowers(e.pdb);
    UpperCodeLowers(e.chain);
  }

  /**
   * What `/:pdb/:chain` serves from a built index is the chain `chain` of
   * the structure `pdb`, compared without case, with its file on disk.
   */
  lemma PdbChainOnBuiltIndex(files: seq<string>, onDisk: set<string>, pdb: string, chain: string, e: ChainEntry)
    requires PdbChain(ChainIndexOf(files), onDisk, pdb, chain) == Ok(e)
    ensures e.chain != "" && e.file in onDisk
    ensures ToLower(e.pdb) == ToLower(Trim(pdb)) && ToLower(e.chain) == ToLower(Trim(chain))
  {
    var p := ToLower(Trim(pdb));
    var c := ToLower(Trim(chain));
    var key := p + "_" + c;
    ChainIndexWellFormed(files, key);
    assert key[|p|] == '_';
    UnderscoreKeyHasChain(e);
    ChainKeyParts(e);
    LowerWordNoUnderscore(p);
    LowerWordNoUnderscore(ToLower(e.pdb));
    SplitAtUnderscore(p, c, ToLower(e.pdb), ToLower(e.chain));
  }

  /** Every aggregate of a built index is served by `/:pdb`, under its key and under its upper-case code alike. */
  lemma PdbByIdServesBuiltIndex(files: seq<string>, k: string)
    requires k in PdbIndexOf(files)
    ensures PdbById(PdbIndexOf(files), k) == Ok(PdbIndexOf(files)[k])
    ensures PdbById(PdbIndexOf(files), PdbIndexOf(files)[k].pdb) == Ok(PdbIndexOf(files)[k])
  {
    AggregateBaseIsKey(files, k);
    ServesAggregate(PdbIndexOf(files), k);
  }

  /** An aggregate whose upper-case code lower-cases to its key is served under both. */
  lemma ServesAggregate(pdbIndex: BaseIndex, k: string)
    requires k in pdbIndex && ToLower(pdbIndex[k].pdb) == k && IsUpperCode(pdbIndex[k].pdb)
    ensures PdbById(pdbIndex, k) == Ok(pdbIndex[k])
    ensures PdbById(pdbIndex, pdbIndex[k].pdb) == Ok(pdbIndex[k])
  {
    PdbByIdOfCode(pdbIndex, pdbIndex[k].pdb);
    UpperCodeLowers(pdbIndex[k].pdb);
    PdbByIdOfKey(pdbIndex, k);
  }

  /** `/:pdb` serves the entry of an upper-case code under the code itself. */
  lemma PdbByIdOfCode(pdbIndex: BaseIndex, code: string)
    requires IsUpperCode(code) && ToLower(code) in pdbIndex
    ensures PdbById(pdbIndex, code) == Ok(pdbIndex[ToLower(code)])
  {
    UpperCodeLowers(code);
  }

  /** `/:pdb` serves the entry under a lower-case alphanumeric key when asked for that key. */
  lemma PdbByIdOfKey(pdbIndex: BaseIndex, k: string)
    requires IsLowerAlnumWord(k) && k in pdbIndex
    ensures PdbById(pdbIndex, k) == Ok(pdbIndex[k])
  {
    LowerAlnumWordFixed(k);
  }

  /** What `/:pdb` serves from a built index is the aggregate whose code matches the id without case. */
  lemma PdbByIdOnBuiltIndex(files: seq<string>, pdb: string, agg: PdbEntry)
    requires PdbById(PdbIndexOf(files), pdb) == Ok(agg)
    ensures ToLower(agg.pdb) == ToLower(Trim(pdb)) && IsUpperCode(agg.pdb)
  {
    AggregateBaseIsKey(files, ToLower(Trim(pdb)));
  }
}
