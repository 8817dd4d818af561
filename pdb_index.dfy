/**
 * The identifier index built once at start-up from the listing of the
 * structure-file directory (backend/src/indexPdb.js, `buildPdbIndex`).
 *
 * Two dictionaries come out of the build:
 *  - the chain index, keyed by the lower-cased `BASE` or `BASE_CHAIN`,
 *    holding one entry per accepted file (a later file with the same key
 *    replaces an earlier one);
 *  - the base index, keyed by the lower-cased `BASE`, holding for each base
 *    the chains, chain ids and files seen under it, each sorted at the end.
 *
 * The build is the method `BuildPdbIndex`; it is proved equal to the
 * functions `ChainIndexOf` and `PdbIndexOf`, and the lemmas below state
 * what those contain.
 */
module PdbIndex {
  import opened Strings

  /** One accepted structure file: `chainIndex[key]`. `sequence` is never set by the build. */
  datatype ChainEntry = ChainEntry(id: string, pdb: string, chain: string, file: string, sequence: Option<string>)

  /** The aggregate of one base code: `pdbIndex[key]`. */
  datatype PdbEntry = PdbEntry(pdb: string, chains: seq<string>, chainIds: seq<string>, files: seq<string>)

  type ChainIndex = map<string, ChainEntry>
  type BaseIndex = map<string, PdbEntry>

  // ---------------------------------------------------------------------
  // Accepting one file name
  // ---------------------------------------------------------------------

  /** The stem `file.slice(0, -4)` of a name whose lower-cased form ends in ".pdb". */
  function StemOf(file: string): (r: Option<string>)
    ensures r.Some? <==> EndsWith(ToLower(file), ".pdb")
    ensures r.Some? ==> |file| >= 4 && r.value == file[..|file| - 4] && ToLower(file[|file| - 4..]) == ".pdb"
  {
    if EndsWith(ToLower(file), ".pdb") then
      assert ToLower(file[|file| - 4..]) == ToLower(file)[|file| - 4..];
      Some(file[..|file| - 4])
    else None
  }

  /** `BASE` or `BASE_CHAIN`: the display id of a file. */
  function ChainId(pdb: string, chain: string): string {
    if chain != "" then pdb + "_" + chain else pdb
  }

  /**
   * The match of `^([A-Za-z0-9]+)(?:_([A-Za-z0-9]+))?$` against a stem:
   * the two groups, the second one "" when absent.
   */
  function ParseStem(stem: string): (r: Option<(string, string)>)
    ensures r.Some? ==> IsAlnumWord(r.value.0) && (r.value.1 == "" || IsAlnumWord(r.value.1))
    ensures r.Some? ==> stem == ChainId(r.value.0, r.value.1)
  {
    match IndexOf(stem, '_')
    case None => if IsAlnumWord(stem) then Some((stem, "")) else None
    case Some(i) =>
      if IsAlnumWord(stem[..i]) && IsAlnumWord(stem[i + 1..]) then
        assert stem == stem[..i] + "_" + stem[i + 1..];
        Some((stem[..i], stem[i + 1..]))
      else None
  }

  /** A name made of a stem and ".pdb" has that stem. */
  lemma StemOfPdbName(stem: string)
    ensures StemOf(stem + ".pdb") == Some(stem)
  {
    var file := stem + ".pdb";
    ToLowerAppend(stem, ".pdb");
    ToLowerOfNoUpper(".pdb");
    assert ToLower(file) == ToLower(stem) + ".pdb";
    assert file[..|file| - 4] == stem;
  }

  /** Every stem of the accepted shape parses back into its two groups. */
  lemma ParseStemAccepts(base: string, chain: string)
    requires IsAlnumWord(base) && (chain == "" || IsAlnumWord(chain))
    ensures ParseStem(ChainId(base, chain)) == Some((base, chain))
  {
    var stem := ChainId(base, chain);
    assert '_' !in base;
    if chain == "" {
      assert stem == base;
    } else {
      assert stem[|base|] == '_' && stem[..|base|] == base && stem[|base| + 1..] == chain;
      assert IndexOf(stem, '_') == Some(|base|);
    }
  }

  /** The entry `buildPdbIndex` creates for one file name, if the name is accepted. */
  function Accept(file: string): Option<ChainEntry> {
    match StemOf(file)
    case None => None
    case Some(stem) =>
      match ParseStem(stem)
      case None => None
      case Some(groups) =>
        var pdb := ToUpper(groups.0);
        var chain := ToUpper(groups.1);
        Some(ChainEntry(ChainId(pdb, chain), pdb, chain, file, None))
  }

  /** Upper-case alphanumeric, non-empty. */
  ghost predicate IsUpperCode(s: string) { IsAlnumWord(s) && NoLower(s) }

  /** The shape of every entry the build creates. */
  ghost predicate WellFormed(e: ChainEntry) {
    && IsUpperCode(e.pdb)
    && (e.chain == "" || IsUpperCode(e.chain))
    && e.id == ChainId(e.pdb, e.chain)
    && e.sequence.None?
    && EndsWith(ToLower(e.file), ".pdb")
  }

  function ChainKey(e: ChainEntry): string { ToLower(e.id) }
  function BaseKey(e: ChainEntry): string { ToLower(e.pdb) }

  lemma UpperCodeOf(s: string)
    requires IsAlnumWord(s)
    ensures IsUpperCode(ToUpper(s))
  {
  }

  /**
   * Only names ending in ".pdb" in any case are accepted, the stem is the
   * name without its last four characters, and the id, base and chain are
   * the upper-cased groups of the stem.
   */
  lemma AcceptShape(file: string)
    ensures Accept(file).Some? ==> EndsWith(ToLower(file), ".pdb")
    ensures Accept(file).Some? ==>
      var e := Accept(file).value;
      WellFormed(e) && e.file == file && ToLower(e.id) == ToLower(file[..|file| - 4])
  {
    if Accept(file).Some? {
      var stem := StemOf(file).value;
      var groups := ParseStem(stem).value;
      UpperIdLowers(groups.0, groups.1);
    }
  }

  /** The upper-cased groups are upper-case codes, and their id lower-cases like the stem. */
  lemma UpperIdLowers(p: string, c: string)
    requires IsAlnumWord(p) && (c == "" || IsAlnumWord(c))
    ensures IsUpperCode(ToUpper(p)) && (c == "" ==> ToUpper(c) == "") && (c != "" ==> IsUpperCode(ToUpper(c)))
    ensures ToLower(ChainId(ToUpper(p), ToUpper(c))) == ToLower(ChainId(p, c))
  {
    UpperCodeOf(p);
    if c != "" {
      UpperCodeOf(c);
      ToUpperAppend(p, "_");
      ToUpperAppend(p + "_", c);
    }
    ToLowerOfToUpper(ChainId(p, c));
  }

  /** A stem that is not of the accepted shape is skipped. */
  lemma AcceptRejects(file: string)
    requires EndsWith(ToLower(file), ".pdb")
    requires ParseStem(file[..|file| - 4]).None?
    ensures Accept(file).None?
  {
  }

  /** The lower-cased id starts with the lower-cased base. */
  lemma ChainKeyExtendsBaseKey(e: ChainEntry)
    requires WellFormed(e)
    ensures StartsWith(ChainKey(e), BaseKey(e))
  {
    if e.chain != "" {
      ToLowerAppend(e.pdb, "_" + e.chain);
      assert e.id == e.pdb + ("_" + e.chain);
    }
  }

  // ---------------------------------------------------------------------
  // The accepted entries and what the two dictionaries hold
  // ---------------------------------------------------------------------

  /** The entries of the accepted files, in listing order. */
  function AcceptedEntries(files: seq<string>): seq<ChainEntry> {
    if files == [] then []
    else
      var last := files[|files| - 1];
      AcceptedEntries(files[..|files| - 1]) + (if Accept(last).Some? then [Accept(last).value] else [])
  }

  lemma {:induction false} AcceptedWellFormed(files: seq<string>)
    ensures forall e :: e in AcceptedEntries(files) ==> WellFormed(e)
  {
    if files != [] {
      AcceptedWellFormed(files[..|files| - 1]);
      AcceptShape(files[|files| - 1]);
    }
  }

  /** The entries whose base key is `k`, in order. */
  function OfBase(es: seq<ChainEntry>, k: string): (r: seq<ChainEntry>)
    ensures forall e :: e in r <==> e in es && BaseKey(e) == k
  {
    if es == [] then []
    else OfBase(es[..|es| - 1], k) + (if BaseKey(es[|es| - 1]) == k then [es[|es| - 1]] else [])
  }

  function IdsOf(es: seq<ChainEntry>): seq<string> { seq(|es|, i requires 0 <= i < |es| => es[i].id) }
  function FilesOf(es: seq<ChainEntry>): seq<string> { seq(|es|, i requires 0 <= i < |es| => es[i].file) }
  function ChainsOf(es: seq<ChainEntry>): seq<string> { seq(|es|, i requires 0 <= i < |es| => es[i].chain) }

  /** The last entry with chain key `k`: the one a key-by-key overwrite keeps. */
  function LastWithKey(es: seq<ChainEntry>, k: string): (r: Option<ChainEntry>)
    ensures r.None? <==> forall e :: e in es ==> ChainKey(e) != k
    ensures r.Some? ==> r.value in es && ChainKey(r.value) == k
  {
    if es == [] then None
    else if ChainKey(es[|es| - 1]) == k then Some(es[|es| - 1])
    else
      assert forall e :: e in es ==> e in es[..|es| - 1] || e == es[|es| - 1];
      LastWithKey(es[..|es| - 1], k)
  }

  /** The entry at the last position with key `k` is the one `LastWithKey` picks. */
  lemma {:induction false} LastWithKeyIsLast(es: seq<ChainEntry>, k: string, i: nat)
    requires i < |es| && ChainKey(es[i]) == k
    requires forall j :: i < j < |es| ==> ChainKey(es[j]) != k
    ensures LastWithKey(es, k) == Some(es[i])
  {
    var n := |es| - 1;
    if i < n {
      var init := es[..n];
      assert ChainKey(es[n]) != k;
      assert init[i] == es[i];
      LastWithKeyIsLast(init, k, i);
    }
  }

  // ---------------------------------------------------------------------
  // The build as functions of the listing
  // ---------------------------------------------------------------------

  /** `chainIndex` after the files of `files` were processed in order. */
  function ChainIndexOf(files: seq<string>): ChainIndex {
    if files == [] then map[]
    else
      var m := ChainIndexOf(files[..|files| - 1]);
      match Accept(files[|files| - 1])
      case None => m
      case Some(e) => m[ChainKey(e) := e]
  }

  /** The upsert of the base aggregate for one accepted entry. */
  function Upsert(m: BaseIndex, e: ChainEntry): BaseIndex {
    var k := BaseKey(e);
    var a := if k in m then m[k] else PdbEntry(e.pdb, [], [], []);
    m[k := Extend(a, e)]
  }

  /** One aggregate after one more entry: a new non-empty chain, the id and the file appended. */
  function Extend(a: PdbEntry, e: ChainEntry): PdbEntry {
    var chains := if e.chain != "" && e.chain !in a.chains then a.chains + [e.chain] else a.chains;
    PdbEntry(a.pdb, chains, a.chainIds + [e.id], a.files + [e.file])
  }

  /** `pdbIndex` before the final sort. */
  function RawAggregatesOf(files: seq<string>): BaseIndex {
    if files == [] then map[]
    else
      var m := RawAggregatesOf(files[..|files| - 1]);
      match Accept(files[|files| - 1])
      case None => m
      case Some(e) => Upsert(m, e)
  }

  /** An aggregate with its three lists sorted. */
  function SortAggregate(a: PdbEntry): PdbEntry {
    PdbEntry(a.pdb, Sort(a.chains), Sort(a.chainIds), Sort(a.files))
  }

  /** `pdbIndex` as `buildPdbIndex` returns it. */
  function PdbIndexOf(files: seq<string>): BaseIndex {
    var raw := RawAggregatesOf(files);
    map k | k in raw :: SortAggregate(raw[k])
  }

  /** One more file processed: the two folds take one step. */
  lemma BuildStep(files: seq<string>, i: nat)
    requires i < |files|
    ensures var e := Accept(files[i]);
      && ChainIndexOf(files[..i + 1]) == (if e.Some? then ChainIndexOf(files[..i])[ChainKey(e.value) := e.value] else ChainIndexOf(files[..i]))
      && RawAggregatesOf(files[..i + 1]) == (if e.Some? then Upsert(RawAggregatesOf(files[..i]), e.value) else RawAggregatesOf(files[..i]))
  {
    assert files[..i + 1][..i] == files[..i];
  }

  /**
   * `buildPdbIndex` over a directory listing: one pass over the names that
   * fills both dictionaries, then a pass over the aggregates that sorts
   * their lists.
   */
  method BuildPdbIndex(files: seq<string>) returns (chainIndex: ChainIndex, pdbIndex: BaseIndex)
    ensures chainIndex == ChainIndexOf(files)
    ensures pdbIndex == PdbIndexOf(files)
  {
    chainIndex := map[];
    pdbIndex := map[];
    for i := 0 to |files|
      invariant chainIndex == ChainIndexOf(files[..i])
      invariant pdbIndex == RawAggregatesOf(files[..i])
    {
      BuildStep(files, i);
      chainIndex, pdbIndex := AddFile(chainIndex, pdbIndex, files[i]);
    }
    assert files[..|files|] == files;
    pdbIndex := SortAggregates(pdbIndex);
    assert pdbIndex == PdbIndexOf(files);
  }

  /** The body of the first pass for one file name: skip it, or record it in both dictionaries. */
  method AddFile(chainIndex: ChainIndex, pdbIndex: BaseIndex, file: string)
    returns (chainIndex': ChainIndex, pdbIndex': BaseIndex)
    ensures Accept(file).None? ==> chainIndex' == chainIndex && pdbIndex' == pdbIndex
    ensures Accept(file).Some? ==>
      var e := Accept(file).value;
      chainIndex' == chainIndex[ChainKey(e) := e] && pdbIndex' == Upsert(pdbIndex, e)
  {
    chainIndex', pdbIndex' := chainIndex, pdbIndex;
    var stem := StemOf(file);
    if stem.None? { return; }
    var m := ParseStem(stem.value);
    if m.None? { return; }
    var pdb := ToUpper(m.value.0);
    var chain := ToUpper(m.value.1);
    var chainId := if chain != "" then pdb + "_" + chain else pdb;
    var chainKey := ToLower(chainId);
    var pdbKey := ToLower(pdb);
    var e := ChainEntry(chainId, pdb, chain, file, None);
    assert Accept(file) == Some(e);
    chainIndex' := chainIndex'[chainKey := e];
    if pdbKey !in pdbIndex' {
      pdbIndex' := pdbIndex'[pdbKey := PdbEntry(pdb, [], [], [])];
    }
    var agg := pdbIndex'[pdbKey];
    assert agg == if pdbKey in pdbIndex then pdbIndex[pdbKey] else PdbEntry(pdb, [], [], []);
    if chain != "" && chain !in agg.chains {
      agg := agg.(chains := agg.chains + [chain]);
    }
    agg := agg.(chainIds := agg.chainIds + [chainId], files := agg.files + [file]);
    if pdbKey !in pdbIndex {
      MapOverwrite(pdbIndex, pdbKey, PdbEntry(pdb, [], [], []), agg);
    }
    pdbIndex' := pdbIndex'[pdbKey := agg];
  }

  lemma MapOverwrite<K, V>(m: map<K, V>, k: K, v0: V, v: V)
    ensures m[k := v0][k := v] == m[k := v]
  {
  }

  /** The second pass: every aggregate's three lists sorted, the keys unchanged. */
  method SortAggregates(raw: BaseIndex) returns (sorted: BaseIndex)
    ensures sorted.Keys == raw.Keys
    ensures forall k :: k in raw ==> sorted[k] == SortAggregate(raw[k])
  {
    sorted := raw;
    var todo := raw.Keys;
    while todo != {}
      invariant todo <= raw.Keys && sorted.Keys == raw.Keys
      invariant forall k :: k in todo ==> sorted[k] == raw[k]
      invariant forall k :: k in raw && k !in todo ==> sorted[k] == SortAggregate(raw[k])
      decreases todo
    {
      var k :| k in todo;
      var agg := sorted[k];
      sorted := sorted[k := agg.(chains := Sort(agg.chains), chainIds := Sort(agg.chainIds), files := Sort(agg.files))];
      todo := todo - {k};
    }
  }

  // ---------------------------------------------------------------------
  // What the chain index holds
  // ---------------------------------------------------------------------

  /**
   * A key is in the chain index exactly when some accepted file has that
   * lower-cased id, and its entry is the one of the LAST such file.
   */
  lemma {:induction false} ChainIndexLastWins(files: seq<string>, k: string)
    ensures var last := LastWithKey(AcceptedEntries(files), k);
      (k in ChainIndexOf(files) <==> last.Some?) &&
      (k in ChainIndexOf(files) ==> ChainIndexOf(files)[k] == last.value)
  {
    if files != [] {
      var init := files[..|files| - 1];
      ChainIndexLastWins(init, k);
      var es := AcceptedEntries(files);
      if Accept(files[|files| - 1]).Some? {
        assert es[..|es| - 1] == AcceptedEntries(init);
      } else {
        assert es == AcceptedEntries(init);
      }
    }
  }

  /** Every chain entry is well formed and filed under its own lower-cased id. */
  lemma ChainIndexWellFormed(files: seq<string>, k: string)
    requires k in ChainIndexOf(files)
    ensures WellFormed(ChainIndexOf(files)[k]) && ChainKey(ChainIndexOf(files)[k]) == k
  {
    ChainIndexLastWins(files, k);
    AcceptedWellFormed(files);
  }

  // ---------------------------------------------------------------------
  // What the base index holds
  // ---------------------------------------------------------------------

  /** The content of one raw aggregate, in terms of the accepted entries of its base. */
  ghost predicate RawAggregateOf(m: BaseIndex, k: string, es: seq<ChainEntry>) {
    && (k in m <==> es != [])
    && (k in m ==> RawAggregate(m[k], es))
  }

  /** The content of one raw aggregate holding the entries `es` (non-empty). */
  ghost predicate RawAggregate(a: PdbEntry, es: seq<ChainEntry>) {
    && es != []
    && a.pdb == es[0].pdb
    && a.chainIds == IdsOf(es)
    && a.files == FilesOf(es)
    && NoDuplicates(a.chains)
    && (forall c :: c in a.chains <==> c != "" && c in ChainsOf(es))
  }

  /** One upsert extends the aggregate of the entry's base by that entry and leaves the others. */
  lemma UpsertContent(m: BaseIndex, e: ChainEntry, k: string, es: seq<ChainEntry>)
    requires RawAggregateOf(m, k, es)
    ensures RawAggregateOf(Upsert(m, e), k, if BaseKey(e) == k then es + [e] else es)
  {
    if BaseKey(e) == k {
      if es == [] {
        assert es + [e] == [e];
        ExtendEmpty(e);
      } else {
        ExtendContent(m[k], e, es);
      }
    }
  }

  lemma ExtendEmpty(e: ChainEntry)
    ensures RawAggregate(Extend(PdbEntry(e.pdb, [], [], []), e), [e])
  {
    assert IdsOf([e]) == [e.id];
    assert FilesOf([e]) == [e.file];
    assert ChainsOf([e]) == [e.chain];
  }

  lemma ExtendContent(a: PdbEntry, e: ChainEntry, es: seq<ChainEntry>)
    requires RawAggregate(a, es)
    ensures RawAggregate(Extend(a, e), es + [e])
  {
    EntryListsSnoc(es, e);
    ChainsUpsert(a.chains, ChainsOf(es), e.chain);
  }

  lemma EntryListsSnoc(es: seq<ChainEntry>, e: ChainEntry)
    requires es != []
    ensures IdsOf(es + [e]) == IdsOf(es) + [e.id]
    ensures FilesOf(es + [e]) == FilesOf(es) + [e.file]
    ensures ChainsOf(es + [e]) == ChainsOf(es) + [e.chain]
    ensures (es + [e])[0] == es[0]
  {
  }

  /** Adding a chain name the list lacks keeps it duplicate-free and listing the non-empty names seen. */
  lemma ChainsUpsert(chains: seq<string>, seen: seq<string>, c: string)
    requires NoDuplicates(chains) && forall x :: x in chains <==> x != "" && x in seen
    ensures var next := if c != "" && c !in chains then chains + [c] else chains;
      NoDuplicates(next) && forall x :: x in next <==> x != "" && x in seen + [c]
  {
    if c != "" && c !in chains {
      var next := chains + [c];
      assert multiset(next) == multiset(chains) + multiset{c};
    }
  }

  lemma {:induction false} RawAggregatesContent(files: seq<string>, k: string)
    ensures RawAggregateOf(RawAggregatesOf(files), k, OfBase(AcceptedEntries(files), k))
  {
    if files != [] {
      var init := files[..|files| - 1];
      RawAggregatesContent(init, k);
      var esInit := AcceptedEntries(init);
      var mInit := RawAggregatesOf(init);
      match Accept(files[|files| - 1])
      case None =>
        assert AcceptedEntries(files) == esInit;
        assert RawAggregatesOf(files) == mInit;
      case Some(e) =>
        var es := AcceptedEntries(files);
        assert es == esInit + [e];
        assert es[..|es| - 1] == esInit;
        assert OfBase(es, k) == if BaseKey(e) == k then OfBase(esInit, k) + [e] else OfBase(esInit, k);
        assert RawAggregatesOf(files) == Upsert(mInit, e);
        UpsertContent(mInit, e, k, OfBase(esInit, k));
    }
  }

  /** The content of one base aggregate after the build. */
  ghost predicate AggregateOf(a: PdbEntry, k: string, es: seq<ChainEntry>) {
    && es != []
    && a.pdb == es[0].pdb
    && a.chainIds == Sort(IdsOf(es))
    && a.files == Sort(FilesOf(es))
    && |a.chainIds| == |a.files| == |es|
    && Sorted(a.chains) && Sorted(a.chainIds) && Sorted(a.files)
    && NoDuplicates(a.chains) && "" !in a.chains
    && (forall c :: c in a.chains <==> c != "" && c in ChainsOf(es))
  }

  /**
   * A base key is in the base index exactly when some accepted file has
   * that base; its aggregate lists every such file and id (one each per
   * file, so the two lists have equal length), and every distinct non-empty
   * chain once; all three lists are sorted.
   */
  lemma PdbIndexContent(files: seq<string>, k: string)
    ensures var es := OfBase(AcceptedEntries(files), k);
      (k in PdbIndexOf(files) <==> es != []) &&
      (k in PdbIndexOf(files) ==> AggregateOf(PdbIndexOf(files)[k], k, es))
  {
    var es := OfBase(AcceptedEntries(files), k);
    RawAggregatesContent(files, k);
    if k in PdbIndexOf(files) {
      var raw := RawAggregatesOf(files)[k];
      SortKeepsMembers(raw.chains);
    }
  }

  /** Sorting keeps exactly the same members, and keeps a list free of duplicates. */
  lemma SortKeepsMembers(s: seq<string>)
    ensures forall c :: c in Sort(s) <==> c in s
    ensures NoDuplicates(s) ==> NoDuplicates(Sort(s))
  {
    assert forall c :: c in Sort(s) <==> c in multiset(Sort(s));
  }

  /** The base of every aggregate is, lower-cased, its key. */
  lemma AggregateBaseIsKey(files: seq<string>, k: string)
    requires k in PdbIndexOf(files)
    ensures ToLower(PdbIndexOf(files)[k].pdb) == k && IsUpperCode(PdbIndexOf(files)[k].pdb)
  {
    var es := OfBase(AcceptedEntries(files), k);
    PdbIndexContent(files, k);
    assert es[0] in es;
    AcceptedWellFormed(files);
  }

  /** Every id listed under a base starts, lower-cased, with that base's key. */
  lemma ChainIdsExtendBaseKey(files: seq<string>, k: string, c: string)
    requires k in PdbIndexOf(files) && c in PdbIndexOf(files)[k].chainIds
    ensures StartsWith(ToLower(c), k)
  {
    var e := ListedIdEntry(files, k, c);
    AcceptedWellFormed(files);
    ChainKeyExtendsBaseKey(e);
  }

  /** An id listed under a base is the id of an accepted entry of that base. */
  lemma ListedIdEntry(files: seq<string>, k: string, c: string) returns (e: ChainEntry)
    requires k in PdbIndexOf(files) && c in PdbIndexOf(files)[k].chainIds
    ensures e in AcceptedEntries(files) && BaseKey(e) == k && e.id == c
  {
    var es := OfBase(AcceptedEntries(files), k);
    PdbIndexContent(files, k);
    SortKeepsMembers(IdsOf(es));
    var i :| 0 <= i < |es| && IdsOf(es)[i] == c;
    e := es[i];
    assert e in es;
  }

  /** Every chain entry's base has an aggregate, and that aggregate lists the entry's id. */
  lemma ChainEntryHasAggregate(files: seq<string>, k: string)
    requires k in ChainIndexOf(files)
    ensures var e := ChainIndexOf(files)[k];
      BaseKey(e) in PdbIndexOf(files) && e.id in PdbIndexOf(files)[BaseKey(e)].chainIds
  {
    ChainIndexLastWins(files, k);
    var e := ChainIndexOf(files)[k];
    var es := OfBase(AcceptedEntries(files), BaseKey(e));
    assert e in es;
    PdbIndexContent(files, BaseKey(e));
    var i :| 0 <= i < |es| && es[i] == e;
    assert e.id == IdsOf(es)[i];
    SortKeepsMembers(IdsOf(es));
  }

  /** No aggregate exists without a chain entry of its base. */
  lemma AggregateHasChainEntry(files: seq<string>, pk: string)
    requires pk in PdbIndexOf(files)
    ensures exists k :: k in ChainIndexOf(files) && BaseKey(ChainIndexOf(files)[k]) == pk
  {
    PdbIndexContent(files, pk);
    var es := OfBase(AcceptedEntries(files), pk);
    var e := es[0];
    assert e in es;
    ChainIndexLastWins(files, ChainKey(e));
    AcceptedWellFormed(files);
    SameChainKeySameBaseKey(e, ChainIndexOf(files)[ChainKey(e)]);
  }

  /** Two well-formed entries with the same lower-cased id have the same lower-cased base. */
  lemma SameChainKeySameBaseKey(e1: ChainEntry, e2: ChainEntry)
    requires WellFormed(e1) && WellFormed(e2) && ChainKey(e1) == ChainKey(e2)
    ensures BaseKey(e1) == BaseKey(e2)
  {
    BaseKeyIsKeyBeforeUnderscore(e1);
    BaseKeyIsKeyBeforeUnderscore(e2);
  }

  /** The lower-cased base is the lower-cased id up to its first "_" (or all of it). */
  lemma BaseKeyIsKeyBeforeUnderscore(e: ChainEntry)
    requires WellFormed(e)
    ensures var k := ChainKey(e);
      BaseKey(e) == (match IndexOf(k, '_') case None => k case Some(i) => k[..i])
  {
    var k := ChainKey(e);
    var b := BaseKey(e);
    assert '_' !in b;
    if e.chain == "" {
      assert k == b;
    } else {
      ToLowerAppend(e.pdb, "_" + e.chain);
      assert e.id == e.pdb + ("_" + e.chain);
      assert k[|b|] == '_' && k[..|b|] == b;
      assert IndexOf(k, '_') == Some(|b|);
    }
  }

  // ---------------------------------------------------------------------
  // Names already in canonical form
  // ---------------------------------------------------------------------

  /** A name `BASE.pdb` or `BASE_CHAIN.pdb` in upper case is accepted with exactly those parts. */
  lemma AcceptUpperName(base: string, chain: string)
    requires IsUpperCode(base) && (chain == "" || IsUpperCode(chain))
    ensures var file := ChainId(base, chain) + ".pdb";
      Accept(file) == Some(ChainEntry(ChainId(base, chain), base, chain, file, None))
  {
    StemOfPdbName(ChainId(base, chain));
    ParseStemAccepts(base, chain);
    UpperOfUpperCode(base);
    if chain != "" { UpperOfUpperCode(chain); }
  }

  lemma UpperOfUpperCode(s: string)
    requires IsUpperCode(s)
    ensures ToUpper(s) == s
  {
    assert forall i :: 0 <= i < |s| ==> ToUpper(s)[i] == s[i];
  }

  // ---------------------------------------------------------------------
  // Finding: the aggregate guard consults inherited object members
  // ---------------------------------------------------------------------

  /**
   * The all-lower-case member names every plain JavaScript object inherits.
   * `pdbIndex[key]` for one of these is truthy even before any aggregate
   * was stored under it.
   */
  const InheritedLowerCaseNames: set<string> := {"constructor", "__proto__"}

  /**
   * The raw base index as indexPdb.js:32-43 computes it, with the guard
   * `!pdbIndex[pdbKey]` reading inherited members: for a base key that names
   * one and has no own aggregate yet, no aggregate is created and the next
   * access of `.chains` or `.chainIds` throws a TypeError, here `None`.
   */
  function RawAggregatesAsWritten(files: seq<string>): Option<BaseIndex> {
    if files == [] then Some(map[])
    else
      match RawAggregatesAsWritten(files[..|files| - 1])
      case None => None
      case Some(m) =>
        match Accept(files[|files| - 1])
        case None => Some(m)
        case Some(e) =>
          if BaseKey(e) !in m && BaseKey(e) in InheritedLowerCaseNames then None
          else Some(Upsert(m, e))
  }

  /** The listing ["constructor.pdb"] aborts the build as written; the own-key build indexes it. */
  lemma ConstructorFileAbortsBuild()
    ensures RawAggregatesAsWritten(["constructor.pdb"]).None?
    ensures "constructor" in PdbIndexOf(["constructor.pdb"])
  {
    ConstructorAccepted();
    InheritedBaseAbortsBuild("constructor.pdb");
  }

  /** "constructor.pdb" is accepted, with base key "constructor". */
  lemma ConstructorAccepted()
    ensures Accept("constructor.pdb").Some? && BaseKey(Accept("constructor.pdb").value) == "constructor"
  {
    var stem := "constructor";
    assert stem + ".pdb" == "constructor.pdb";
    assert IsLowerAlnumWord(stem);
    AcceptOfLowerWord(stem);
  }

  /** A lower-case alphanumeric word followed by ".pdb" is accepted, with the word as base key. */
  lemma AcceptOfLowerWord(w: string)
    requires IsLowerAlnumWord(w)
    ensures Accept(w + ".pdb").Some? && BaseKey(Accept(w + ".pdb").value) == w
  {
    StemOfPdbName(w);
    LowerAlnumNoUpper(w);
    assert IsAlnumWord(w);
    ParseStemAccepts(w, "");
    ToLowerOfToUpper(w);
    ToLowerOfNoUpper(w);
  }

  /** A single file whose base key names an inherited member aborts the build as written. */
  lemma InheritedBaseAbortsBuild(file: string)
    requires Accept(file).Some? && BaseKey(Accept(file).value) in InheritedLowerCaseNames
    ensures RawAggregatesAsWritten([file]).None?
    ensures BaseKey(Accept(file).value) in PdbIndexOf([file])
  {
    assert [file][..0] == [];
  }

  /** Off the inherited names, the build as written and the own-key build agree. */
  lemma {:induction false} AsWrittenAgreesOffInheritedNames(files: seq<string>)
    requires forall e :: e in AcceptedEntries(files) ==> BaseKey(e) !in InheritedLowerCaseNames
    ensures RawAggregatesAsWritten(files) == Some(RawAggregatesOf(files))
  {
    if files != [] {
      var init := files[..|files| - 1];
      assert forall e :: e in AcceptedEntries(init) ==> e in AcceptedEntries(files);
      AsWrittenAgreesOffInheritedNames(init);
      match Accept(files[|files| - 1])
      case None =>
      case Some(e) =>
        assert e in AcceptedEntries(files);
    }
  }
}
