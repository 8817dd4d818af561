/**
 * The similarity lookup service (backend/src/routesSimilarity.js): id
 * normalisation, the alias index built from the similarity rows, the
 * load-once store, and the single and batch lookups with their validation
 * order.
 */

module Similarity {
  import opened Strings
  import opened Outcomes

  // ---------------------------------------------------------------------
  // Id normalisation
  // ---------------------------------------------------------------------

  /** `s` without one trailing ".pdb". */
  function StripExtension(s: string): string {
    if EndsWith(s, ".pdb") then s[..|s| - 4] else s
  }

  /** The text before the first "_" (`t.split("_")[0]`). */
  function BeforeUnderscore(t: string): string {
    match IndexOf(t, '_')
    case None => t
    case Some(i) => t[..i]
  }

  /** `baseId`: trimmed, lower-cased, one trailing ".pdb" removed, then cut at the first "_". */
  function BaseId(x: string): string {
    BeforeUnderscore(StripExtension(ToLower(Trim(x))))
  }

  /** A base id is a prefix of the trimmed, lower-cased input, with no "_" and no upper-case letter. */
  lemma BaseIdShape(x: string)
    ensures '_' !in BaseId(x) && NoUpper(BaseId(x))
    ensures StartsWith(ToLower(Trim(x)), BaseId(x))
  {
    var l := ToLower(Trim(x));
    ToLowerNoUpper(Trim(x));
    var t := StripExtension(l);
    assert t == l[..|t|];
    var r := BaseId(x);
    assert r == t[..|r|];
  }

  /** A lower-cased alphanumeric word holds neither "." nor "_", and an alphanumeric word is its own trim. */
  lemma LowerOfCode(w: string)
    requires IsAlnumWord(w)
    ensures IsLowerAlnumWord(ToLower(w)) && '.' !in ToLower(w) && '_' !in ToLower(w)
    ensures Trim(w) == w
  {
    var l := ToLower(w);
    assert forall i :: 0 <= i < |l| ==> l[i] != '.' && l[i] != '_';
    assert !IsSpace(w[0]) && !IsSpace(w[|w| - 1]);
    TrimOfTrimmed(w);
  }

  lemma StripExtensionOf(s: string)
    ensures StripExtension(s + ".pdb") == s
  {
    assert (s + ".pdb")[|s|..] == ".pdb";
    assert (s + ".pdb")[..|s|] == s;
  }

  lemma StripExtensionNoDot(s: string)
    requires '.' !in s
    ensures StripExtension(s) == s
  {
    if |s| >= 4 {
      assert s[|s| - 4..][0] == s[|s| - 4];
    }
  }

  lemma BeforeUnderscoreNone(s: string)
    requires '_' !in s
    ensures BeforeUnderscore(s) == s
  {
  }

  lemma BeforeUnderscoreAt(a: string, b: string)
    requires '_' !in a
    ensures BeforeUnderscore(a + "_" + b) == a
  {
    IndexOfAfterPrefix(a, '_', b);
    assert (a + "_" + b)[..|a|] == a;
  }

  lemma LowerExtension(s: string)
    ensures ToLower(s + ".pdb") == ToLower(s) + ".pdb"
  {
    ToLowerAppend(s, ".pdb");
    ToLowerOfNoUpper(".pdb");
  }

  /** A structure code, with or without ".pdb", normalises to the lower-cased code. */
  lemma BaseIdOfCode(w: string)
    requires IsAlnumWord(w)
    ensures BaseId(w) == ToLower(w)
    ensures BaseId(w + ".pdb") == ToLower(w)
  {
    BaseIdOfBareCode(w);
    var f := w + ".pdb";
    assert IsAlnum(f[0]) && IsAlnum(f[|f| - 1]);
    TrimOfAlnumEnds(f);
    var l := ToLower(w);
    LowerOfCode(w);
    BeforeUnderscoreNone(l);
    LowerExtension(w);
    StripExtensionOf(l);
  }

  lemma BaseIdOfBareCode(w: string)
    requires IsAlnumWord(w)
    ensures BaseId(w) == ToLower(w)
  {
    LowerOfCode(w);
    StripExtensionNoDot(ToLower(w));
    BeforeUnderscoreNone(ToLower(w));
  }

  lemma ChainNameTrims(p: string, c: string)
    requires IsAlnumWord(p) && IsAlnumWord(c)
    ensures Trim(p + "_" + c) == p + "_" + c
    ensures Trim(p + "_" + c + ".pdb") == p + "_" + c + ".pdb"
  {
    var n := p + "_" + c;
    var f := n + ".pdb";
    assert IsAlnum(n[0]) && IsAlnum(n[|n| - 1]);
    assert IsAlnum(f[0]) && IsAlnum(f[|f| - 1]);
    TrimOfAlnumEnds(n);
    TrimOfAlnumEnds(f);
  }

  lemma NoDotAroundUnderscore(a: string, b: string)
    requires '.' !in a && '.' !in b
    ensures '.' !in a + "_" + b
  {
  }

  lemma ChainNameLowers(p: string, c: string)
    ensures ToLower(p + "_" + c) == ToLower(p) + "_" + ToLower(c)
  {
    ToLowerAround(p, '_', c);
  }

  lemma LowerChainName(p: string, c: string)
    requires IsAlnumWord(p) && IsAlnumWord(c)
    ensures '.' !in ToLower(p) + "_" + ToLower(c)
    ensures '_' !in ToLower(p)
  {
    LowerOfCode(p);
    LowerOfCode(c);
    NoDotAroundUnderscore(ToLower(p), ToLower(c));
  }

  /** A chain name `PDB_CHAIN` normalises to the lower-cased structure code. */
  lemma BaseIdOfChainName(p: string, c: string)
    requires IsAlnumWord(p) && IsAlnumWord(c)
    ensures BaseId(p + "_" + c) == ToLower(p)
  {
    ChainNameTrims(p, c);
    LowerChainName(p, c);
    ChainNameLowers(p, c);
    StripExtensionNoDot(ToLower(p) + "_" + ToLower(c));
    BeforeUnderscoreAt(ToLower(p), ToLower(c));
  }

  /** A chain file name `PDB_CHAIN.pdb` normalises to the lower-cased structure code. */
  lemma BaseIdOfChainFile(p: string, c: string)
    requires IsAlnumWord(p) && IsAlnumWord(c)
    ensures BaseId(p + "_" + c + ".pdb") == ToLower(p)
  {
    ChainNameTrims(p, c);
    LowerChainName(p, c);
    ChainNameLowers(p, c);
    LowerExtension(p + "_" + c);
    StripExtensionOf(ToLower(p) + "_" + ToLower(c));
    BeforeUnderscoreAt(ToLower(p), ToLower(c));
  }

  // ---------------------------------------------------------------------
  // splitIds
  // ---------------------------------------------------------------------

  /** The separators of an id list. */
  const IdSeparators: set<char> := {';', ','}

  /** `.map(baseId)`. */
  function BaseIds(pieces: seq<string>): (r: seq<string>)
    ensures |r| == |pieces|
  {
    if pieces == [] then [] else BaseIds(pieces[..|pieces| - 1]) + [BaseId(pieces[|pieces| - 1])]
  }

  lemma {:induction false} BaseIdsAt(pieces: seq<string>, i: nat)
    requires i < |pieces|
    ensures BaseIds(pieces)[i] == BaseId(pieces[i])
  {
    if i < |pieces| - 1 {
      BaseIdsAt(pieces[..|pieces| - 1], i);
    }
  }

  /** `splitIds`: the list split on ";" or ",", each piece normalised, empties dropped. */
  function SplitIds(s: string): seq<string> {
    NonEmpty(BaseIds(SplitOn(s, IdSeparators)))
  }

  /** Every non-empty base id of `pieces` is a lower-case id without "_" obtained from one of them. */
  lemma NonEmptyBaseIdsSound(pieces: seq<string>, x: string)
    requires x in NonEmpty(BaseIds(pieces))
    ensures x != "" && '_' !in x && NoUpper(x)
    ensures exists p :: p in pieces && BaseId(p) == x
  {
    NonEmptyMembers(BaseIds(pieces));
    var i :| 0 <= i < |pieces| && BaseIds(pieces)[i] == x;
    BaseIdsAt(pieces, i);
    BaseIdShape(pieces[i]);
    assert pieces[i] in pieces;
  }

  /** Every id `splitIds` returns is a non-empty lower-case base id without "_". */
  lemma SplitIdsSound(s: string, x: string)
    requires x in SplitIds(s)
    ensures x != "" && '_' !in x && NoUpper(x)
  {
    NonEmptyBaseIdsSound(SplitOn(s, IdSeparators), x);
  }

  lemma BaseIdOfLowerWord(w: string)
    requires IsLowerAlnumWord(w)
    ensures BaseId(w) == w
  {
    assert IsAlnumWord(w);
    BaseIdOfBareCode(w);
    assert NoUpper(w);
    ToLowerOfNoUpper(w);
  }

  /** Joining lower-case alphanumeric ids with ";" or "," and splitting them again gives them back. */
  lemma SplitIdsJoin(ws: seq<string>, sep: char)
    requires |ws| >= 1 && sep in IdSeparators
    requires forall w :: w in ws ==> IsLowerAlnumWord(w)
    ensures SplitIds(Join(ws, sep)) == ws
  {
    forall i, j | 0 <= i < |ws| && 0 <= j < |ws[i]| ensures ws[i][j] !in IdSeparators {
      assert ws[i] in ws;
    }
    SplitOnJoin(ws, sep, IdSeparators);
    forall i | 0 <= i < |ws| ensures BaseIds(ws)[i] == ws[i] {
      assert ws[i] in ws;
      BaseIdsAt(ws, i);
      BaseIdOfLowerWord(ws[i]);
    }
    assert BaseIds(ws) == ws;
    NonEmptyOfNonEmpty(ws);
  }

  // ---------------------------------------------------------------------
  // Unique neighbours
  // ---------------------------------------------------------------------

  /** `[...new Set(xs)]`: each element at its first occurrence, in order. */
  function Dedup(xs: seq<string>): seq<string> {
    if xs == [] then []
    else
      var init := xs[..|xs| - 1];
      var x := xs[|xs| - 1];
      if x in init then Dedup(init) else Dedup(init) + [x]
  }

  /** Deduplication keeps exactly the elements there were, each once. */
  lemma {:induction false} DedupSpec(xs: seq<string>)
    ensures forall x :: x in Dedup(xs) <==> x in xs
    ensures NoDuplicates(Dedup(xs))
  {
    if xs != [] {
      var init := xs[..|xs| - 1];
      var x := xs[|xs| - 1];
      assert xs == init + [x];
      DedupSpec(init);
      if x !in init {
        var d := Dedup(init);
        assert multiset(d + [x]) == multiset(d) + multiset{x};
        assert multiset(d)[x] == 0;
      }
    }
  }

  /** A list that already has no repeats is left as it is. */
  lemma {:induction false} DedupOfDistinct(xs: seq<string>)
    requires NoDuplicates(xs)
    ensures Dedup(xs) == xs
  {
    if xs != [] {
      var init := xs[..|xs| - 1];
      var x := xs[|xs| - 1];
      assert xs == init + [x];
      assert multiset(xs) == multiset(init) + multiset{x};
      assert NoDuplicates(init) by {
        forall y ensures multiset(init)[y] <= 1 {
          assert multiset(init)[y] <= multiset(xs)[y];
        }
      }
      assert x !in init by {
        assert multiset(xs)[x] == multiset(init)[x] + 1;
      }
      DedupOfDistinct(init);
    }
  }

  /** The position of the first occurrence of `x` in `xs`, or `|xs|` when there is none. */
  function FirstIndex(xs: seq<string>, x: string): (r: nat)
    ensures r <= |xs| && (r < |xs| <==> x in xs)
    ensures r < |xs| ==> xs[r] == x
    ensures x !in xs[..r]
  {
    if xs == [] then 0
    else if xs[0] == x then 0
    else
      var r := 1 + FirstIndex(xs[1..], x);
      assert xs == [xs[0]] + xs[1..];
      assert xs[..r] == [xs[0]] + xs[1..][..r - 1];
      r
  }

  /** The first occurrence is the one position holding `x` with no `x` before it. */
  lemma FirstIndexUnique(xs: seq<string>, x: string, r: nat)
    requires r < |xs| && xs[r] == x && x !in xs[..r]
    ensures FirstIndex(xs, x) == r
  {
  }

  /** Appending leaves the first occurrence of an element already present where it was. */
  lemma FirstIndexOfPrefix(init: seq<string>, z: string, y: string)
    requires y in init
    ensures FirstIndex(init + [z], y) == FirstIndex(init, y)
  {
    var r := FirstIndex(init, y);
    assert (init + [z])[..r] == init[..r];
    FirstIndexUnique(init + [z], y, r);
  }

  /** An element new to `init` first occurs at the position it is appended. */
  lemma FirstIndexOfNew(init: seq<string>, x: string)
    requires x !in init
    ensures FirstIndex(init + [x], x) == |init|
  {
    assert (init + [x])[..|init|] == init;
    FirstIndexUnique(init + [x], x, |init|);
  }

  /** `ys` lists its elements in the order of their first occurrence in `xs`. */
  ghost predicate InFirstOccurrenceOrder(ys: seq<string>, xs: seq<string>) {
    forall i, j :: 0 <= i < j < |ys| ==> FirstIndex(xs, ys[i]) < FirstIndex(xs, ys[j])
  }

  /**
   * Deduplication keeps the order of first occurrences. With `DedupSpec`
   * this determines the result.
   */
  lemma {:induction false} DedupOrder(xs: seq<string>)
    ensures InFirstOccurrenceOrder(Dedup(xs), xs)
  {
    if xs != [] {
      var init := xs[..|xs| - 1];
      var x := xs[|xs| - 1];
      assert xs == init + [x];
      DedupOrder(init);
      DedupSpec(init);
      var d := Dedup(init);
      forall k | 0 <= k < |d| ensures FirstIndex(xs, d[k]) == FirstIndex(init, d[k]) < |init| {
        FirstIndexOfPrefix(init, x, d[k]);
      }
      if x !in init {
        FirstIndexOfNew(init, x);
        assert Dedup(xs) == d + [x];
      }
    }
  }

  function Without(xs: seq<string>, id: string): seq<string> {
    if xs == [] then [] else (if xs[0] != id then [xs[0]] else []) + Without(xs[1..], id)
  }

  lemma {:induction false} WithoutSpec(xs: seq<string>, id: string)
    ensures forall x :: x in Without(xs, id) <==> x in xs && x != id
    ensures NoDuplicates(xs) ==> NoDuplicates(Without(xs, id))
  {
    if xs != [] {
      WithoutSpec(xs[1..], id);
      assert xs == [xs[0]] + xs[1..];
      assert multiset(xs) == multiset{xs[0]} + multiset(xs[1..]);
      var w := Without(xs[1..], id);
      if NoDuplicates(xs) {
        assert NoDuplicates(xs[1..]) by {
          forall y ensures multiset(xs[1..])[y] <= 1 {
            assert multiset(xs[1..])[y] <= multiset(xs)[y];
          }
        }
        if xs[0] != id {
          assert multiset([xs[0]] + w) == multiset{xs[0]} + multiset(w);
          assert xs[0] !in xs[1..] by {
            assert multiset(xs)[xs[0]] == 1 + multiset(xs[1..])[xs[0]];
          }
          assert multiset(w)[xs[0]] == 0;
        }
      }
    }
  }

  /** The filter works element by element, so it keeps the order of what remains. */
  lemma {:induction false} WithoutAppend(a: seq<string>, b: seq<string>, id: string)
    ensures Without(a + b, id) == Without(a, id) + Without(b, id)
  {
    if a == [] {
      assert a + b == b;
    } else {
      assert (a + b)[0] == a[0];
      assert (a + b)[1..] == a[1..] + b;
      WithoutAppend(a[1..], b, id);
    }
  }

  /** A list in first-occurrence order stays so without its head. */
  lemma InOrderTail(ys: seq<string>, xs: seq<string>)
    requires ys != [] && InFirstOccurrenceOrder(ys, xs)
    ensures InFirstOccurrenceOrder(ys[1..], xs)
  {
    forall i, j | 0 <= i < j < |ys[1..]| ensures FirstIndex(xs, ys[1..][i]) < FirstIndex(xs, ys[1..][j]) {
      assert ys[1..][i] == ys[i + 1] && ys[1..][j] == ys[j + 1];
    }
  }

  /** A head that first occurs before every element of an ordered list extends it in order. */
  lemma InOrderCons(h: string, rest: seq<string>, xs: seq<string>)
    requires InFirstOccurrenceOrder(rest, xs)
    requires forall y :: y in rest ==> FirstIndex(xs, h) < FirstIndex(xs, y)
    ensures InFirstOccurrenceOrder([h] + rest, xs)
  {
    var w := [h] + rest;
    forall i, j | 0 <= i < j < |w| ensures FirstIndex(xs, w[i]) < FirstIndex(xs, w[j]) {
      assert w[j] == rest[j - 1];
      if i > 0 { assert w[i] == rest[i - 1]; }
    }
  }

  /** In an ordered list the head first occurs before every later element. */
  lemma InOrderHeadFirst(ys: seq<string>, xs: seq<string>, y: string)
    requires ys != [] && InFirstOccurrenceOrder(ys, xs) && y in ys[1..]
    ensures FirstIndex(xs, ys[0]) < FirstIndex(xs, y)
  {
    var m :| 0 <= m < |ys[1..]| && ys[1..][m] == y;
    assert ys[m + 1] == y;
  }

  /** Filtering a list in first-occurrence order keeps it in that order. */
  lemma {:induction false} WithoutKeepsOrder(ys: seq<string>, id: string, xs: seq<string>)
    requires InFirstOccurrenceOrder(ys, xs)
    ensures InFirstOccurrenceOrder(Without(ys, id), xs)
  {
    if ys != [] {
      var rest := Without(ys[1..], id);
      InOrderTail(ys, xs);
      WithoutKeepsOrder(ys[1..], id, xs);
      if ys[0] != id {
        WithoutSpec(ys[1..], id);
        forall y | y in rest ensures FirstIndex(xs, ys[0]) < FirstIndex(xs, y) {
          InOrderHeadFirst(ys, xs, y);
        }
        InOrderCons(ys[0], rest, xs);
      }
    }
  }

  /** The neighbours a lookup reports: the listed ids, once each, without the queried id. */
  function Neighbours(raw: string, id: string): seq<string> {
    Without(Dedup(SplitIds(raw)), id)
  }

  /**
   * The neighbours are exactly the ids the list names other than the
   * queried one, each once, each a non-empty lower-case base id, in the
   * order in which the list first names them.
   */
  lemma NeighboursSpec(raw: string, id: string)
    ensures forall x :: x in Neighbours(raw, id) <==> x in SplitIds(raw) && x != id
    ensures NoDuplicates(Neighbours(raw, id)) && id !in Neighbours(raw, id)
    ensures forall x :: x in Neighbours(raw, id) ==> x != "" && '_' !in x && NoUpper(x)
    ensures InFirstOccurrenceOrder(Neighbours(raw, id), SplitIds(raw))
  {
    DedupSpec(SplitIds(raw));
    DedupOrder(SplitIds(raw));
    WithoutKeepsOrder(Dedup(SplitIds(raw)), id, SplitIds(raw));
    WithoutSpec(Dedup(SplitIds(raw)), id);
    forall x | x in Neighbours(raw, id) ensures x != "" && '_' !in x && NoUpper(x) {
      SplitIdsSound(raw, x);
    }
  }

  /**
   * For a field listing distinct lower-case alphanumeric ids, the
   * neighbours are that list without the queried id, in the list's order:
   * "1wt8,1ahl,1zzz" queried as "1ahl" gives ["1wt8", "1zzz"].
   */
  lemma NeighboursOfJoin(ws: seq<string>, sep: char, id: string)
    requires |ws| >= 1 && sep in IdSeparators && NoDuplicates(ws)
    requires forall w :: w in ws ==> IsLowerAlnumWord(w)
    ensures Neighbours(Join(ws, sep), id) == Without(ws, id)
  {
    SplitIdsJoin(ws, sep);
    DedupOfDistinct(ws);
  }

  // ---------------------------------------------------------------------
  // The alias index
  // ---------------------------------------------------------------------

  /** One similarity row: its `PDB` field ("" when absent) and its other fields. */
  datatype SimRow = SimRow(pdb: string, fields: map<string, string>)

  type SimIndex = map<string, SimRow>

  /** `.map((s) => s.trim())`. */
  function TrimAll(pieces: seq<string>): (r: seq<string>)
    ensures |r| == |pieces|
  {
    seq(|pieces|, i requires 0 <= i < |pieces| => Trim(pieces[i]))
  }

  /** The names a `PDB` field lists: split on ";" only, trimmed, empties dropped. */
  function PdbNames(field: string): seq<string> {
    NonEmpty(TrimAll(SplitOn(field, {';'})))
  }

  /** The index keys a row contributes, in order. */
  function RowAliases(row: SimRow): seq<string> {
    if row.pdb == "" then [] else NonEmpty(BaseIds(PdbNames(row.pdb)))
  }

  /** `m` with every key of `keys` set to `row`, one key after the other. */
  function PutAliases(m: SimIndex, keys: seq<string>, row: SimRow): SimIndex {
    if keys == [] then m else PutAliases(m, keys[..|keys| - 1], row)[keys[|keys| - 1] := row]
  }

  lemma {:induction false} PutAliasesContent(m: SimIndex, keys: seq<string>, row: SimRow, k: string)
    ensures k in PutAliases(m, keys, row) <==> k in m || k in keys
    ensures k in keys ==> PutAliases(m, keys, row)[k] == row
    ensures k !in keys && k in m ==> PutAliases(m, keys, row)[k] == m[k]
  {
    if keys != [] {
      var init := keys[..|keys| - 1];
      assert keys == init + [keys[|keys| - 1]];
      PutAliasesContent(m, init, row, k);
    }
  }

  /** The index after the rows `rows`, in order, each row under the keys `aliases` gives it. */
  function IndexFold(rows: seq<SimRow>, aliases: SimRow -> seq<string>): SimIndex {
    if rows == [] then map[]
    else PutAliases(IndexFold(rows[..|rows| - 1], aliases), aliases(rows[|rows| - 1]), rows[|rows| - 1])
  }

  /** The index `loadOnce` builds from the rows. */
  function IndexOfRows(rows: seq<SimRow>): SimIndex {
    IndexFold(rows, RowAliases)
  }

  lemma {:induction false} IndexFoldContent(rows: seq<SimRow>, aliases: SimRow -> seq<string>, k: string)
    ensures k in IndexFold(rows, aliases) <==> exists i :: 0 <= i < |rows| && k in aliases(rows[i])
    ensures k in IndexFold(rows, aliases) ==>
      exists i :: 0 <= i < |rows| && k in aliases(rows[i]) && IndexFold(rows, aliases)[k] == rows[i]
        && forall j :: i < j < |rows| ==> k !in aliases(rows[j])
  {
    if rows != [] {
      var n := |rows| - 1;
      var init := rows[..n];
      IndexFoldContent(init, aliases, k);
      PutAliasesContent(IndexFold(init, aliases), aliases(rows[n]), rows[n], k);
      assert forall i :: 0 <= i < n ==> rows[i] == init[i];
      if k !in aliases(rows[n]) && k in IndexFold(init, aliases) {
        var i :| 0 <= i < n && k in aliases(init[i]) && IndexFold(init, aliases)[k] == init[i]
          && forall j :: i < j < n ==> k !in aliases(init[j]);
        assert IndexFold(rows, aliases)[k] == rows[i];
      }
    }
  }

  /**
   * An id is indexed exactly when some row lists it, and it then maps to
   * the last row that lists it.
   */
  lemma IndexContent(rows: seq<SimRow>, k: string)
    ensures k in IndexOfRows(rows) <==> exists i :: 0 <= i < |rows| && k in RowAliases(rows[i])
    ensures k in IndexOfRows(rows) ==>
      exists i :: 0 <= i < |rows| && k in RowAliases(rows[i]) && IndexOfRows(rows)[k] == rows[i]
        && forall j :: i < j < |rows| ==> k !in RowAliases(rows[j])
  {
    IndexFoldContent(rows, RowAliases, k);
  }

  /** Every index key is a non-empty lower-case base id without "_". */
  lemma IndexKeysNormalised(rows: seq<SimRow>, k: string)
    requires k in IndexOfRows(rows)
    ensures k != "" && '_' !in k && NoUpper(k)
  {
    IndexFoldContent(rows, RowAliases, k);
    var i :| 0 <= i < |rows| && k in RowAliases(rows[i]);
    AliasNormalised(rows[i], k);
  }

  lemma AliasNormalised(row: SimRow, k: string)
    requires k in RowAliases(row)
    ensures k != "" && '_' !in k && NoUpper(k)
  {
    NonEmptyBaseIdsSound(PdbNames(row.pdb), k);
  }

  lemma PutAliasesSnoc(m: SimIndex, keys: seq<string>, k: string, row: SimRow)
    ensures PutAliases(m, keys + [k], row) == PutAliases(m, keys, row)[k := row]
  {
    assert (keys + [k])[..|keys|] == keys;
  }

  lemma AliasesSnoc(pdbs: seq<string>, j: nat)
    requires j < |pdbs|
    ensures NonEmpty(BaseIds(pdbs[..j + 1])) == NonEmpty(BaseIds(pdbs[..j])) + NonEmpty([BaseId(pdbs[j])])
  {
    assert pdbs[..j + 1][..j] == pdbs[..j];
    NonEmptyAppend(BaseIds(pdbs[..j]), [BaseId(pdbs[j])]);
  }

  lemma AddRowStep(m0: SimIndex, pdbs: seq<string>, j: nat, row: SimRow)
    requires j < |pdbs|
    ensures var m := PutAliases(m0, NonEmpty(BaseIds(pdbs[..j])), row);
      var key := BaseId(pdbs[j]);
      PutAliases(m0, NonEmpty(BaseIds(pdbs[..j + 1])), row) == if key != "" then m[key := row] else m
  {
    AliasesSnoc(pdbs, j);
    PutOneMore(m0, NonEmpty(BaseIds(pdbs[..j])), BaseId(pdbs[j]), row);
  }

  lemma PutOneMore(m0: SimIndex, before: seq<string>, key: string, row: SimRow)
    ensures var m := PutAliases(m0, before, row);
      PutAliases(m0, before + NonEmpty([key]), row) == if key != "" then m[key := row] else m
  {
    assert [key][1..] == [];
    if key != "" {
      PutAliasesSnoc(m0, before, key, row);
    } else {
      assert before + [] == before;
    }
  }

  /** The inner loop of `loadOnce`: one row under each non-empty base id of its names. */
  method AddRow(m0: SimIndex, pdbs: seq<string>, row: SimRow) returns (m: SimIndex)
    ensures m == PutAliases(m0, NonEmpty(BaseIds(pdbs)), row)
  {
    m := m0;
    for j := 0 to |pdbs|
      invariant m == PutAliases(m0, NonEmpty(BaseIds(pdbs[..j])), row)
    {
      var key := BaseId(pdbs[j]);
      AddRowStep(m0, pdbs, j, row);
      if key != "" {
        m := m[key := row];
      }
    }
    assert pdbs[..|pdbs|] == pdbs;
  }

  /** The rows loop of `loadOnce`. */
  method BuildSimilarityIndex(rows: seq<SimRow>) returns (m: SimIndex)
    ensures m == IndexOfRows(rows)
  {
    m := map[];
    for r := 0 to |rows|
      invariant m == IndexOfRows(rows[..r])
    {
      var row := rows[r];
      assert rows[..r + 1][..r] == rows[..r];
      if row.pdb == "" {
        assert RowAliases(row) == [];
        continue;
      }
      m := AddRow(m, PdbNames(row.pdb), row);
    }
    assert rows[..|rows|] == rows;
  }

  // ---------------------------------------------------------------------
  // The load-once store
  // ---------------------------------------------------------------------

  /** What reading the similarity file gives: the parsed rows, or the reason it failed. */
  datatype Source = Parsed(rows: seq<SimRow>) | Unreadable(reason: string)

  /** The module state of the similarity routes. */
  datatype StoreState = StoreState(loaded: bool, loadError: Option<string>, index: SimIndex)

  /** A loaded store has no error; a store that is not loaded has an empty index. */
  predicate Consistent(s: StoreState) {
    (s.loaded ==> s.loadError.None?) && (!s.loaded ==> s.index == map[])
  }

  /** The effect of one `loadOnce` call that finds the file in the state `source`. */
  function LoadStep(s: StoreState, source: Source): StoreState {
    if s.loaded then s
    else match source
      case Parsed(rows) => StoreState(true, None, IndexOfRows(rows))
      case Unreadable(reason) => StoreState(false, Some(reason), map[])
  }

  /** Loading keeps the state consistent, and succeeds exactly when the file is readable or it already had. */
  lemma LoadStepConsistent(s: StoreState, source: Source)
    requires Consistent(s)
    ensures Consistent(LoadStep(s, source))
    ensures LoadStep(s, source).loaded <==> s.loaded || source.Parsed?
    ensures LoadStep(s, source).loadError.Some? <==> !s.loaded && source.Unreadable?
  {
  }

  /** Once loaded, later calls change nothing, whatever the file holds by then. */
  lemma LoadStepOnce(s: StoreState, first: Source, later: Source)
    requires LoadStep(s, first).loaded
    ensures LoadStep(LoadStep(s, first), later) == LoadStep(s, first)
  {
  }

  /** A failed load is retried: the next call with a readable file loads it. */
  lemma LoadStepRetries(s: StoreState, failed: Source, rows: seq<SimRow>)
    requires !s.loaded && failed.Unreadable?
    ensures !LoadStep(s, failed).loaded
    ensures LoadStep(LoadStep(s, failed), Parsed(rows)) == StoreState(true, None, IndexOfRows(rows))
  {
  }

  // ---------------------------------------------------------------------
  // Lookups
  // ---------------------------------------------------------------------

  /** `s` matches `^\d+$`. */
  predicate IsDigits(s: string) { |s| > 0 && forall i :: 0 <= i < |s| ==> IsDigit(s[i]) }

  /** `t` matches `^\d+(\.\d+)?$`, tested at its first ".". */
  predicate IsThreshold(t: string) {
    match IndexOf(t, '.')
    case None => IsDigits(t)
    case Some(i) => IsDigits(t[..i]) && IsDigits(t[i + 1..])
  }

  /** The threshold test is the regular expression: digits, optionally a "." and more digits. */
  lemma ThresholdIff(t: string)
    ensures IsThreshold(t) <==> IsDigits(t) || exists a, b :: IsDigits(a) && IsDigits(b) && t == a + "." + b
  {
    if IsDigits(t) {
      assert forall i :: 0 <= i < |t| ==> t[i] != '.';
    }
    if IsThreshold(t) && IndexOf(t, '.').Some? {
      var i := IndexOf(t, '.').value;
      assert t == t[..i] + "." + t[i + 1..];
    }
    if exists a, b :: IsDigits(a) && IsDigits(b) && t == a + "." + b {
      var a, b :| IsDigits(a) && IsDigits(b) && t == a + "." + b;
      assert forall i :: 0 <= i < |a| ==> a[i] != '.';
      IndexOfAfterPrefix(a, '.', b);
      assert t[..|a|] == a && t[|a| + 1..] == b;
    }
  }

  /** The row field a threshold names: the threshold exactly as typed, after "similarity_". */
  function ThresholdKey(t: string): string { "similarity_" + t }

  /** A successful lookup: the id, the threshold text, the field, and the neighbours with their count. */
  datatype Lookup = Lookup(pdbId: string, threshold: string, key: string, count: nat, results: seq<string>)

  /** One item of a batch answer. */
  datatype Item = Hit(lookup: Lookup) | Miss(pdbId: string, error: string)

  /** A batch answer. */
  datatype Batch = Batch(threshold: string, key: string, count: nat, items: seq<Item>)

  /** The lookup of a normalised id under a validated threshold, shared by both routes. */
  function RowLookup(index: SimIndex, id: string, t: string): Outcome<Lookup> {
    var key := ThresholdKey(t);
    if id !in index then Fail(404, "No similarity record for " + id)
    else if key !in index[id].fields then Fail(404, "No field " + key + " for " + id)
    else
      var u := Neighbours(index[id].fields[key], id);
      Ok(Lookup(id, t, key, |u|, u))
  }

  /** A found lookup reports the row's neighbours for that field: each once, without the id, in list order, counted. */
  lemma RowLookupSpec(index: SimIndex, id: string, t: string)
    ensures RowLookup(index, id, t).Ok? <==> id in index && ThresholdKey(t) in index[id].fields
    ensures RowLookup(index, id, t).Fail? ==> RowLookup(index, id, t).status == 404
    ensures RowLookup(index, id, t).Ok? ==>
      var l := RowLookup(index, id, t).value;
      && l.pdbId == id && l.threshold == t && l.key == ThresholdKey(t) && l.count == |l.results|
      && NoDuplicates(l.results) && id !in l.results
      && (forall x :: x in l.results <==> x in SplitIds(index[id].fields[l.key]) && x != id)
      && InFirstOccurrenceOrder(l.results, SplitIds(index[id].fields[l.key]))
  {
    if id in index && ThresholdKey(t) in index[id].fields {
      NeighboursSpec(index[id].fields[ThresholdKey(t)], id);
    }
  }

  /** GET /:pdbId/:threshold once the data is loaded. */
  function SingleLookup(index: SimIndex, pdbId: string, threshold: string): Outcome<Lookup> {
    var id := BaseId(pdbId);
    var t := Trim(threshold);
    if id == "" then Fail(400, "Invalid pdbId")
    else if !IsThreshold(t) then Fail(400, "Invalid threshold")
    else RowLookup(index, id, t)
  }

  /**
   * The checks run in order: an id that normalises to nothing is refused
   * whatever the threshold; then a malformed threshold; only then is the
   * index consulted, and a miss there is a 404.
   */
  lemma SingleLookupOrder(index: SimIndex, pdbId: string, threshold: string)
    ensures var r := SingleLookup(index, pdbId, threshold);
      && (r == Fail(400, "Invalid pdbId") <==> BaseId(pdbId) == "")
      && (r == Fail(400, "Invalid threshold") <==> BaseId(pdbId) != "" && !IsThreshold(Trim(threshold)))
      && (r.Fail? && r.status == 404 <==>
            BaseId(pdbId) != "" && IsThreshold(Trim(threshold)) && RowLookup(index, BaseId(pdbId), Trim(threshold)).Fail?)
  {
    RowLookupSpec(index, BaseId(pdbId), Trim(threshold));
  }

  function ItemFor(index: SimIndex, id: string, t: string): Item {
    match RowLookup(index, id, t)
    case Ok(l) => Hit(l)
    case Fail(_, message) => Miss(id, message)
  }

  function ItemsFor(index: SimIndex, ids: seq<string>, t: string): (r: seq<Item>)
    ensures |r| == |ids|
  {
    if ids == [] then [] else [ItemFor(index, ids[0], t)] + ItemsFor(index, ids[1..], t)
  }

  lemma {:induction false} ItemsForAt(index: SimIndex, ids: seq<string>, t: string, i: nat)
    requires i < |ids|
    ensures ItemsFor(index, ids, t)[i] == ItemFor(index, ids[i], t)
  {
    if i > 0 {
      ItemsForAt(index, ids[1..], t, i - 1);
    }
  }

  /** GET /batch/:threshold?ids=… once the data is loaded (`idsParam` is "" when absent). */
  function BatchLookup(index: SimIndex, threshold: string, idsParam: string): Outcome<Batch> {
    var t := Trim(threshold);
    if !IsThreshold(t) then Fail(400, "Invalid threshold")
    else
      var p := Trim(idsParam);
      if p == "" then Fail(400, "Missing query param: ids")
      else
        var ids := SplitIds(p);
        if ids == [] then Fail(400, "No valid ids provided")
        else
          var items := ItemsFor(index, ids, t);
          Ok(Batch(t, ThresholdKey(t), |items|, items))
  }

  /** An empty id list names no id. */
  lemma SplitIdsEmpty()
    ensures SplitIds("") == []
  {
    assert |Trim("")| == 0;
    BaseIdShape("");
    assert BaseId("") == "";
    assert BaseIds([""]) == [""];
    assert NonEmpty([""]) == [];
  }

  /**
   * The checks of a batch request come in the handler's order: the
   * threshold, then the presence of the list, then at least one valid id;
   * a batch is answered exactly when the threshold is valid and the list
   * names an id.
   */
  lemma BatchLookupOrder(index: SimIndex, threshold: string, idsParam: string)
    ensures var r := BatchLookup(index, threshold, idsParam);
      var t := Trim(threshold);
      var p := Trim(idsParam);
      && (r == Fail(400, "Invalid threshold") <==> !IsThreshold(t))
      && (r == Fail(400, "Missing query param: ids") <==> IsThreshold(t) && p == "")
      && (r == Fail(400, "No valid ids provided") <==> IsThreshold(t) && p != "" && SplitIds(p) == [])
      && (r.Ok? <==> IsThreshold(t) && SplitIds(p) != [])
  {
    SplitIdsEmpty();
  }

  /**
   * A batch has one item per parsed id, in order and with repeats, and
   * its count is the number of items; each item is a hit exactly when the
   * id has a row with the field, and a miss carries the error text the
   * single lookup would give.
   */
  lemma BatchLookupSpec(index: SimIndex, threshold: string, idsParam: string)
    requires BatchLookup(index, threshold, idsParam).Ok?
    ensures var b := BatchLookup(index, threshold, idsParam).value;
      var ids := SplitIds(Trim(idsParam));
      var t := Trim(threshold);
      && IsThreshold(t) && ids != [] && b.key == ThresholdKey(t) && b.count == |b.items| == |ids|
      && forall i :: 0 <= i < |ids| ==>
           (b.items[i].Hit? <==> ids[i] in index && ThresholdKey(t) in index[ids[i]].fields)
           && (b.items[i].Hit? ==> b.items[i].lookup == RowLookup(index, ids[i], t).value && b.items[i].lookup.pdbId == ids[i])
           && (b.items[i].Miss? ==> b.items[i].pdbId == ids[i] && Fail(404, b.items[i].error) == RowLookup(index, ids[i], t))
  {
    var ids := SplitIds(Trim(idsParam));
    var t := Trim(threshold);
    forall i | 0 <= i < |ids|
      ensures var b := BatchLookup(index, threshold, idsParam).value;
           (b.items[i].Hit? <==> ids[i] in index && ThresholdKey(t) in index[ids[i]].fields)
           && (b.items[i].Hit? ==> b.items[i].lookup == RowLookup(index, ids[i], t).value && b.items[i].lookup.pdbId == ids[i])
           && (b.items[i].Miss? ==> b.items[i].pdbId == ids[i] && Fail(404, b.items[i].error) == RowLookup(index, ids[i], t))
    {
      ItemsForAt(index, ids, t, i);
      RowLookupSpec(index, ids[i], t);
    }
  }

  lemma {:induction false} JoinEnds(ws: seq<string>, sep: char)
    requires |ws| >= 1 && forall i :: 0 <= i < |ws| ==> ws[i] != ""
    ensures var j := Join(ws, sep); |j| > 0 && j[0] == ws[0][0] && j[|j| - 1] == ws[|ws| - 1][|ws[|ws| - 1]| - 1]
  {
    if |ws| > 1 {
      JoinEnds(ws[1..], sep);
      assert ws[1..][|ws[1..]| - 1] == ws[|ws| - 1];
    }
  }

  /**
   * A batch over a ","-joined list of lower-case ids answers, item by
   * item, what the single lookup answers for each id.
   */
  lemma BatchAgreesWithSingle(index: SimIndex, threshold: string, ws: seq<string>, i: nat)
    requires |ws| >= 1 && forall w :: w in ws ==> IsLowerAlnumWord(w)
    requires IsThreshold(Trim(threshold)) && i < |ws|
    ensures BatchLookup(index, threshold, Join(ws, ',')).Ok?
    ensures var b := BatchLookup(index, threshold, Join(ws, ',')).value;
      |b.items| == |ws|
      && (SingleLookup(index, ws[i], threshold).Ok? ==> b.items[i] == Hit(SingleLookup(index, ws[i], threshold).value))
      && (SingleLookup(index, ws[i], threshold).Fail? ==>
            b.items[i] == Miss(ws[i], SingleLookup(index, ws[i], threshold).message))
  {
    var j := Join(ws, ',');
    forall k | 0 <= k < |ws| ensures ws[k] != "" {
      assert ws[k] in ws;
    }
    JoinEnds(ws, ',');
    assert ws[0] in ws && ws[|ws| - 1] in ws;
    assert IsAlnum(j[0]) && IsAlnum(j[|j| - 1]);
    TrimOfAlnumEnds(j);
    SplitIdsJoin(ws, ',');
    ItemsForAt(index, ws, Trim(threshold), i);
    assert ws[i] in ws;
    BaseIdOfLowerWord(ws[i]);
  }

  // ---------------------------------------------------------------------
  // Dispatch of two-segment paths
  // ---------------------------------------------------------------------

  /** The handler a request path `/first/second` reaches. */
  datatype Route = ToSingle(pdbId: string, threshold: string) | ToBatch(threshold: string) | Unrouted

  /**
   * The dispatch as registered: the router tries its routes in order, and
   * `/:pdbId/:threshold`, which takes any two non-empty segments, comes
   * before `/batch/:threshold`.
   */
  function RouteAsWritten(first: string, second: string): Route {
    if first != "" && second != "" then ToSingle(first, second)
    else if first == "batch" && second != "" then ToBatch(second)
    else Unrouted
  }

  /** The dispatch with the literal `batch` route tried first. */
  function RouteOf(first: string, second: string): (r: Route)
    ensures r.ToBatch? <==> first == "batch" && second != ""
    ensures r.ToSingle? <==> first != "batch" && first != "" && second != ""
    ensures r.ToBatch? ==> r.threshold == second
    ensures r.ToSingle? ==> r.pdbId == first && r.threshold == second
  {
    if first == "batch" && second != "" then ToBatch(second)
    else if first != "" && second != "" then ToSingle(first, second)
    else Unrouted
  }

  /** As registered, no path reaches the batch handler: `/batch/75` is a single lookup of "batch". */
  lemma BatchUnreachableAsWritten(first: string, second: string)
    ensures !RouteAsWritten(first, second).ToBatch?
    ensures RouteAsWritten("batch", "75") == ToSingle("batch", "75")
  {
  }

  /** The two dispatches differ only on paths whose first segment is "batch". */
  lemma RouteOfAgreesOffBatch(first: string, second: string)
    requires first != "batch"
    ensures RouteOf(first, second) == RouteAsWritten(first, second)
  {
  }

  /**
   * As registered, a batch request over an index without a row for "batch"
   * answers 404 "No similarity record for batch" whatever ids it names.
   */
  lemma BatchRequestAsWritten(index: SimIndex, threshold: string)
    requires IsThreshold(Trim(threshold)) && "batch" !in index
    ensures var route := RouteAsWritten("batch", threshold);
      route.ToSingle? && SingleLookup(index, route.pdbId, route.threshold) == Fail(404, "No similarity record for " + "batch")
  {
    assert |Trim(threshold)| > 0;
    BaseIdOfBatch();
    SingleLookupMiss(index, "batch", threshold);
  }

  /** A normalised id without a row is a 404 under any valid threshold. */
  lemma SingleLookupMiss(index: SimIndex, id: string, threshold: string)
    requires BaseId(id) == id && id != "" && IsThreshold(Trim(threshold)) && id !in index
    ensures SingleLookup(index, id, threshold) == Fail(404, "No similarity record for " + id)
  {
  }

  lemma BaseIdOfBatch()
    ensures BaseId("batch") == "batch"
  {
    var w := "batch";
    assert forall i :: 0 <= i < |w| ==> IsLower(w[i]);
    BaseIdOfLowerWord(w);
  }

  /** What a request path gets: a single answer, a batch answer, or no route. */
  datatype Answer = SingleAnswer(single: Outcome<Lookup>) | BatchAnswer(batch: Outcome<Batch>) | NotFound

  // ---------------------------------------------------------------------
  // The routes over the module state
  // ---------------------------------------------------------------------

  /** The similarity routes' module state and handlers. */
  class SimilarityStore {
    var loaded: bool
    var loadError: Option<string>
    var index: SimIndex

    function State(): StoreState
      reads this
    {
      StoreState(loaded, loadError, index)
    }

    constructor()
      ensures State() == StoreState(false, None, map[])
    {
      loaded := false;
      loadError := None;
      index := map[];
    }

    /** `loadOnce`, reading the file in the state `source` when not yet loaded. */
    method LoadOnce(source: Source)
      modifies this
      ensures State() == LoadStep(old(State()), source)
    {
      if loaded { return; }
      match source
      case Unreadable(reason) =>
        loadError := Some(reason);
        loaded := false;
        index := map[];
      case Parsed(rows) =>
        var m := BuildSimilarityIndex(rows);
        index := m;
        loaded := true;
        loadError := None;
    }

    /** GET /:pdbId/:threshold. */
    method Single(source: Source, pdbId: string, threshold: string) returns (r: Outcome<Lookup>)
      modifies this
      ensures State() == LoadStep(old(State()), source)
      ensures loadError.Some? ==> r == Fail(500, "Similarity data failed to load")
      ensures loadError.None? ==> r == SingleLookup(index, pdbId, threshold)
    {
      LoadOnce(source);
      if loadError.Some? {
        return Fail(500, "Similarity data failed to load");
      }
      r := SingleLookup(index, pdbId, threshold);
    }

    /** GET /batch/:threshold. */
    method BatchRoute(source: Source, threshold: string, idsParam: string) returns (r: Outcome<Batch>)
      modifies this
      ensures State() == LoadStep(old(State()), source)
      ensures loadError.Some? ==> r == Fail(500, "Similarity data failed to load")
      ensures loadError.None? ==> r == BatchLookup(index, threshold, idsParam)
    {
      LoadOnce(source);
      if loadError.Some? {
        return Fail(500, "Similarity data failed to load");
      }
      r := BatchLookup(index, threshold, idsParam);
    }

    /** A request for `/first/second?ids=idsParam`, dispatched with the batch route first. */
    method Handle(source: Source, first: string, second: string, idsParam: string) returns (r: Answer)
      modifies this
      ensures RouteOf(first, second).Unrouted? ==> State() == old(State()) && r == NotFound
      ensures !RouteOf(first, second).Unrouted? ==> State() == LoadStep(old(State()), source)
      ensures RouteOf(first, second).ToSingle? ==>
        r == SingleAnswer(if loadError.Some? then Fail(500, "Similarity data failed to load")
                          else SingleLookup(index, first, second))
      ensures RouteOf(first, second).ToBatch? ==>
        r == BatchAnswer(if loadError.Some? then Fail(500, "Similarity data failed to load")
                         else BatchLookup(index, second, idsParam))
    {
      match RouteOf(first, second)
      case Unrouted =>
        r := NotFound;
      case ToSingle(pdbId, threshold) =>
        var answer := Single(source, pdbId, threshold);
        r := SingleAnswer(answer);
      case ToBatch(threshold) =>
        var answer := BatchRoute(source, threshold, idsParam);
        r := BatchAnswer(answer);
    }
  }
}
