/**
 * Model of backend/src/routesMeta.js: the metadata lookup of GET /api/meta/:id.
 *
 * The metadata file is a JSON array of rows; each row carries a `PDB` field that
 * lists chain file names separated by ';' (for example "1AG7_A.pdb;1AG7_B.pdb")
 * next to its other attributes. The route upper-cases the requested id, appends
 * ".PDB" and answers with the first row whose list names that file.
 */

module Meta {
  import opened Strings
  import opened Outcomes

  /** One row of the metadata file: its `PDB` field and the rest of its attributes. */
  datatype MetaRow = MetaRow(pdb: string, attributes: map<string, string>)

  /** The file name a request looks for: `${id.trim().toUpperCase()}.PDB`. */
  function MetaTarget(id: string): string {
    ToUpper(Trim(id)) + ".PDB"
  }

  /** `.map(s => s.trim().toUpperCase())` over the pieces of a `PDB` field. */
  function UpperNames(pieces: seq<string>): (r: seq<string>)
    ensures |r| == |pieces|
  {
    if pieces == [] then [] else [ToUpper(Trim(pieces[0]))] + UpperNames(pieces[1..])
  }

  /** The normalised file names a row's `PDB` field lists, empty pieces dropped. */
  function PdbList(field: string): seq<string> {
    NonEmpty(UpperNames(SplitOn(field, {';'})))
  }

  /** `list.includes(target)`. */
  predicate RowMatches(row: MetaRow, target: string) {
    target in PdbList(row.pdb)
  }

  /** `Array.prototype.find`: the first element that satisfies `p`. */
  function Find<T>(xs: seq<T>, p: T -> bool): (r: Option<T>)
    ensures r.Some? ==> r.value in xs && p(r.value)
  {
    if xs == [] then None
    else if p(xs[0]) then Some(xs[0])
    else Find(xs[1..], p)
  }

  /** `data.find(...)`: the first row whose list names the target. */
  function FindMeta(rows: seq<MetaRow>, target: string): Option<MetaRow> {
    Find(rows, row => RowMatches(row, target))
  }

  /** The answer of the route for a metadata table and a requested id. */
  function MetaResult(rows: seq<MetaRow>, id: string): (r: Outcome<MetaRow>)
    ensures r.Fail? ==> r.status == 404 && r.message == "Metadata not found"
  {
    match FindMeta(rows, MetaTarget(id))
    case None => Fail(404, "Metadata not found")
    case Some(row) => Ok(row)
  }

  // ---------------------------------------------------------------------
  // The target and the names of a row
  // ---------------------------------------------------------------------

  /** The target ends in ".PDB", has no lower-case letter, and keeps the trimmed id's length. */
  lemma MetaTargetShape(id: string)
    ensures var t := MetaTarget(id);
      EndsWith(t, ".PDB") && NoLower(t) && |t| == |Trim(id)| + 4
  {
    ToUpperNoLower(Trim(id));
    DotPdbShape(ToUpper(Trim(id)));
  }

  lemma DotPdbShape(u: string)
    requires NoLower(u)
    ensures var t := u + ".PDB"; EndsWith(t, ".PDB") && NoLower(t) && |t| == |u| + 4
  {
    assert NoLower(".PDB");
    NoLowerAppend(u, ".PDB");
    EndsWithAppend(u, ".PDB");
  }

  /** The lookup ignores the case of the requested id. */
  lemma MetaTargetIgnoresCase(id: string)
    ensures MetaTarget(ToLower(id)) == MetaTarget(id)
  {
    TrimLower(id);
    ToUpperOfToLower(Trim(id));
  }

  /** The lookup ignores white space around the requested id. */
  lemma MetaTargetIgnoresSpace(id: string)
    ensures MetaTarget(Trim(id)) == MetaTarget(id)
  {
    TrimTwice(id);
  }

  lemma {:induction false} UpperNamesAt(pieces: seq<string>, i: nat)
    requires i < |pieces|
    ensures UpperNames(pieces)[i] == ToUpper(Trim(pieces[i]))
  {
    if i > 0 {
      UpperNamesAt(pieces[1..], i - 1);
    }
  }

  lemma UpperNamesMembers(pieces: seq<string>, x: string)
    ensures x in UpperNames(pieces) <==> exists i :: 0 <= i < |pieces| && ToUpper(Trim(pieces[i])) == x
  {
    var names := UpperNames(pieces);
    if x in names {
      var i :| 0 <= i < |names| && names[i] == x;
      UpperNamesAt(pieces, i);
    }
    if exists i :: 0 <= i < |pieces| && ToUpper(Trim(pieces[i])) == x {
      var i :| 0 <= i < |pieces| && ToUpper(Trim(pieces[i])) == x;
      UpperNamesAt(pieces, i);
      assert names[i] == x;
    }
  }

  /** Some piece of the list normalises to `target`. */
  predicate SomePieceNames(pieces: seq<string>, target: string) {
    exists i :: 0 <= i < |pieces| && ToUpper(Trim(pieces[i])) == target
  }

  lemma ListedIff(pieces: seq<string>, target: string)
    ensures target in NonEmpty(UpperNames(pieces)) <==> target != "" && SomePieceNames(pieces, target)
  {
    NonEmptyMembers(UpperNames(pieces));
    UpperNamesMembers(pieces, target);
  }

  /** A row names the target iff one of its ';'-separated pieces normalises to it. */
  lemma RowMatchesIff(row: MetaRow, target: string)
    ensures RowMatches(row, target) <==> target != "" && SomePieceNames(SplitOn(row.pdb, {';'}), target)
  {
    ListedIff(SplitOn(row.pdb, {';'}), target);
  }

  /** A file name as the metadata file stores it: non-empty, upper-case, no ';', no outer white space. */
  predicate IsStoredName(n: string) {
    n != [] && NoLower(n) && ';' !in n && !IsSpace(n[0]) && !IsSpace(n[|n| - 1])
  }

  lemma {:induction false} UpperNamesOfStored(names: seq<string>)
    requires forall i :: 0 <= i < |names| ==> IsStoredName(names[i])
    ensures UpperNames(names) == names
  {
    if names != [] {
      TrimOfTrimmed(names[0]);
      ToUpperOfNoLower(names[0]);
      UpperNamesOfStored(names[1..]);
    }
  }

  lemma NoSeparatorInStored(names: seq<string>)
    requires forall i :: 0 <= i < |names| ==> IsStoredName(names[i])
    ensures forall i, j :: 0 <= i < |names| && 0 <= j < |names[i]| ==> names[i][j] !in {';'}
  {
    forall i, j | 0 <= i < |names| && 0 <= j < |names[i]|
      ensures names[i][j] !in {';'}
    {
      assert ';' !in names[i];
    }
  }

  /** A `PDB` field written as stored names joined by ';' lists exactly those names. */
  lemma PdbListOfJoin(names: seq<string>)
    requires |names| >= 1
    requires forall i :: 0 <= i < |names| ==> IsStoredName(names[i])
    ensures PdbList(Join(names, ';')) == names
  {
    SplitOfJoinedStored(names);
    ListOfStored(names);
  }

  lemma SplitOfJoinedStored(names: seq<string>)
    requires |names| >= 1
    requires forall i :: 0 <= i < |names| ==> IsStoredName(names[i])
    ensures SplitOn(Join(names, ';'), {';'}) == names
  {
    NoSeparatorInStored(names);
    SplitOnJoin(names, ';', {';'});
  }

  lemma ListOfStored(names: seq<string>)
    requires forall i :: 0 <= i < |names| ==> IsStoredName(names[i])
    ensures NonEmpty(UpperNames(names)) == names
  {
    UpperNamesOfStored(names);
    assert forall x :: x in names ==> x != "";
    NonEmptyOfNonEmpty(names);
  }

  /** For such a field, a row matches a target iff the target is one of the stored names. */
  lemma RowMatchesJoined(names: seq<string>, attributes: map<string, string>, target: string)
    requires |names| >= 1
    requires forall i :: 0 <= i < |names| ==> IsStoredName(names[i])
    ensures RowMatches(MetaRow(Join(names, ';'), attributes), target) <==> target in names
  {
    PdbListOfJoin(names);
  }

  // ---------------------------------------------------------------------
  // The first match
  // ---------------------------------------------------------------------

  /** `find` comes back empty iff no element satisfies the test. */
  lemma {:induction false} FindNone<T>(xs: seq<T>, p: T -> bool)
    ensures Find(xs, p).None? <==> forall i :: 0 <= i < |xs| ==> !p(xs[i])
  {
    if xs != [] {
      FindNone(xs[1..], p);
      if !p(xs[0]) {
        assert forall i :: 1 <= i < |xs| ==> xs[i] == xs[1..][i - 1];
      }
    }
  }

  /** `find` answers with the element at the first position that satisfies the test. */
  lemma {:induction false} FindFirst<T>(xs: seq<T>, p: T -> bool, i: nat)
    requires i < |xs| && p(xs[i])
    requires forall j :: 0 <= j < i ==> !p(xs[j])
    ensures Find(xs, p) == Some(xs[i])
  {
    if i > 0 {
      assert !p(xs[0]);
      FindFirst(xs[1..], p, i - 1);
    }
  }

  /** The route answers 404 iff no row names the target, and otherwise with the first row that does. */
  lemma MetaResultSpec(rows: seq<MetaRow>, id: string)
    ensures var t := MetaTarget(id);
      MetaResult(rows, id).Fail? <==> forall i :: 0 <= i < |rows| ==> !RowMatches(rows[i], t)
    ensures forall i :: (0 <= i < |rows| && RowMatches(rows[i], MetaTarget(id)) &&
      (forall j :: 0 <= j < i ==> !RowMatches(rows[j], MetaTarget(id)))) ==>
        MetaResult(rows, id) == Ok(rows[i])
  {
    var t := MetaTarget(id);
    FindNone(rows, row => RowMatches(row, t));
    forall i | 0 <= i < |rows| && RowMatches(rows[i], t) && (forall j :: 0 <= j < i ==> !RowMatches(rows[j], t))
      ensures MetaResult(rows, id) == Ok(rows[i])
    {
      FindFirst(rows, row => RowMatches(row, t), i);
    }
  }

  /** An upper-case code without outer white space, asked for in lower case, targets its own file name. */
  lemma StoredCodeTarget(code: string)
    requires code != [] && NoLower(code) && !IsSpace(code[0]) && !IsSpace(code[|code| - 1])
    ensures MetaTarget(ToLower(code)) == code + ".PDB"
  {
    MetaTargetIgnoresCase(code);
    TrimOfTrimmed(code);
    ToUpperOfNoLower(code);
  }

  /** Asking for a chain in any case, with white space around it, finds the row that stores its file name. */
  lemma LookupOfStoredChain(rows: seq<MetaRow>, i: nat, names: seq<string>, code: string)
    requires i < |rows| && |names| >= 1
    requires forall k :: 0 <= k < |names| ==> IsStoredName(names[k])
    requires rows[i].pdb == Join(names, ';') && code + ".PDB" in names
    requires code != [] && NoLower(code) && !IsSpace(code[0]) && !IsSpace(code[|code| - 1])
    requires forall j :: 0 <= j < i ==> !RowMatches(rows[j], code + ".PDB")
    ensures MetaResult(rows, ToLower(code)) == Ok(rows[i])
  {
    StoredCodeTarget(code);
    RowMatchesJoined(names, rows[i].attributes, code + ".PDB");
    assert rows[i] == MetaRow(Join(names, ';'), rows[i].attributes);
    MetaResultSpec(rows, ToLower(code));
  }

  // ---------------------------------------------------------------------
  // The module-level cache
  // ---------------------------------------------------------------------

  /**
   * The module's `CACHE`: empty until the first request, then the parsed metadata
   * file for the rest of the process. The file's parsed contents are a parameter.
   */
  class MetaCache {
    var cache: Option<seq<MetaRow>>

    constructor()
      ensures cache == None
    {
      cache := None;
    }

    /** `getMeta`: reads the file on first use only. */
    method GetMeta(file: seq<MetaRow>) returns (data: seq<MetaRow>)
      modifies this
      ensures old(cache).Some? ==> cache == old(cache) && data == old(cache).value
      ensures old(cache).None? ==> cache == Some(file) && data == file
    {
      if cache.None? {
        cache := Some(file);
      }
      data := cache.value;
    }

    /** GET /api/meta/:id against the cached table. */
    method MetaById(file: seq<MetaRow>, id: string) returns (r: Outcome<MetaRow>)
      modifies this
      ensures cache == (if old(cache).Some? then old(cache) else Some(file))
      ensures r == MetaResult(cache.value, id)
    {
      var data := GetMeta(file);
      r := MetaResult(data, id);
    }
  }
}
