# Cyclome database backend — a verified model of its core

This project models the core of the Cyclome database backend in Dafny. The backend is an
Express server that serves a directory of cyclic-peptide structure files (`.pdb`)
together with their similarity and metadata tables. The model covers four parts:

- **The identifier index** (`backend/src/indexPdb.js`). `buildPdbIndex` turns the
  directory listing into two dictionaries: a chain index keyed by the lower-cased
  `BASE` or `BASE_CHAIN`, and a base index keyed by the lower-cased `BASE`, which
  aggregates the chains, chain ids and files of each base. `makePrefixSearcher` sorts
  the chain keys once and answers prefix queries with a binary search (`lowerBound`)
  followed by a walk over the run of matching keys.
- **The structure routes** (`backend/src/routesPdb.js`):
  - `/search` prefers bases whose key starts with the query and falls back to chain keys;
  - `/sequence-search` is a substring scan over chain sequences;
  - `/seq-index` is the filter of chain rows that have a sequence;
  - `/sequences` takes up to 500 base ids and gives the sequence of each one's
    preferred chain;
  - the validators of `/file/:id`, `/:pdb/:chain` and `/:pdb`.
- **The similarity routes** (`backend/src/routesSimilarity.js`):
  - id normalisation (`baseId`, `splitIds`);
  - the load-once state with its alias index of rows (`loadOnce`);
  - the single lookup, with its neighbour list deduplicated and without the queried id;
  - the batch lookup, and the order in which the router dispatches the two.
- **The metadata route** (`backend/src/routesMeta.js`): the cached table, and the first
  row whose `PDB` list names `ID.PDB`.

Modules: `Strings` (trimming, ASCII case mapping, splitting, string order, sorting),
`Outcomes` (an answer or an HTTP error), `PdbIndex`, `PrefixSearch`, `PdbRoutes`,
`Similarity` and `Meta`.

The build loops, the prefix-search walk and the handlers' loops are methods with loop
invariants. Each is proved equal to a function of its inputs (a fold or a filter over
the listing or the keys). The lemmas then state what those functions contain. The two
pieces of mutable module state are classes whose methods update their fields:
`SimilarityStore` (`loaded`, `loadError`, `index`) and `MetaCache` (`CACHE`).

Things outside the program are parameters:

- the directory listing is a `seq<string>`;
- a file's presence on disk is the set `onDisk`;
- the contents of the similarity file are a `Source` (parsed rows, or the reason it
  could not be read);
- the metadata file is its parsed rows;
- the order in which `Object.entries`/`Object.values` visits a dictionary is a
  sequence `order` of its keys.

The code does the following, which a reader might not expect:

- a base's `chainIds` and `files` are not deduplicated: two files that differ only in
  case both appear;
- the tier-1 `/search` output is the concatenation of each matching base's sorted
  `chainIds` in key order. It is not globally sorted (bases `1a1` and `1a10`);
- the batch lookup has no cap on the number of ids;
- `/sequence-search` with `limit=0` returns one hit, because the row is pushed before
  the limit is checked.

## Model

| member | source | states |
|---|---|---|
| `PdbIndex.StemOf` | backend/src/indexPdb.js:16-18 | a name has a stem iff its lower-cased form ends in ".pdb"; the stem is the name without its last four characters |
| `PdbIndex.ParseStem` | backend/src/indexPdb.js:19-21 | a parsed stem has an alphanumeric first group and an empty or alphanumeric second group, and is exactly `BASE` or `BASE_CHAIN` built from them |
| `PdbIndex.StemOfPdbName` | backend/src/indexPdb.js:16-18 | appending ".pdb" to a stem and taking the stem back gives it again |
| `PdbIndex.ParseStemAccepts` | backend/src/indexPdb.js:19 | every `BASE` or `BASE_CHAIN` of alphanumeric words matches the pattern, with those two groups |
| `PdbIndex.AcceptShape` | backend/src/indexPdb.js:15-30 | an accepted file ends in ".pdb" in any case; its entry has upper-case base and chain, id `BASE[_CHAIN]`, no sequence, its own file name, and a lower-cased id equal to the lower-cased stem |
| `PdbIndex.AcceptRejects` | backend/src/indexPdb.js:19-21 | a ".pdb" name whose stem does not match the pattern is skipped |
| `PdbIndex.AcceptUpperName` | backend/src/indexPdb.js:16-30 | an upper-case `BASE.pdb` or `BASE_CHAIN.pdb` is accepted with exactly that base, chain and id |
| `PdbIndex.ChainKeyExtendsBaseKey` | backend/src/indexPdb.js:27-28 | the chain key of an entry starts with its base key |
| `PdbIndex.AcceptedWellFormed` | backend/src/indexPdb.js:15-30 | every entry the build creates is well formed |
| `PdbIndex.LastWithKey` | backend/src/indexPdb.js:30 | there is no entry with key `k` iff none of the entries has that key; otherwise it is one of them with that key |
| `PdbIndex.LastWithKeyIsLast` | backend/src/indexPdb.js:30 | the entry at the last position with key `k` is the one an overwrite keeps |
| `PdbIndex.BuildStep` | backend/src/indexPdb.js:15-44 | processing one more file overwrites its chain key and upserts its base aggregate, or changes nothing when it is skipped |
| `PdbIndex.BuildPdbIndex` | backend/src/indexPdb.js:9-54 | the build returns exactly the chain index and the sorted base index of the listing |
| `PdbIndex.AddFile` | backend/src/indexPdb.js:16-43 | the body of the first pass skips a rejected file, and otherwise sets its chain key and upserts its base aggregate |
| `PdbIndex.SortAggregates` | backend/src/indexPdb.js:46-51 | the second pass keeps the keys and sorts each aggregate's three lists |
| `PdbIndex.ChainIndexLastWins` | backend/src/indexPdb.js:27-30 | a key is in the chain index iff some accepted file has it, and then maps to the entry of the last such file |
| `PdbIndex.ChainIndexWellFormed` | backend/src/indexPdb.js:23-30 | every chain entry is well formed and filed under its own lower-cased id |
| `PdbIndex.UpsertContent` | backend/src/indexPdb.js:32-43 | an upsert appends the entry's id and file to its base's aggregate and adds a new non-empty chain once; other aggregates are unchanged |
| `PdbIndex.RawAggregatesContent` | backend/src/indexPdb.js:15-44 | before sorting, each aggregate holds the ids and files of its base's accepted files in listing order, and each distinct non-empty chain once |
| `PdbIndex.PdbIndexContent` | backend/src/indexPdb.js:15-51 | a base key is indexed iff some accepted file has that base; its aggregate lists one id and one file per such file, and each distinct non-empty chain once; all three lists are sorted |
| `PdbIndex.SortKeepsMembers` | backend/src/indexPdb.js:48-50 | sorting keeps the same members and keeps a duplicate-free list duplicate-free |
| `PdbIndex.AggregateBaseIsKey` | backend/src/indexPdb.js:28-34 | an aggregate's base is an upper-case code that lower-cases to its key |
| `PdbIndex.ChainIdsExtendBaseKey` | backend/src/indexPdb.js:25-42 | every id listed under a base starts, lower-cased, with that base's key |
| `PdbIndex.ChainEntryHasAggregate` | backend/src/indexPdb.js:30-42 | every chain entry's base has an aggregate that lists the entry's id |
| `PdbIndex.AggregateHasChainEntry` | backend/src/indexPdb.js:30-43 | every aggregate has some chain entry of its base |
| `PdbIndex.SameChainKeySameBaseKey` | backend/src/indexPdb.js:25-28 | two entries with the same chain key have the same base key |
| `PdbIndex.BaseKeyIsKeyBeforeUnderscore` | backend/src/indexPdb.js:25-28 | the base key is the chain key up to its first "_" |
| `PdbIndex.ConstructorFileAbortsBuild` | backend/src/indexPdb.js:32-43 | as written, the listing `["constructor.pdb"]` aborts the build, while the own-key build indexes base "constructor" |
| `PdbIndex.ConstructorAccepted` | backend/src/indexPdb.js:16-28 | "constructor.pdb" is accepted with base key "constructor" |
| `PdbIndex.InheritedBaseAbortsBuild` | backend/src/indexPdb.js:32-43 | as written, any single accepted file whose base key names an inherited member aborts the build |
| `PdbIndex.AsWrittenAgreesOffInheritedNames` | backend/src/indexPdb.js:32-43 | when no base key names an inherited member, the build as written equals the own-key build |
| `PrefixSearch.LowerBound` | backend/src/indexPdb.js:59-68 | on sorted keys, the result is the first position whose key is not below the target: everything before is below, nothing after is |
| `PrefixSearch.MatchingMembers` | backend/src/indexPdb.js:79-81 | the matches are exactly the keys that start with the query |
| `PrefixSearch.IdsAtPresent` | backend/src/indexPdb.js:82 | when every key has an entry, the output has one id per key, in order |
| `PrefixSearch.PrefixSearcher.constructor` | backend/src/indexPdb.js:56-57 | the searcher holds the index and its strictly sorted keys |
| `PrefixSearch.PrefixSearcher.Search` | backend/src/indexPdb.js:70-85 | `prefixSearch` answers the ids of the first `limit` keys, in ascending order, that start with the trimmed, lower-cased query; a blank query answers nothing |
| `PrefixSearch.PrefixSearcher.Walk` | backend/src/indexPdb.js:79-83 | the walk from the lower bound collects exactly the ids of the first `limit` matching keys |
| `PrefixSearch.SearchAnswer` | backend/src/indexPdb.js:76-83 | on sorted keys, the run from the lower bound that stops at the end, at a non-matching key or at `limit` keys is the first `limit` matches |
| `PrefixSearch.RunEnds` | backend/src/indexPdb.js:81 | on sorted keys past the lower bound, no key after the first non-matching one matches |
| `PrefixSearch.PrefixSearchBounded` | backend/src/indexPdb.js:79 | never more than `limit` ids |
| `PrefixSearch.PrefixSearchSound` | backend/src/indexPdb.js:70-85 | every id returned is the id of an indexed key that starts with the normalised query |
| `PrefixSearch.PrefixSearchComplete` | backend/src/indexPdb.js:76-83 | when fewer than `limit` ids come back, every indexed key that starts with the query has its id among them |
| `PrefixSearch.MatchingStrictlySorted` | backend/src/indexPdb.js:57 | filtering strictly ascending keys keeps them strictly ascending |
| `PrefixSearch.PrefixSearchOrderedOnBuiltIndex` | backend/src/indexPdb.js:70-85 | on a built index, the ids come back in strictly ascending lower-cased order, each starting with the query |
| `PdbRoutes.SearchLimit` | backend/src/routesPdb.js:38 | the limit is 20 by default, otherwise the requested one, and never more than 200 |
| `PdbRoutes.Search` | backend/src/routesPdb.js:34-65 | `/search` answers nothing for a blank query; otherwise the tier-1 ids if any base key matches, else the tier-2 ids, cut at the limit |
| `PdbRoutes.CollectBaseIds` | backend/src/routesPdb.js:44-52 | the tier-1 loop agrees with all matching bases' `chainIds` on the first `limit` ids, and is empty iff they are |
| `PdbRoutes.CollectChainIds` | backend/src/routesPdb.js:54-62 | the tier-2 loop agrees with the ids of all matching chain keys on the first `limit` ids |
| `PdbRoutes.SearchBounded` | backend/src/routesPdb.js:64 | at most the limit, so at most 200 ids |
| `PdbRoutes.SearchFallbackIsPrefixSearch` | backend/src/routesPdb.js:54-64 | when no base matches, `/search` answers exactly what the binary-search prefix searcher answers |
| `PdbRoutes.SearchPrefersBases` | backend/src/routesPdb.js:44-62 | on a built index, once some base key matches, the chain-key fallback is not used |
| `PdbRoutes.SearchResultsMatch` | backend/src/routesPdb.js:34-64 | on a built index, every id returned starts, lower-cased, with the normalised query |
| `PdbRoutes.SequenceLimit` | backend/src/routesPdb.js:76 | the limit is 5 by default, otherwise the requested one, and never more than 50 |
| `PdbRoutes.SequenceSearch` | backend/src/routesPdb.js:71-99 | `/sequence-search` answers nothing for a query shorter than five characters; otherwise the first hits in visiting order, as many as the limit and at least one |
| `PdbRoutes.StopScan` | backend/src/routesPdb.js:94 | stopping the scan early keeps a prefix of all hits |
| `PdbRoutes.SequenceHitsSound` | backend/src/routesPdb.js:84-93 | every hit comes from a visited entry whose non-empty sequence contains the query |
| `PdbRoutes.SequenceSearchSound` | backend/src/routesPdb.js:71-99 | every row has a non-empty sequence containing the upper-cased query, of at least five characters, from a visited entry; never more than 50 rows |
| `PdbRoutes.NoSequencesNoHits` | backend/src/routesPdb.js:85-86 | without sequences there are no hits |
| `PdbRoutes.SequenceSearchOnBuiltIndex` | backend/src/routesPdb.js:84-86 | the build never sets a sequence, so the scan over a freshly built index finds nothing |
| `PdbRoutes.ChainIdShapeIff` | backend/src/routesPdb.js:150 | the shape test holds iff the id is two lower-case alphanumeric words around one "_" |
| `PdbRoutes.SeqIndex` | backend/src/routesPdb.js:138-153 | the `/seq-index` loop lists the row of every visited entry that passes the filter, in visiting order |
| `PdbRoutes.SeqIndexSound` | backend/src/routesPdb.js:141-152 | every row has a chain-shaped lower-case id and a non-empty upper-case sequence, and is the row of a visited entry |
| `PdbRoutes.SeqIndexComplete` | backend/src/routesPdb.js:141-152 | every visited entry that passes the filter is listed |
| `PdbRoutes.NoSequencesNoRows` | backend/src/routesPdb.js:145-149 | without sequences nothing is listed |
| `PdbRoutes.SeqIndexOnBuiltIndex` | backend/src/routesPdb.js:141-153 | over a freshly built index `/seq-index` lists nothing |
| `PdbRoutes.KeptIdsSound` | backend/src/routesPdb.js:166-172 | every kept id is a lower-case alphanumeric word that cleans one of the inputs |
| `PdbRoutes.CleanIdOfWord` | backend/src/routesPdb.js:168-170 | a lower-case alphanumeric word is already clean |
| `PdbRoutes.KeptIdsOfWords` | backend/src/routesPdb.js:166-172 | a list of lower-case alphanumeric words is kept as it is |
| `PdbRoutes.CleanIdsIdempotent` | backend/src/routesPdb.js:165-173 | the cleaned ids are at most 500 lower-case alphanumeric words, and cleaning them again changes nothing |
| `PdbRoutes.FirstEndingASpec` | backend/src/routesPdb.js:185 | `find` gives nothing iff no chain ends in "_a", and otherwise the first one that does |
| `PdbRoutes.PreferredChainSpec` | backend/src/routesPdb.js:184-185 | the preferred chain is the first lower-cased chain id ending in "_a", or else the first chain id lower-cased |
| `PdbRoutes.Sequences` | backend/src/routesPdb.js:164-197 | `/sequences` answers the rows of the cleaned ids, in order |
| `PdbRoutes.CollectSequences` | backend/src/routesPdb.js:180-194 | the loop gives the row of each cleaned id that has one, in order |
| `PdbRoutes.SequenceRowsSound` | backend/src/routesPdb.js:180-193 | every row's id is one of the ids, and the row is that id's row |
| `PdbRoutes.SequenceRowsBounded` | backend/src/routesPdb.js:180-194 | at most one row per id |
| `PdbRoutes.SequencesSound` | backend/src/routesPdb.js:164-197 | at most 500 rows; each row's id is a cleaned id that names an indexed base with chains; its sequence is the non-empty, trimmed, upper-cased sequence of the preferred chain |
| `PdbRoutes.SequenceRowsComplete` | backend/src/routesPdb.js:180-193 | every id whose base has a sequence is answered |
| `PdbRoutes.NoSequencesNoSequenceRows` | backend/src/routesPdb.js:188-191 | without sequences `/sequences` answers nothing |
| `PdbRoutes.SequencesOnBuiltIndex` | backend/src/routesPdb.js:180-194 | over a freshly built index `/sequences` answers nothing |
| `PdbRoutes.ChainKeyParts` | backend/src/indexPdb.js:25-28 | a built entry's key is its lower-case base, then "_" and its lower-case chain when it has one |
| `PdbRoutes.BuiltIdShape` | backend/src/routesPdb.js:114-120 | a built id is its own trim, and its key passes the `/file/:id` pattern |
| `PdbRoutes.FileByIdOrder` | backend/src/routesPdb.js:113-128 | a key failing the pattern is a 400, then a key not indexed is a 404 "PDB chain not found", then a file not on disk is a 404 "File missing on server"; the entry under the key is served iff all three pass |
| `PdbRoutes.PdbChainOrder` | backend/src/routesPdb.js:202-222 | either part failing the pattern is a 400, then a key not indexed is a 404 "PDB chain not found", then a file not on disk is a 404 "File missing on server"; the entry under `pdb_chain` is served iff all three pass |
| `PdbRoutes.PdbByIdOrder` | backend/src/routesPdb.js:233-242 | an id failing the pattern is a 400, then an id not indexed is a 404 "PDB not found"; the aggregate under the key is served iff both pass |
| `PdbRoutes.FileByIdServesBuiltIndex` | backend/src/routesPdb.js:113-128 | every built entry whose file is on disk is served by `/file/:id`, under its key and under its upper-case id alike |
| `PdbRoutes.FileByIdOnBuiltIndex` | backend/src/routesPdb.js:113-128 | what `/file/:id` serves is the entry whose key is the trimmed, lower-cased id, with its file on disk |
| `PdbRoutes.PdbChainServesBuiltIndex` | backend/src/routesPdb.js:202-222 | every built chain entry whose file is on disk is served by `/:pdb/:chain` for its own base and chain |
| `PdbRoutes.PdbChainOnBuiltIndex` | backend/src/routesPdb.js:202-222 | what `/:pdb/:chain` serves has a chain, has its file on disk, and matches both parts without case |
| `PdbRoutes.PdbByIdServesBuiltIndex` | backend/src/routesPdb.js:231-248 | every built aggregate is served by `/:pdb`, under its key and under its upper-case code alike |
| `PdbRoutes.PdbByIdOnBuiltIndex` | backend/src/routesPdb.js:231-248 | what `/:pdb` serves is the aggregate whose upper-case code matches the id without case |
| `Similarity.BaseIdShape` | backend/src/routesSimilarity.js:21-27 | a base id has no "_" and no upper-case letter, and is a prefix of the trimmed, lower-cased input |
| `Similarity.BaseIdOfCode` | backend/src/routesSimilarity.js:21-27 | a structure code, with or without ".pdb", normalises to the lower-cased code |
| `Similarity.BaseIdOfChainName` | backend/src/routesSimilarity.js:21-27 | `PDB_CHAIN` normalises to the lower-cased structure code |
| `Similarity.BaseIdOfChainFile` | backend/src/routesSimilarity.js:21-27 | `PDB_CHAIN.pdb` normalises to the lower-cased structure code |
| `Similarity.BaseIdOfLowerWord` | backend/src/routesSimilarity.js:21-27 | a lower-case alphanumeric word is its own base id |
| `Similarity.BaseIdsAt` | backend/src/routesSimilarity.js:32 | the mapped list holds each piece's base id at its position |
| `Similarity.NonEmptyBaseIdsSound` | backend/src/routesSimilarity.js:29-34 | every id kept is non-empty, lower-case and without "_", and is the base id of one of the pieces |
| `Similarity.SplitIdsSound` | backend/src/routesSimilarity.js:29-34 | every id `splitIds` returns is non-empty, lower-case and without "_" |
| `Similarity.SplitIdsJoin` | backend/src/routesSimilarity.js:29-34 | joining lower-case alphanumeric ids with ";" or "," and splitting them again gives them back |
| `Similarity.DedupSpec` | backend/src/routesSimilarity.js:140 | deduplication keeps exactly the elements there were, each once (its order is `Similarity.DedupOrder`) |
| `Similarity.DedupOfDistinct` | backend/src/routesSimilarity.js:140 | a list without repeats is left as it is |
| `Similarity.DedupOrder` | backend/src/routesSimilarity.js:140 | `new Set` keeps the order in which the list first names each element |
| `Similarity.WithoutSpec` | backend/src/routesSimilarity.js:140 | the filter keeps exactly the elements other than the id and keeps them free of repeats |
| `Similarity.WithoutAppend` | backend/src/routesSimilarity.js:140 | the filter works element by element: filtering a concatenation concatenates the filtered parts |
| `Similarity.WithoutKeepsOrder` | backend/src/routesSimilarity.js:140 | filtering a list that is in first-occurrence order keeps it in that order |
| `Similarity.NeighboursSpec` | backend/src/routesSimilarity.js:137-140 | the neighbours are exactly the listed ids other than the queried one, each once, each a non-empty lower-case base id, in the order in which the list first names them |
| `Similarity.NeighboursOfJoin` | backend/src/routesSimilarity.js:137-140 | for a field listing distinct lower-case ids, the neighbours are that list without the queried id, in the list's order |
| `Similarity.PutAliasesContent` | backend/src/routesSimilarity.js:68-71 | after setting the keys, each of them maps to the row and every other key is unchanged |
| `Similarity.IndexFoldContent` | backend/src/routesSimilarity.js:58-72 | a key is present iff some row gives it, and then maps to the last row that gives it |
| `Similarity.IndexContent` | backend/src/routesSimilarity.js:56-72 | an id is indexed iff some row lists it, and it then maps to the last row that lists it |
| `Similarity.IndexKeysNormalised` | backend/src/routesSimilarity.js:68-70 | every index key is a non-empty lower-case base id without "_" |
| `Similarity.AddRow` | backend/src/routesSimilarity.js:68-71 | the inner loop sets the row under every non-empty base id of its names, in order |
| `Similarity.BuildSimilarityIndex` | backend/src/routesSimilarity.js:56-72 | the rows loop builds exactly the alias index of the rows |
| `Similarity.LoadStepConsistent` | backend/src/routesSimilarity.js:40-87 | a load keeps the state consistent; it leaves the store loaded iff it was already loaded or the file is readable; it records an error iff it was not loaded and the file is unreadable |
| `Similarity.LoadStepOnce` | backend/src/routesSimilarity.js:41 | once loaded, later calls change nothing, whatever the file holds then |
| `Similarity.LoadStepRetries` | backend/src/routesSimilarity.js:81-86 | a failed load is retried, and the next readable file loads |
| `Similarity.ThresholdIff` | backend/src/routesSimilarity.js:122 | the threshold test holds iff the text is digits, or digits, ".", digits |
| `Similarity.RowLookupSpec` | backend/src/routesSimilarity.js:126-147 | a lookup succeeds iff the id has a row with the field; otherwise it is a 404; a success reports the id, the threshold text, the key, and the neighbours with their count, in the order in which the field's list first names them |
| `Similarity.SplitIdsEmpty` | backend/src/routesSimilarity.js:29-34 | an empty list names no id |
| `Similarity.BatchLookupOrder` | backend/src/routesSimilarity.js:170-190 | a malformed threshold is refused first, then a missing list, then a list naming no valid id; a batch is answered iff the threshold is valid and the list names an id |
| `Similarity.SingleLookupOrder` | backend/src/routesSimilarity.js:117-135 | an empty id is refused first, then a malformed threshold; only then is the index consulted, and a miss is a 404 |
| `Similarity.ItemsForAt` | backend/src/routesSimilarity.js:194-211 | the batch has, at each position, the item of the id at that position |
| `Similarity.BatchLookupSpec` | backend/src/routesSimilarity.js:169-213 | a batch has one item per parsed id, in order and with repeats, and its count is the number of items; each item is a hit iff the id has a row with the field, and a miss carries the single lookup's error text |
| `Similarity.BatchAgreesWithSingle` | backend/src/routesSimilarity.js:183-211 | a batch over ","-joined lower-case ids answers, item by item, what the single lookup answers for each id |
| `Similarity.RouteOf` | backend/src/routesSimilarity.js:107-160 | with the batch route tried first, `/batch/T` reaches the batch handler and every other pair of non-empty segments reaches the single lookup |
| `Similarity.BatchUnreachableAsWritten` | backend/src/routesSimilarity.js:107-160 | in registration order no path reaches the batch handler, and `/batch/75` is a single lookup of "batch" |
| `Similarity.RouteOfAgreesOffBatch` | backend/src/routesSimilarity.js:107-160 | the two dispatch orders differ only on paths whose first segment is "batch" |
| `Similarity.BatchRequestAsWritten` | backend/src/routesSimilarity.js:107-131 | in registration order, a batch request over an index without a row "batch" answers 404 "No similarity record for batch" |
| `Similarity.SingleLookupMiss` | backend/src/routesSimilarity.js:128-131 | a normalised id without a row is a 404 under any valid threshold |
| `Similarity.SimilarityStore.constructor` | backend/src/routesSimilarity.js:36-38 | the store starts not loaded, without error, with an empty index |
| `Similarity.SimilarityStore.LoadOnce` | backend/src/routesSimilarity.js:40-87 | `loadOnce` does nothing once loaded; otherwise it either builds the index and clears the error, or records the error and empties the index |
| `Similarity.SimilarityStore.Single` | backend/src/routesSimilarity.js:107-148 | the single route loads first, answers 500 while the data failed to load, and otherwise gives the single lookup |
| `Similarity.SimilarityStore.BatchRoute` | backend/src/routesSimilarity.js:160-213 | the batch route loads first, answers 500 while the data failed to load, and otherwise gives the batch lookup |
| `Similarity.SimilarityStore.Handle` | backend/src/routesSimilarity.js:107-160 | a two-segment request reaches the batch handler or the single lookup as the corrected dispatch says, or no handler and no state change |
| `Meta.MetaTargetShape` | backend/src/routesMeta.js:22-25 | the target ends in ".PDB", has no lower-case letter, and is four characters longer than the trimmed id |
| `Meta.MetaTargetIgnoresCase` | backend/src/routesMeta.js:22-25 | asking in lower case gives the same target |
| `Meta.MetaTargetIgnoresSpace` | backend/src/routesMeta.js:22-25 | white space around the id does not change the target |
| `Meta.UpperNamesMembers` | backend/src/routesMeta.js:32 | a name is listed iff some piece trims and upper-cases to it |
| `Meta.ListedIff` | backend/src/routesMeta.js:30-34 | the target is in the filtered list iff it is non-empty and some piece normalises to it |
| `Meta.RowMatchesIff` | backend/src/routesMeta.js:29-35 | a row matches iff the target is non-empty and one of the row's ";"-separated pieces normalises to it |
| `Meta.PdbListOfJoin` | backend/src/routesMeta.js:30-33 | a `PDB` field of stored names joined by ";" lists exactly those names |
| `Meta.RowMatchesJoined` | backend/src/routesMeta.js:29-35 | for such a field, a row matches a target iff the target is one of the stored names |
| `Meta.Find` | backend/src/routesMeta.js:29 | what `find` returns is an element of the list that passes the test |
| `Meta.FindNone` | backend/src/routesMeta.js:29-37 | `find` returns nothing iff no element passes the test |
| `Meta.FindFirst` | backend/src/routesMeta.js:29-35 | `find` returns the element at the first position that passes the test |
| `Meta.MetaResult` | backend/src/routesMeta.js:37 | a failure is a 404 "Metadata not found" |
| `Meta.MetaResultSpec` | backend/src/routesMeta.js:29-38 | the route answers 404 iff no row names the target, and otherwise with the first row that does |
| `Meta.StoredCodeTarget` | backend/src/routesMeta.js:22-25 | an upper-case code asked for in lower case targets its own `.PDB` name |
| `Meta.LookupOfStoredChain` | backend/src/routesMeta.js:21-38 | asking for a stored chain in lower case finds the first row that stores its file name |
| `Meta.MetaCache.constructor` | backend/src/routesMeta.js:12 | the cache starts empty |
| `Meta.MetaCache.GetMeta` | backend/src/routesMeta.js:13-18 | the file is read on first use only; later calls return the cached table unchanged |
| `Meta.MetaCache.MetaById` | backend/src/routesMeta.js:21-38 | the route answers from the cached table, loading it on first use |

## Left out

- HTTP and Express are not modelled: request parsing, status codes as transport, JSON
  encoding, headers, and streaming a file (`createReadStream`). A handler's answer is an
  `Outcome`.
- The file system is not modelled: `readdirSync`, `existsSync`, `readFileSync` and
  `JSON.parse` become parameters (the listing, `onDisk`, `Source`, the metadata rows).
  `getPdbDirAbs` and the start-up check of the directory are not modelled.
- The routes `/stats` and `/all` of `routesPdb.js` and `/health` of
  `routesSimilarity.js` are not modelled. They only report sizes, list every id, or
  repeat the load status.
- Console logging and the `try`/`catch` blocks that turn an unexpected exception into a
  500 are not modelled.
- Case mapping is modelled on ASCII letters only; `toLowerCase`/`toUpperCase` of other
  letters is not modelled.
- String order is modelled as order on characters. It differs from JavaScript's UTF-16
  order only for characters outside the Basic Multilingual Plane.
- `Array.prototype.sort` is modelled as a sorting function with the same result, not as
  the engine's algorithm.
- `PdbRoutes.SeqIndex`: the final sort by `localeCompare` with numeric collation is not
  modelled. The contract states the rows in visiting order.
- The visiting order of `Object.keys`/`Object.entries`/`Object.values` is a parameter.
  JavaScript's rule that integer-like keys come first is not modelled.
- `PdbRoutes.SearchLimit`: `parseInt` of a non-numeric or negative limit (`NaN`, a
  negative number) is not modelled. The limit is an optional natural number.
- `PdbRoutes.SequenceLimit`: same as `PdbRoutes.SearchLimit`.
- Lookups of inherited member names in the route handlers (such as `/file/constructor`,
  where `chainIndex[key]` is an inherited function) are not modelled. Dictionaries have
  only their own keys. The build-time effect of such a name is modelled as a finding.
- JSON values that are not strings (a numeric `PDB` field, an array in a similarity
  field, `null` rows) are not modelled. Fields are strings, and an absent `PDB` field
  is "".
- In the metadata file, a table that parses to a falsy value (and is re-read on every
  request) is not modelled. Neither is a parsed value that is not an array.
- `Similarity.RowLookupSpec`: the answer's `threshold` is the validated text, not
  `Number(threshold)`. The two agree for the accepted digit strings, up to how
  JavaScript prints the number.
- `routesSimilarity.js` is not mounted by backend/server.js:16-17, which mounts only the
  pdb and meta routers. Its handlers are modelled as the router serves them.
- `PrefixSearch.PrefixSearcher.Search`: the default `limit = 20` of `prefixSearch` is not
  modelled. The limit is a required natural number, which a caller of the default would pass as 20; no
  route handler calls `prefixSearch`.
- The `detail` field of the 500 answers and the `example` field of the missing-ids
  answer are not modelled.
- `PrefixSearch.PrefixSearchBounded`, `PdbRoutes.SearchBounded`,
  `Similarity.LoadStepOnce`, `Similarity.LoadStepRetries`,
  `Similarity.BatchUnreachableAsWritten`, `Similarity.RouteOfAgreesOffBatch` and
  `Similarity.SingleLookupMiss` follow directly from the definitions. They are stated
  for the record.

## Findings

| source | as written | input that shows it | evidently intended | confidence | as-written member | corrected member |
|---|---|---|---|---|---|---|
| backend/src/indexPdb.js:32 | `!pdbIndex[pdbKey]` also sees members every object inherits, so no aggregate is created for base key "constructor", and the next access of `.chains` or `.chainIds` on the inherited function throws (line 42 for `constructor.pdb`, line 40 for `constructor_X.pdb`) | a directory holding `constructor.pdb` (any case) | test for an own key, so every accepted base gets an aggregate | high; not executed | `PdbIndex.ConstructorFileAbortsBuild` | `PdbIndex.PdbIndexContent` |
| backend/src/routesSimilarity.js:107-160 | `/:pdbId/:threshold` is registered before `/batch/:threshold`, so it takes every two-segment path, including `/batch/75` | `GET /batch/75?ids=1ahl,1akg` on the router, once it is mounted, answers 404 "No similarity record for batch" | the batch route is reached for `/batch/...` | high; not executed | `Similarity.BatchUnreachableAsWritten` | `Similarity.RouteOf` |
