# Verified model of the evidence scripts

The repository keeps reference data and evidence about legal-text extraction in order
with a set of fail-closed scripts. This project models those with the most
logic and proves what they promise, for all inputs and all runs.

- **Hybrid reference evaluator** (`scripts/m207_hybrid_eval_experiment.py`): a validator
  for records files and an engine that aligns occurrences by anchor key, scores fields,
  provenance and relations, and sums the planes of a report. `Utf8`, `HybridRecords`,
  `HybridAlign`, `HybridScore` and `HybridReport` hold the model. `HybridCitations`, `HybridAnchors`,
  `HybridCounts`, `HybridLinks` and `HybridReportCounts` say what each of its answers and numbers
  means, in terms of anchors, partners and relations; `HybridMatching`, `HybridExact`,
  `HybridSymmetry`, `HybridDuality`, `HybridTwin`, `HybridReportLaws`, `HybridReportDuality` and
  `HybridInvariance` prove its laws. The evaluator itself tries one reversal, one relabelling and
  one duplicated anchor; here these hold for every permutation, every relabelling and
  every duplicate.
- **Edition series and the operator inventory** (`EditionSeries`, `EditionTexts`, `ContextInventory`,
  `InventoryRefs`, `InventoryHarvest`): the glue of two texts, the two-pointer loop that cuts
  blocks into maximal chains, and the loader and builder that rely on the chains being disjoint.
- **C4 receipts** (`InventoryReaders`, `InventoryText`, `C4Receipt`, `C4Tampering`): three generations of JSONL readers, the
  runner that writes a receipt, the verifier that must accept it and never promote it, and what
  a verified receipt vouches for.
- **Detached walk** (`WalkMachine`, `WalkController`): start, poll and cancel around a lock
  file, as a state machine in small steps, and as methods that are runs of that machine.
- **Runtime store** (`RuntimeStore`, `RuntimeTampering`): stage, swap, roll back and revalidate, where any
  operation may fail and the source may change, and what a valid store vouches for.
- **Closed manifests** (`ClosedManifest`): the frozen-hash check.

`Sequences` and `Orders` hold the facts about sequences, multisets, sums and sorting that
the others share.

## Reading the model

Loops of the scripts are methods with invariants. Each is proved equal to a function or to
a declarative predicate, and the laws are lemmas about that function or predicate. JSON
values, hashes, full paths, `json.loads` and `json.dumps` are parameters of the model; where a theorem
needs `parse(render(x)) == x`, or that a JSON object cut inside a string is not JSON, it says so.
Nothing is assumed about hashes beyond being functions, except in the two lemmas of `RuntimeTampering` that ask
that no other manifest has the digest of one.

Where the code falls short of a property, a lemma gives an input and a theorem says exactly
when the property holds:

- A pair of empty bundles counts as an exact bundle although nothing in it is measured; this is
  the only such case (`HybridReportLaws.UnmeasuredExactIffEmpty`), and the only one in which the
  hybrid exact count can exceed the local one.
- S07 splits lines where S23 does not. It accepts what S23 accepts exactly when no record holds a
  break that only `splitlines` knows, such as U+2028 inside a string
  (`InventoryText.S07AcceptsS23TextIff`, `InventoryText.SplitRecordExample`).
- S10 depends on the order of the lines, on exactly the files that
  `InventoryReaders.S10OrderFreeIff` names.
- The runner accepts an attempt id with a backslash, a budget under an hour, a binary or contract
  outside the repository and a launch failure. The verifier rejects the receipts of all four:
  `C4Receipt.RunThenVerify` lists exactly what it adds, and `C4Receipt.ShortBudgetAndFailedLaunch`,
  `C4Receipt.OutsideBinary` and `C4Receipt.BackslashAttempt` turn any recorded run into such a one.
- Two concurrent starts over a stale lock may both succeed (`WalkMachine.ConcurrentStartsRace`), and
  a failed rewrite of the lock may orphan a worker (`WalkMachine.FailedRewriteOrphansWorker`).
  `WalkMachine.SafeIffClean` and `WalkMachine.SerialRunsAreSafe` say exactly which runs are safe.
- A valid runtime store is not always left alone. A read error while it is validated is taken for
  an invalid store, which is then rebuilt and loses its caches. `RuntimeStore.Machine.Publish` says
  what becomes of it as a function of which operations fail, and `RuntimeStore.OneFailure` that a
  single failure replaces it if and only if it is one of its reads.

`dafny verify dfyconfig.toml` covers the whole project (Dafny 4.11).

## Model

| member | source | states |
|---|---|---|
| Utf8.SpanIffBoundaries | scripts/m207_hybrid_eval_experiment.py:682-693 | For bytes that encode a text, the span test holds exactly when both ends are encoded lengths of prefixes of the text, the first not longer than the second |
| Utf8.EndpointsDecode | scripts/m207_hybrid_eval_experiment.py:685-693 | Once the bounds and the two continuation-byte tests pass on encoded text, the final decoding step never rejects |
| Utf8.SliceEncodes | scripts/m207_hybrid_eval_experiment.py:689-693 | The slice between two such boundaries encodes exactly the text between them |
| Utf8.DecodeInvertsEncode | scripts/m207_hybrid_eval_experiment.py:690-691 | Decoding the encoding of any scalar text gives the text back (RFC 3629, section 3) |
| Utf8.EncodeInvertsDecode | scripts/m207_hybrid_eval_experiment.py:690-691 | Bytes that decode are the encoding of what they decode to, so overlong forms and surrogates never decode (RFC 3629, sections 3 and 4) |
| HybridRecords.KeyIsAnchorMultiset | scripts/m207_hybrid_eval_experiment.py:1161-1165 | Two occurrences have the same key exactly when their anchors are the same multiset, and the key lists that multiset |
| HybridRecords.ValidateBundle | scripts/m207_hybrid_eval_experiment.py:604-679 | Accepts exactly the bundles whose ids are unique and non-empty, whose anchors are well formed, whose focus is an occurrence and whose relations end in occurrences; the two diagnostics are told apart |
| HybridRecords.ReadCatalog | scripts/m207_hybrid_eval_experiment.py:942-1002 | Accepts exactly non-empty documents with globally unique document and fragment ids and agreeing byte lengths, and then the two dictionaries hold exactly the fragments |
| HybridRecords.FitBundle | scripts/m207_hybrid_eval_experiment.py:1008-1053 | Accepts exactly the valid bundles that cite known fragments of one document, stay in bounds on character boundaries, and share no anchor key; each diagnostic names a defect that is there |
| HybridRecords.FindHome | scripts/m207_hybrid_eval_experiment.py:1009-1024 | The running search for the one document of a bundle succeeds exactly when a single document declares every cited fragment |
| HybridRecords.GroupIds | scripts/m207_hybrid_eval_experiment.py:1044-1053 | Some group has two members exactly when two occurrences share an anchor key |
| HybridRecords.DeriveValidation | scripts/m207_hybrid_eval_experiment.py:1055-1069 | The counters derive the label defined by which cited fragments carry their text |
| HybridRecords.ValidateRecords | scripts/m207_hybrid_eval_experiment.py:915-1091 | Accepts exactly the declaratively well-formed files, reports their true counts, and every diagnostic it raises names a defect the file has |
| HybridCitations.FitsIffLives | scripts/m207_hybrid_eval_experiment.py:878-1053 | A bundle fits the documents exactly when one of them declares its region and context and holds every anchor and every field source of every occurrence as a span between character boundaries, and no two occurrences have the same anchors |
| HybridCitations.CitedTextDecodes | scripts/m207_hybrid_eval_experiment.py:682-693 | In an accepted file every anchor and field source in a fragment with text cuts out a piece of at least one character, and its bytes decode to it |
| HybridCitations.AcceptedNames | scripts/m207_hybrid_eval_experiment.py:604-679 | In an accepted file nothing goes without a name, identifying names are given once, and there are no documents without fragments, occurrences without anchors or relations without occurrences |
| HybridCitations.LabelMeans | scripts/m207_hybrid_eval_experiment.py:1055-1069 | The label says whether all (and some), some or none of the fragments that the bundles name carry their text |
| HybridAlign.Align | scripts/m207_hybrid_eval_experiment.py:1172-1210 | The two dictionaries and the walk over the sorted keys compute the alignment whose properties the next rows state |
| HybridAlign.AlignIsPartition | scripts/m207_hybrid_eval_experiment.py:1172-1210 | For any input, repeated keys included, every id of either side lands in exactly one of unique, unmatched and ambiguous, as often as it occurs |
| HybridAlign.UniqueIsMatching | scripts/m207_hybrid_eval_experiment.py:1185-1204 | The unique pairs are exactly the occurrences alone under a common key on both sides, and no occurrence is in two pairs |
| HybridAnchors.UniqueIffPartners | scripts/m207_hybrid_eval_experiment.py:1189-1204 | The unique pairs are the occurrences that alone have their anchors on either side, each pair once, listed by expected id |
| HybridAnchors.UnmatchedIffUnanswered | scripts/m207_hybrid_eval_experiment.py:1192-1197 | The unmatched ids of a side are those of the occurrences whose anchors nobody on the other side has, as often as they occur, by key and then in file order |
| HybridAnchors.AmbiguousIffContested | scripts/m207_hybrid_eval_experiment.py:1198-1204 | There is exactly one ambiguous group, in key order, for each multiset of anchors that both sides have and that is not alone on both, and it lists in file order everyone who has it |
| HybridAlign.AlignIgnoresOrder | scripts/m207_hybrid_eval_experiment.py:1915-1985 | Any permutation of either side leaves the unique pairs in place and permutes the rest, ids inside a group included |
| HybridAlign.SignatureIgnoresOrder | scripts/m207_hybrid_eval_experiment.py:1915-1985 | The signature the evaluator compares is the same for every permutation of both sides, not only for the reversal it tries |
| HybridAlign.LabelsDoNotDriveMatching | scripts/m207_hybrid_eval_experiment.py:1988-2018 | Occurrences that agree on ids and anchors align the same way whatever their labels, sources and flags are |
| HybridScore.ScoreFields | scripts/m207_hybrid_eval_experiment.py:1221-1235 | Counts the equal slots of aligned occurrences over all slots of all expected occurrences |
| HybridScore.CountDown | scripts/m207_hybrid_eval_experiment.py:1247-1268 | The greedy count-down scores the intersection of the carried expected triples with the predicted ones, and leaves exactly the unused predicted triples |
| HybridScore.ScoreRelations | scripts/m207_hybrid_eval_experiment.py:1238-1276 | tp is the multiset intersection, tp + fn and tp + fp are the two relation counts, the conditional numerator is tp, and the extra count is the unused triples between aligned ends |
| HybridScore.ScorePair | scripts/m207_hybrid_eval_experiment.py:1302-1344 | Fails exactly on invalid bundles; otherwise returns the tally the lemmas below are about |
| HybridCounts.ValuesCounted | scripts/m207_hybrid_eval_experiment.py:1213-1235 | fieldValue.correct is the number of pairs of partners with equal kinds, plus those with equal dates, plus those with equal numbers, over three slots to each expected occurrence |
| HybridCounts.SourcesCounted | scripts/m207_hybrid_eval_experiment.py:1217-1235 | The same for the sources of date and number, over two |
| HybridCounts.MarksCounted | scripts/m207_hybrid_eval_experiment.py:1313-1320 | Equal unresolved marks are counted over the pairs of partners, and so are the expected-unresolved ones that were resolved |
| HybridCounts.DetectionCounted | scripts/m207_hybrid_eval_experiment.py:1307-1311 | tp counts the pairs of partners, fn and fp the occurrences of either side whose anchors the other side does not have |
| HybridCounts.AmbiguityCounted | scripts/m207_hybrid_eval_experiment.py:1321-1326 | The ambiguous groups are the contested multisets of anchors, their occurrences those that have them |
| HybridLinks.RelationsCounted | scripts/m207_hybrid_eval_experiment.py:1238-1276 | Relation tp is the size of a largest one-to-one matching of relations that say the same between partners, fn and fp are the rest of each side; the conditional ratio is over the expected relations between partnered occurrences, and the extra ones are the predicted ones between such that are not tp |
| HybridScore.AlignedSurplus | scripts/m207_hybrid_eval_experiment.py:1269-1273 | The extra count is the number of predicted triples between aligned ends less tp, since nothing carried over lies outside them |
| HybridMatching.MatchingBound | scripts/m207_hybrid_eval_experiment.py:1254-1268 | No one-to-one pairing of carried expected relations with equal predicted ones is larger than the intersection |
| HybridMatching.MatchingExists | scripts/m207_hybrid_eval_experiment.py:1254-1268 | A one-to-one pairing of that size exists |
| HybridMatching.GreedyIsOptimal | scripts/m207_hybrid_eval_experiment.py:1247-1268 | The tp of the count-down is the size of a largest one-to-one pairing that respects the id map |
| HybridExact.ExactIffIsomorphic | scripts/m207_hybrid_eval_experiment.py:1172-1344 | For valid bundles, repeated anchor keys included, bundle_exact holds exactly when a bijection of occurrence ids keeps anchors, values, sources and flags and carries the relation triples exactly onto the predicted ones |
| HybridExact.IsomorphismIsIdMap | scripts/m207_hybrid_eval_experiment.py:1243-1244 | That bijection is unique: it is the id map of the alignment |
| HybridExact.CleanImpliesPaired | scripts/m207_hybrid_eval_experiment.py:1287-1290 | No misses, no surplus and no ambiguous group: then every occurrence is paired with one of equal anchors on the other side |
| HybridSymmetry.TallyIgnoresOrder | scripts/m207_hybrid_eval_experiment.py:1302-1344 | Permuting occurrences and relations of both bundles changes nothing in the tally |
| HybridSymmetry.TallyIgnoresIds | scripts/m207_hybrid_eval_experiment.py:1302-1344 | Renaming the predicted occurrence ids one to one, relations included, changes nothing in the tally |
| HybridSymmetry.ValidityIgnoresOrder | scripts/m207_hybrid_eval_experiment.py:604-679 | A bundle is valid exactly when its reorderings are |
| HybridDuality.ScoreIsDual | scripts/m207_hybrid_eval_experiment.py:1302-1344 | Swapping the two sides keeps detection tp, relation tp, correct slots and ambiguous groups, and exchanges fp with fn in both planes |
| HybridDuality.MatchesSwapped | scripts/m207_hybrid_eval_experiment.py:1243-1268 | Relation tp is the same whether the expected triples are carried over or the predicted ones carried back |
| HybridDuality.ExactSymmetric | scripts/m207_hybrid_eval_experiment.py:1279-1299 | bundle_exact does not depend on which side is called expected |
| HybridReportDuality.ReportIsDual | scripts/m207_hybrid_eval_experiment.py:2201-2237 | Exchanging two files that can be evaluated keeps the matched bundles, every true positive, the unresolved plane, the ambiguous groups and the exact count of the report, and exchanges fp with fn in detection and relations |
| HybridReportDuality.SummaryIsDual | scripts/m207_hybrid_eval_experiment.py:1408-1466 | The same for the summary of any list of valid pairs |
| HybridTwin.DuplicateKeyIsCaught | scripts/m207_hybrid_eval_experiment.py:2050-2086 | Adding a copy of any occurrence of any accepted file under a new id makes the file unacceptable, and the duplicate key is the only diagnostic that can apply |
| HybridReport.LocalFocusBlock | scripts/m207_hybrid_eval_experiment.py:1347-1364 | For a valid pair the local-focus views are valid and score without error; an empty bundle gets the unmeasured block |
| HybridReport.ViewsAreValid | scripts/m207_hybrid_eval_experiment.py:1347-1364 | Restricting valid bundles to the focus key gives valid bundles again |
| HybridReport.Summarize | scripts/m207_hybrid_eval_experiment.py:1408-1466 | The counters add up the rows, unmeasured blocks adding nothing |
| HybridReport.TotalsAreSums | scripts/m207_hybrid_eval_experiment.py:1402-1440 | Each of the counters of a summary, tp, fp and fn of both detection planes and all five of the relations included, is the sum of its own number over the rows; a ratio counts where it is measured |
| HybridReport.CheckedPairs | scripts/m207_hybrid_eval_experiment.py:1938-1954 | A property over pairs counts the matched pairs with occurrences on both sides, and is passed unless there is none |
| HybridReport.BundlesById | scripts/m207_hybrid_eval_experiment.py:1839-1849 | Fails exactly on a repeated bundle id and otherwise indexes every bundle |
| HybridReport.PairBundles | scripts/m207_hybrid_eval_experiment.py:1852-1867 | Matched, expected-only and predicted-only ids are the sorted intersection and differences, and matched bundles come from the two files |
| HybridReport.OrderProperty | scripts/m207_hybrid_eval_experiment.py:1957-1985 | The reversal property passes on every checkable pair of every input |
| HybridReport.LabelProperty | scripts/m207_hybrid_eval_experiment.py:1988-2018 | The relabelling property passes on every checkable pair of every input |
| HybridReport.EmptyProperty | scripts/m207_hybrid_eval_experiment.py:2021-2047 | The empty-denominator property always passes |
| HybridReport.DuplicateProperty | scripts/m207_hybrid_eval_experiment.py:2050-2086 | The duplicate-key property always passes, for any acceptable example file |
| HybridReport.EvaluateRecords | scripts/m207_hybrid_eval_experiment.py:2201-2237 | Succeeds exactly on two well-formed files with unique bundle ids; the planes are those of the matched pairs, the four property rows say what was checked, and the status is never unstable |
| HybridReportCounts.FocusCounted | scripts/m207_hybrid_eval_experiment.py:1347-1390 | The local block is settled by the focus and the predicted occurrences on its anchors: one, none or several of them each give one block, whatever else is in the bundles |
| HybridReportCounts.ReportCounts | scripts/m207_hybrid_eval_experiment.py:1408-1466 | Every number of a report is a sum over the matched bundles: of pairs of partners, of their equal values, sources and marks, of unanswered occurrences, of matched and linked relations, of contested anchors, of exact pairs and, in the local plane, of foci |
| HybridReportCounts.MatchedMeans | scripts/m207_hybrid_eval_experiment.py:1852-1867 | The matched pairs are exactly the pairs of bundles of the two files with the same id, each once, in the order of the ids |
| HybridReportLaws.ReportConserves | scripts/m207_hybrid_eval_experiment.py:1408-1466 | In every report no group is ambiguous, detection tp + fn is the divided occurrence_expected and the true number of expected occurrences of the matched bundles, and likewise for fp and for relations |
| HybridReportLaws.DetectionConserves | scripts/m207_hybrid_eval_experiment.py:1307-1311 | Without repeated keys, tp + fn and tp + fp are the sizes of the two sides |
| HybridReportLaws.LocalFocusCoarser | scripts/m207_hybrid_eval_experiment.py:1870-1912 | When the whole bundle is exact, its local focus is exact if and only if the bundle is not empty |
| HybridReportLaws.LocalCountNotBelow | scripts/m207_hybrid_eval_experiment.py:1439-1459 | Over rows with non-empty expected bundles the local exact count is never below the hybrid one |
| HybridReportLaws.LocalCountGap | scripts/m207_hybrid_eval_experiment.py:1439-1459 | Over any rows the hybrid exact count exceeds the local one by at most the number of empty expected bundles |
| HybridReportLaws.UnmeasuredExactIffEmpty | scripts/m207_hybrid_eval_experiment.py:1287-1299 | A pair counts as exact with nothing measured if and only if both bundles are empty, in spite of the stated rule that not-measured never counts as perfect |
| HybridReportLaws.EmptyFileIsExact | scripts/m207_hybrid_eval_experiment.py:1287-1299 | A file the validator accepts holds such a bundle and can be evaluated against itself |
| HybridInvariance.ReportIgnoresOrder | scripts/m207_hybrid_eval_experiment.py:2201-2237 | Reordering bundles, occurrences and relations of either file keeps both files acceptable and every plane of the report |
| HybridInvariance.ReportIgnoresIds | scripts/m207_hybrid_eval_experiment.py:2201-2237 | Renaming predicted occurrence ids one to one per bundle, through focus and relations, keeps every plane of the report |
| HybridInvariance.WellFormedReordered | scripts/m207_hybrid_eval_experiment.py:915-1091 | A file is well formed exactly when its reorderings are |
| HybridInvariance.PermutedFile | scripts/m207_hybrid_eval_experiment.py:1852-1859 | Any permutation of the bundles of a file, with reordered contents, is a reordering in the sense of the previous rows |
| EditionSeries.GlueIsRobust | scripts/m207_unit_diagnosis.py:51-114 | Whether two texts glue depends neither on white space at the end of either nor on the gap, unless it exceeds two |
| EditionSeries.TrailingSpaceIgnored | scripts/m207_unit_diagnosis.py:52-52 | White space at the end of a text changes none of its flags |
| EditionTexts.FlagsMean | scripts/m207_unit_diagnosis.py:51-64 | Each of the five flags says one thing about the text up to its last scalar that is no white space |
| EditionTexts.GlueMeans | scripts/m207_unit_diagnosis.py:108-114 | Two texts glue exactly when they are at most two apart, the first goes on (final comma, open parenthesis or open note) and the second starts with a date |
| EditionTexts.CommaGlues | scripts/m207_unit_diagnosis.py:108-114 | A comma put after any text makes it glue to a near text that starts with a date |
| EditionTexts.ParensGlue | scripts/m207_unit_diagnosis.py:108-114 | So do opening parentheses as soon as they outnumber the closing ones |
| EditionTexts.ClosedNeverGlues | scripts/m207_unit_diagnosis.py:108-114 | A closed first text never glues, and neither does a second text that does not start with a date |
| EditionSeries.GrowChain | scripts/m207_unit_diagnosis.py:159-168 | From a position the inner loop takes the longest run of glued neighbours |
| EditionSeries.FindSeries | scripts/m207_unit_diagnosis.py:156-191 | The two-pointer loop emits exactly the series of the maximal runs of two or more, in order |
| EditionSeries.ChainsAreMaximalRuns | scripts/m207_unit_diagnosis.py:157-191 | The chains, singletons included, concatenate to the blocks, are glued inside and cannot be extended either way |
| EditionSeries.MaximalRunsAreUnique | scripts/m207_unit_diagnosis.py:157-191 | No other partition of the blocks has these three properties |
| EditionSeries.SeriesAreLongRuns | scripts/m207_unit_diagnosis.py:169-188 | A series is emitted if and only if it describes a chain of two or more |
| EditionSeries.SeriesLengthsAdd | scripts/m207_unit_diagnosis.py:172-181 | Every emitted series of decoded blocks is as long as its members together |
| EditionSeries.ChainsAreRuns | scripts/m207_unit_diagnosis.py:157-191 | The chains are exactly the slices of the block list that are glued inside and continue on neither side |
| EditionSeries.SortByIndexSorts | scripts/m207_unit_diagnosis.py:151-152 | Sorting gives ascending block indices and keeps the order of equal ones |
| EditionSeries.StableOrderIsUnique | scripts/m207_unit_diagnosis.py:151-152 | No other list of the blocks is ascending and keeps that order |
| EditionSeries.DiagnosedSeriesIff | scripts/m207_unit_diagnosis.py:151-191 | A series is among those of the diagnosis if and only if some document has, among its blocks by index, a run of two or more that the series describes |
| EditionSeries.JoinedByteLength | scripts/m207_unit_diagnosis.py:172-181 | joined_byte_len is the sum of the byte lengths of the members |
| EditionSeries.Diagnose | scripts/m207_unit_diagnosis.py:128-191 | Grouping, sorting and detecting emits exactly the series of the maximal runs of two or more in the sorted blocks of some document |
| EditionTexts.SeriesBlocks | scripts/m207_unit_diagnosis.py:154-191 | Every emitted series lists two or more blocks of the manifest, of its document, in ascending order and at most two apart; all but the last go on and all but the first start with a date |
| EditionTexts.SeriesInOrder | scripts/m207_unit_diagnosis.py:151-191 | The series come by document, in the order of the first block of each, and within a document from its beginning to its end |
| EditionSeries.SeriesAreDisjoint | scripts/m207_unit_diagnosis.py:154-191 | With unique fragment ids no fragment is in two series, across all documents |
| EditionSeries.AllSeriesWellMade | scripts/m207_unit_diagnosis.py:169-188 | Every emitted series has at least two members, as many block indices, and claims no cross-block anchor |
| ContextInventory.LoadSeries | scripts/m207_context_inventory.py:259-292 | Accepts exactly well-shaped series no two of which share a fragment, and maps each member to a series that lists it |
| ContextInventory.LoadDiagnosis | scripts/m207_context_inventory.py:225-295 | Accepts exactly the loadable diagnoses and indexes each fragment and each member by its only owner |
| ContextInventory.LoadPilot | scripts/m207_context_inventory.py:181-222 | Accepts exactly non-empty lists of cases with unique ids and a truthful declared count |
| ContextInventory.DiagnosisLoads | scripts/m207_unit_diagnosis.py:154-191 | Whatever series the diagnosis finds in blocks with unique ids, the loader accepts |
| ContextInventory.CheckCase | scripts/m207_context_inventory.py:399-470 | Accepts exactly the cases that agree with seed, diagnosis, document and fixture and whose span is a non-empty text span or the whole fragment; a diagnostic names a defect the case has |
| ContextInventory.CheckMember | scripts/m207_context_inventory.py:484-521 | Accepts exactly the members present and consistent in the document of the series; a diagnostic names a defect the member has |
| ContextInventory.ContextRefs | scripts/m207_context_inventory.py:481-546 | Succeeds exactly when every member is present, consistent, of the series' document and at its block index; the refs are the whole other members in order; a diagnostic names a defect of the series |
| ContextInventory.Build | scripts/m207_context_inventory.py:386-570 | Succeeds exactly when every case and its series can be shown, and publishes each case with its series, flags, refs and duplicates; a diagnostic names a defect of a case or of its series |
| ContextInventory.EligibilityMeans | scripts/m207_context_inventory.py:343-357 | A published case is series context exactly when its fragment is in a diagnosed series, unavailable (and its head unresolved) exactly when it is an orphan tail in none, and so on for the other two |
| ContextInventory.EligibilityPartitions | scripts/m207_context_inventory.py:574-580 | The four counts of the inventory are the numbers of cases in a series, orphaned, otherwise truncated and plain, and add up to the number of cases |
| ContextInventory.ContextRefsConserve | scripts/m207_context_inventory.py:522-533 | The context refs add up to member count minus one over the series cases |
| ContextInventory.DiagnosedInventoryConserves | scripts/m207_context_inventory.py:479-580 | The same from the blocks: no assumption about the series but that the diagnosis found them |
| ContextInventory.DuplicatesAreDigestClasses | scripts/m207_context_inventory.py:472-476 | A case lists another as duplicate exactly when it is another case with the same text digest; the relation is symmetric |
| InventoryRefs.FocusShown | scripts/m207_context_inventory.py:306-335 | The focus of a published case is the case's own span of its own fragment, as seed and diagnosis have it, and is text; flags and series are those of the diagnosis |
| InventoryRefs.RefsShown | scripts/m207_context_inventory.py:481-546 | The context is empty without a series, and otherwise all the other members in the order of the series, each a whole fragment of the document of the series |
| InventoryRefs.DuplicatesShown | scripts/m207_context_inventory.py:472-476 | The duplicates are the other cases with the same text digest, in case order |
| InventoryHarvest.SeriesCanBeShown | scripts/m207_context_inventory.py:481-546 | Where seed and fixtures are the blocks the diagnosis read, every diagnosed series passes all checks of its members |
| InventoryHarvest.HarvestBuilds | scripts/m207_context_inventory.py:386-570 | Then the inventory can be built if and only if every case copies the row of its block, the hash of its source and a good span |
| InventoryHarvest.OrphansAreDated | scripts/m207_context_inventory.py:343-357 | Then a case is unavailable for coding exactly when its block starts with a date and is in no series, and an inventory-only block neither starts with a date nor goes on |
| InventoryReaders.ReadS23 | scripts/m204_s23_c4_run.py:110-148 | Reports the first solid digest and the record count, and accepts exactly when every line is blank or a record carrying that digest or none, and one carries it |
| InventoryReaders.ReadS10 | scripts/m204_s10_c4_run.py:99-127 | Reports the first text digest, and accepts exactly when all lines are blank or records, one is a record, and nothing but null is carried after the first text digest |
| InventoryReaders.ReadS07 | scripts/m204_s07_c4_run.py:89-108 | Reports the first truthy digest of any type, and accepts exactly non-empty files of records |
| InventoryReaders.S23ImpliesS07 | scripts/m204_s23_c4_run.py:110-148 | What S23 accepts, S07 accepts with the same digest (and, by the readers' contracts, the same count) |
| InventoryText.S07AcceptsS23TextIff | scripts/m204_s07_c4_run.py:95-108 | Of a text whose lines S23 accepts, S07 accepts the split lines if and only if no record holds a break that only splitlines knows; digest and count are then the same |
| InventoryText.SplitText | scripts/m204_s07_c4_run.py:95-108 | Splitting changes nothing but blank lines when the records are whole, and otherwise makes a line that is not JSON |
| InventoryText.SplitRecordIsRejected | scripts/m204_s07_c4_run.py:95-108 | Any record with such a break inside, alone in its file, is accepted by S23 and rejected by S07 |
| InventoryText.SplitRecordExample | scripts/m204_s07_c4_run.py:95-108 | One such record, with U+2028 in its title |
| InventoryReaders.S10IffS23WithOneCarrier | scripts/m204_s10_c4_run.py:112-127 | Where the digests present are non-empty strings, S10 accepts with a digest exactly when S23 accepts and one record alone carries it |
| InventoryReaders.S23IgnoresOrder | scripts/m204_s23_c4_run.py:125-148 | S23's verdict, count and accepted digest do not depend on the order of the lines |
| InventoryReaders.S23AcceptsIff | scripts/m204_s23_c4_run.py:125-148 | S23 acceptance said without reading order: some digest is carried and all lines fit it |
| InventoryReaders.FirstIsFirst | scripts/m204_s23_c4_run.py:125-148 | The digest reported is that of the first line whose digest the reader takes, for all three readers and for rejected files too |
| InventoryReaders.CountMeans | scripts/m204_s23_c4_run.py:128-131 | The count reported is the number of lines that are not blank, JSON or not |
| InventoryReaders.S10OrderFreeIff | scripts/m204_s10_c4_run.py:112-127 | S10's verdict is the same for every order of the lines unless all are readable, one record alone carries text and another a value that is neither null nor text |
| InventoryReaders.OddAndText | scripts/m204_s10_c4_run.py:117-126 | In that case the file passes with the text last and fails with it first |
| C4Receipt.Repository.Run | scripts/m204_s23_c4_run.py:193-366 | Writes a receipt exactly when the arguments, paths, contract and parser allow it and nothing is overwritten; a refused run changes no file, and a run that fails later leaves no receipt |
| C4Receipt.Verify | scripts/m204_s23_c4_run.py:397-575 | Accepts exactly the receipts that agree with themselves, with every pinned file, with the reader and with their own claim, and passes the pass requirement only if the claim is earned |
| C4Receipt.RunThenVerify | scripts/m204_s23_c4_run.py:193-575 | With the files as the run left them, its receipt verifies if and only if the process was launched, the diagnostics exist and the arguments are the verifier's (plain repository paths, budget, profile, non-performance claim, no backslash in the attempt id) |
| C4Receipt.RecordIsWellMade | scripts/m204_s23_c4_run.py:438-488 | Of these conditions, the ones about the receipt itself |
| C4Receipt.RecordMatchesFiles | scripts/m204_s23_c4_run.py:490-564 | Of these conditions, the ones about the pinned files |
| C4Receipt.RunPassesIff | scripts/m204_s23_c4_run.py:169-187 | A run's receipt claims a pass if and only if the walk was complete, long enough, unlimited, over the whole corpus and its diagnostics are accepted by the reader |
| C4Receipt.RunLeaves | scripts/m204_s23_c4_run.py:246-352 | A recorded run leaves its receipt, its two logs and its diagnostics, each with its own content and digest, and every other file as it was |
| C4Receipt.RecordIsItsCommand | scripts/m204_s23_c4_run.py:238-343 | The command line and its digest in a receipt are those its corpus, contract, binding and output fields describe |
| C4Receipt.ReceiptTellsRun | scripts/m204_s23_c4_run.py:283-351 | Ending, duration, counts and recorded arguments can be told from a receipt: no two runs that differ in them leave the same one |
| C4Receipt.RunThenVerifyFile | scripts/m204_s23_c4_run.py:357-575 | The same round trip through the file the runner writes, with or without a demanded pass |
| C4Receipt.SomeRunVerifies | scripts/m204_s23_c4_run.py:193-575 | There is a recorded run whose file is accepted, with tools that read back what they write, so the round trip and the next three rows are not empty |
| C4Receipt.ShortBudgetAndFailedLaunch | scripts/m204_s23_c4_run.py:193-206 | Any recorded run is still recorded with a budget of a second or after a failed launch, and neither receipt is well made |
| C4Receipt.OutsideBinary | scripts/m204_s23_c4_run.py:76-82 | Any recorded run is still recorded with a binary outside the repository, which the receipt cannot pin |
| C4Receipt.BackslashAttempt | scripts/m204_s23_c4_run.py:188-195 | Any recorded run is still recorded under an attempt id with a backslash, whose logs the receipt cannot pin |
| C4Receipt.VerifiedPassIsReal | scripts/m204_s23_c4_run.py:537-571 | No promotion: a verified pass has a complete full walk behind it and pinned diagnostics that the current reader accepts with the recorded digest and count |
| C4Receipt.ValidityIsAnUpperBound | scripts/m204_s23_c4_run.py:538-556 | A receipt may understate validity but not overstate it: rewriting the recorded validity survives if and only if the reader bears it out |
| C4Receipt.FixedClaimsSayNothing | scripts/m204_s23_c4_run.py:344-350 | The fixed non-claims never satisfy the non-performance requirement: only the caller's claim can |
| C4Tampering.ChangedFile | scripts/m204_s23_c4_run.py:490-564 | Of a verified receipt, a pinned file can be replaced only by one with the same digest that reads the same where the verifier reads it; any other file can hold anything |
| C4Tampering.MissingFile | scripts/m204_s23_c4_run.py:490-525 | Without one of the pinned files nothing verifies |
| C4Tampering.ChangedPins | scripts/m204_s23_c4_run.py:411-564 | Schema, attempt id, profile, both revisions, build inputs and claims cannot be changed alone |
| C4Tampering.ChangedIdentity | scripts/m204_s23_c4_run.py:418-429 | Neither can the identity; the command line can be replaced only by one with the same hash |
| C4Tampering.MovedPins | scripts/m204_s23_c4_run.py:518-557 | A pin can be moved only to another allowed file with its digest |
| C4Tampering.ChangedFindings | scripts/m204_s23_c4_run.py:529-557 | Digest, count and diagnostics pin cannot be changed alone |
| C4Tampering.ChangedFacts | scripts/m204_s23_c4_run.py:455-466 | Corpus and duration can be rewritten exactly as long as the receipt passes if and only if it did, the budget exactly down to an hour |
| C4Tampering.ChangedBinding | scripts/m204_s23_c4_run.py:449-470 | The same for binding and ending, as long as they keep their form and the binding its profile and revision |
| C4Tampering.SafeIdsCanBePinned | scripts/m204_s23_battery.py:217-221 | The controller takes exactly the attempt ids that the runner takes and whose logs a verified receipt can pin |
| C4Receipt.LogIsPlain | scripts/m204_s23_c4_run.py:223-228 | The runner's log path is acceptable to the verifier exactly when the attempt id holds no backslash |
| WalkMachine.LockStepIff | scripts/m204_s23_battery.py:136-313 | A step keeps the invariant if and only if it does not unlink a lock with a live worker or a starter behind it and does not give up the lock of a live worker |
| WalkMachine.SafeIffClean | scripts/m204_s23_battery.py:136-313 | Over every run, with any number of commands at once: there is at most one live worker, accounted for by the lock, at all times, if and only if every step is of that kind |
| WalkMachine.OneWorker | scripts/m204_s23_battery.py:216-270 | What the invariant says: any two live workers are the same, and the lock names it unless its starter still holds the lock |
| WalkMachine.SerialRunsAreSafe | scripts/m204_s23_battery.py:216-313 | Over every run of one command at a time, interleaved with any exits, writes and reused process ids: it is safe if and only if no lock of a live worker is given up |
| WalkMachine.AttemptsAreNeverReused | scripts/m204_s23_battery.py:226-229 | However commands interleave, no attempt is started twice |
| WalkMachine.OutputsAreSingleUse | scripts/m204_s23_battery.py:222-224 | Once a receipt or diagnostics exists and no start is past its check, no start ever succeeds again |
| WalkMachine.ConcurrentStartsRace | scripts/m204_s23_battery.py:152-157 | Wherever a dead worker left its lock, two concurrent starts of new attempts may both succeed |
| WalkMachine.FailedRewriteOrphansWorker | scripts/m204_s23_battery.py:243-260 | A lock that cannot be rewritten may leave its worker running without a lock, and the next start launches a second one |
| WalkController.Site.Start | scripts/m204_s23_battery.py:216-270 | Succeeds only for a new safe attempt with no output present and then leaves the lock naming its worker, the only one possibly live; says what each refusal means and leaves, and when nothing else moves which outcome it is and in which state |
| WalkController.Site.Poll | scripts/m204_s23_battery.py:273-291 | Reports running exactly when the owner of the lock is live, and unreadable exactly for a malformed lock, changing nothing then; otherwise reports the end of the walk of the lock, or terminal or idle as there is a receipt or not, and leaves no lock and no worker |
| WalkController.Site.Cancel | scripts/m204_s23_battery.py:294-313 | Unless the lock is malformed, whatever happens during the bounded wait, afterwards there is neither lock nor worker, and the report names the attempt of the lock |
| RuntimeStore.Machine.Publish | scripts/install.py:161-200 | Under any single failure the destination is what it was or a valid store; a normal return means a valid store; whether a valid store stays, is rebuilt without caches or is lost is a function of which operations fail; it is left alone unless reading it failed, whatever else fails; with no failure a steady source is published exactly when it matches the declaration and the storage is safe |
| RuntimeStore.OneFailure | scripts/install.py:171-198 | A single failing operation replaces a valid store, and loses its caches, if and only if it is one of the reads of that store |
| RuntimeStore.OneFault | scripts/install.py:171-198 | What the function of the failing operations says when only one fails |
| RuntimeStore.Machine.Repair | scripts/install.py:171-198 | A valid store is misread exactly when one of its reads fails, and is then restored from the operation after the first such failure on |
| RuntimeStore.Machine.Restore | scripts/install.py:177-200 | Staging and swapping leaves the old store, a fresh valid one, or after two failures none; from a steady source, which of them is a function of the failing operations |
| RuntimeStore.Machine.Swap | scripts/install.py:189-198 | What becomes of the old store when the first move, the second or the return is refused: it is lost only if the last two are |
| RuntimeStore.Machine.Stage | scripts/install.py:181-188 | Whatever is staged is a valid store without caches even if the source changes meanwhile; from a steady source staging fails only at a failing operation |
| RuntimeStore.Machine.Validate | scripts/install.py:117-158 | Accepts only valid stores; of a valid store it accepts exactly when none of its reads fails, and stops at the first that does |
| RuntimeStore.Machine.ReadManifest | scripts/install.py:81-91 | A steady source gives its own manifest, and every manifest covers exactly the inventory |
| RuntimeStore.StagedIsValid | scripts/install.py:117-158 | Whatever was staged for a manifest is a valid store for the manifest's pin |
| RuntimeTampering.ChangedFile | scripts/install.py:117-158 | A file of a valid store can be replaced only by a regular file with the same digest |
| RuntimeTampering.ExtraEntry | scripts/install.py:141-153 | Any entry added to a valid store but a cache makes it invalid |
| RuntimeTampering.MissingEntry | scripts/install.py:123-153 | And so does any entry missing but the cache |
| RuntimeTampering.ChangedCaches | scripts/install.py:141-150 | The cache may come, go and change as long as it holds only regular files of compiled code |
| RuntimeTampering.ChangedManifest | scripts/install.py:123-134 | The manifest file may be written differently but not say anything else, if no other manifest has its digest |
| RuntimeTampering.ChangedPin | scripts/install.py:128-136 | A store is valid for no other version or digest, and always holds the pipeline state |
| RuntimeTampering.ValidStoresAgree | scripts/install.py:117-158 | Two valid stores of one pin hold the same files up to their digests, caches apart |
| RuntimeStore.NamesArePython | scripts/install.py:38-69 | No name of the inventory can be taken for the manifest, for a cache or for a path |
| ClosedManifest.CheckClosed | scripts/m204_s15_evidence_verify.py:81-109 | Accepts exactly the manifests whose rows are a permutation of the pin table with current digests and sizes; the last set comparison never fails |
| ClosedManifest.ClaimsArePins | scripts/m204_s15_evidence_verify.py:91-108 | Unique pinned paths in the number of the pins, with their digests, are the pin table up to order |
| ClosedManifest.PinsAreClaims | scripts/m204_s15_evidence_verify.py:91-108 | And conversely |
| ClosedManifest.Pigeonhole | scripts/m204_s15_evidence_verify.py:107-108 | The last set comparison is redundant |
| ClosedManifest.ClosedIgnoresOrder | scripts/m204_s15_evidence_verify.py:94-106 | The verdict does not depend on the order of the rows |
| ClosedManifest.ClosedVouches | scripts/m204_s15_evidence_verify.py:81-109 | A pinned file can be replaced only by one of the same digest and size and cannot be missing; any other file is of no account |

## Left out

- Shape checks of JSON (types, missing keys, closed key sets, honesty keys, booleans given as integers): the records are typed values, so only malformed contents are modelled.
- Number equality of JSON field values beyond one abstract number case, so NaN and `1 == 1.0 == True` are whatever the abstract numbers say.
- Text with lone surrogates in `source_utf8`: modelled as a malformed reference, where the script lets the encoding error escape.
- Rendering: the `value` strings of ratios, report constants, detail messages, JSON byte layout and the markdown generators.
- The thirteen fixed scenarios and the example file: the duplicate-key property takes any acceptable example file with an occurrence instead.
- The exception handling around the metamorphic properties: on the modelled inputs no property raises.
- Protected-path, symlink and containment checks, and the parsing of command lines.
- Regular expressions of the unit diagnosis: the two text tests are predicates in `EditionSeries.Lexicon`; suffix and parenthesis tests are concrete.
- Genres, coding verdicts, family and document type of a series, and the duplicate-text table of the unit diagnosis: no further invariant.
- Seed loading, reference counts by cache and the search for raw text in the inventory record.
- ContextInventory.CheckCase: a seed document missing from the seed is reported as a shape error, where the script raises a key error.
- InventoryReaders.ReadS23: undecodable bytes and JSON that the library rejects with other errors than a decoding error are not modelled, here or in the two other readers.
- C4Receipt.Repository.Run: the process writes its logs and the diagnostics and nothing else; file counts, clock, toolchain and the stem of the attempts directory are inputs; parser revision and contract text are read by abstract functions.
- C4Receipt.Verify: paths are the normalized ones a receipt displays; a receipt with another spelling of the same path is refused here and may be resolved by the script.
- C4Receipt.RunThenVerify: a receipt file is related to the receipt by `render` and `parse`; the lemma speaks of the receipt, `C4Receipt.Verify` of the file.
- The S10 and S07 runners and verifiers: earlier versions of the same logic, of which only the readers differ in kind.
- WalkMachine.SerialRunsAreSafe: assumes that a starter survives from claim to rewrite and that the kill signal takes effect on a worker.
- WalkMachine.BeginStep: poll reads the lock and checks its owner in one step, as cancel checks the owner and kills it in one; in a start they are two.
- WalkMachine.Step: claiming and rewriting the lock is one step each, where the script creates or truncates the file before it writes; a lock read in between, or left there by a failed write, is the malformed lock of the model, but no step produces it.
- The detached child process of a worker, `_run-c4`'s update of the battery document, `compose` and `check`: the machine only knows that outputs may appear once a walk was started.
- WalkController.Site.Start: commands run to their end; a command that dies half way is covered by the run theorems of `WalkMachine`.
- RuntimeStore.Machine.Publish: one publisher at a time; the file system is the store's path and the source, so other entries of the parent directory are not modelled. Operations that can fail are the reads of files and entries, copies, moves, and making and removing directories; looking into the cache directory is one with its entry, and tests for links and existence never fail.
- RuntimeStore.CompiledName: the suffix rule of Python before 3.14, where a name such as `.pyc` has no suffix.
- ClosedManifest.CheckClosed: the optional `non_claims` key and the rule that rows have no further keys.
