# Document merge engine: batching and bookkeeping core

This project is a Dafny model of the core of `merger_engine.py`. That file implements a pipeline that walks an input folder, groups its files by top-level folder, extracts ZIP archives into groups of their own, merges PDFs, Word documents and email threads into batch files under a size cap and a 50000-word cap, and keeps a ledger of failed and skipped inputs. The model does not cover the format libraries, the file system or the Windows converter. It covers the decisions the engine makes around them:

- **Batching** (`batching.dfy`). The greedy planner shared by `merge_pdfs`, `merge_docx` and `_write_email_batches`, plus the size-only pre-flight estimator `estimate_batch_count`. The planner is a fold specification with a loop method proved against it. Lemmas state what the plan guarantees and how the estimate relates to it.
- **Merging** (`merging.dfy`). Per-file read outcomes, batch finalisation (`_save_pdf_batch`, `_save_docx_batch`), the merge loop that saves batches while planning them, and the estimator loop. A per-path oracle says what `stat`, the text extractor and the reader make of each file.
- **ZIP member names** (`zip_paths.dfy`). `_safe_member_path`, the archive `_truncate_leaf_name` and `_unique_path`.
- **ZIP extraction** (`zip_extract.dfy`). `extract_archive` over a `Disk` of oracles. The oracles give the member list of each archive path, whether copying a member succeeds, and the random name of each nested folder. The model covers the ratio test, the per-call byte budget, unsafe-name rejection, renaming, and recursion into nested archives up to the depth limit.
- **Folder grouping** (`folders.dfy`). `FolderAnalyzer.analyze_structure` over a folder tree, with excluded directories pruned.
- **ZIP group names** (`zip_groups.dfy`). `_sanitize_group_component` and `_allocate_zip_group_name`.
- **Group preparation** (`expansion.dfy`). `_prepare_groups_with_zip_expansion`, `_merge_zip_stats`, `_is_supported_processable_file` and the per-group type split.
- **Outcome ledger** (`ledger.dfy`). `_collect_file_outcomes_from_warnings`, the orchestrator's `_truncate_leaf_name`, `_ensure_unique_destination` and `_materialize_failed_artifacts`. The last one is a class whose instances are the failed-file records the method annotates in place.
- **Output limit** (`capacity.dfy`). `_ensure_output_capacity`, and what it guarantees at its PDF and email call sites.
- **Email** (`email.dfy`):
  - `normalize_subject` and `group_emails`, with a stable sort by date;
  - the text layout of `_render_email_entry` and `_render_thread_block`;
  - batch planning and writing in `_write_email_batches`.
- **Printable-run scan** (`scanner.dfy`). The scan the legacy `.doc` fallbacks apply to the raw `WordDocument` stream.
- **Supporting modules:**
  - `text.dfy`: Python whitespace, `str.split()`, `lower()` and decimal numerals;
  - `paths.dfy`: `os.path.basename`, `splitext`, `split` and `join` on POSIX;
  - `order.dfy`: code-point string order and sorting;
  - `warnings.dfy`: the warning records, one code per call site;
  - `wrappers.dfy`: `Option` and `Result`.

Two behaviours of the code are easy to misread:

- The drive-letter test of `_safe_member_path` applies only at the start of the normalised name. So `./C:x` is accepted as `C:x`; see `ZipPaths.DriveAfterDotKept`.
- The pre-flight estimator tests the running size for truthiness, not the batch for emptiness, and ignores the word cap. So it can undercount the batches the merge loop writes; see `Batching.EstimateMissesWordCap`, `Batching.EstimateMissesZeroSize` and `Capacity.PdfOutputsMayExceedLimit`.

## Model

| member | source | states |
|---|---|---|
| Batching.PlanBatches | merger_engine.py:2708-2744 | The packing loop (current batch, running bytes and words, closing on overflow, saving the last batch) computes exactly the greedy plan `Plan(cap, items)` |
| Batching.PlanPartitions | merger_engine.py:403-478 | Concatenating the planned batches gives back the input in order, and no planned batch is empty |
| Batching.PlanWithinCaps | merger_engine.py:428-442 | Every batch of two or more items has summed bytes at most the cap and summed words at most 50000 |
| Batching.PlanOversizeAlone | merger_engine.py:454-462 | An item whose bytes exceed the cap or whose words exceed 50000 sits alone in its batch |
| Batching.PlanGreedy | merger_engine.py:428-438 | Each batch is closed only because the first item of the next batch would have pushed it past a cap |
| Batching.PlanFits | merger_engine.py:428-442 | The packing invariant holds for the whole input, and every planned batch is non-empty and fits or is a single item |
| Batching.PlanLength | merger_engine.py:465-478 | An empty input gives no batches; otherwise the plan has one batch more than the number closed inside the loop |
| Batching.EstimateBounds | merger_engine.py:350-372 | The estimate is 0 exactly for an empty input, and never exceeds the number of files |
| Batching.EstimateAtMostPlan | merger_engine.py:350-372 | The size-only estimate never exceeds the number of batches the merge loop plans |
| Batching.EstimateMatchesPlan | merger_engine.py:366 | When every size is positive and every word count is 0, the estimate equals the number of planned batches |
| Batching.EstimateMissesWordCap | merger_engine.py:429 | Two small files of 30000 words each: the estimate is 1 batch, but the loop plans 2 because of the word cap |
| Batching.EstimateMissesZeroSize | merger_engine.py:366 | A zero-byte file followed by an oversize one: the truthiness test gives an estimate of 1, but the loop plans 2 |
| Batching.ThreeOversizePairs | tests/pdf_merger_test.py:67-83 | Three 700-byte files against a 1024-byte cap: the estimate and the plan are both 3 batches |
| Merging.PdfOutcome | merger_engine.py:645-712 | A PDF adds pages exactly when it records no warning; any warning it records names that file |
| Merging.DocxOutcome | merger_engine.py:963-1058 | A Word document adds at most one part, adds one exactly when it records no warning, and any warning names the file |
| Merging.FileOutcome | merger_engine.py:668-712 | For either kind, a file contributes exactly when it records no warning |
| Merging.SaveBatch | merger_engine.py:608-744 | Finalising a batch returns the batch's output (if any) and its warnings, and when saved, the contributing files mapped through the source map and de-duplicated |
| Merging.RecordSources | merger_engine.py:732-737 | The loop that fills `output_to_sources` builds the mapped, de-duplicated list of contributors |
| Merging.EachFileAddsOrWarns | merger_engine.py:668-712 | Every file of a batch either contributes or records one warning; the batch total is 0 exactly when nothing contributes |
| Merging.SavedIffContributor | merger_engine.py:716-725 | No output is written exactly when no file contributed, and then the batch's last warning is the empty-batch warning |
| Merging.DedupSpec | merger_engine.py:732-737 | The de-duplicated list holds exactly the input values, each once |
| Merging.DedupPrefix | merger_engine.py:732-737 | De-duplication keeps first-seen order: de-duplicating a prefix gives a prefix of the result |
| Merging.SourcesAreMappedContributors | merger_engine.py:732-737 | The recorded sources are exactly the images of the contributors under the source map, with no repeats |
| Merging.BatchFileNameInjective | merger_engine.py:728-729 | Different batch numbers give different output file names |
| Merging.ReadFile | merger_engine.py:411-426 | A file's size is its stat size, or the cap when stat fails (which records a warning); its word count is that of its text |
| Merging.SaveAndRecord | merger_engine.py:429-447 | Saving a closed batch appends its output, its source list and its warnings to the running results |
| Merging.CloseBatch | merger_engine.py:429-447 | Closing the running batch saves it and resets the batch, sizes and counters while keeping the loop state |
| Merging.AddFile | merger_engine.py:428-462 | One loop step closes the batch if needed, adds the file and records the word-cap warning, matching one step of the plan |
| Merging.SaveRemaining | merger_engine.py:465-478 | After the loop, a non-empty running batch is saved; the outputs, sources and warnings are those of the complete plan |
| Merging.MergeSorted | merger_engine.py:405-480 | Over sorted files, the merge loop writes the outputs and sources of the greedy plan and records the warnings `MergeWarnings` lists, in order |
| Merging.MergeFiles | merger_engine.py:374-480 | `merge_pdfs`/`merge_docx` sort their input, then behave as `MergeSorted` on it |
| Merging.OutputsNumbered | merger_engine.py:444-447 | Every output is the batch file name of some batch number between 1 and the number of batches |
| Merging.OutputsDistinct | merger_engine.py:429-478 | The outputs of one merge are pairwise distinct and no more numerous than the batches |
| Merging.MergeWarningsContents | merger_engine.py:411-478 | The merge's warnings are, as a multiset, the stat warnings, the word-cap warnings and the warnings of saving every planned batch |
| Merging.EstimateBatchCount | merger_engine.py:350-372 | The estimator loop sorts the files and computes the size-only tally with the cap substituted for failed stats |
| Merging.EstimateAgainstMerge | merger_engine.py:350-480 | The estimate never exceeds the batches the merge plans for the same files, and equals it when all sizes are positive and no file has words |
| ZipPaths.SafeMemberPathAccepts | merger_engine.py:1300-1320 | A member name is accepted exactly when it is non-empty, has no leading `/` or drive letter after backslash normalisation, no `..` segment, and some segment other than empty or `.` |
| ZipPaths.SafeMemberPathShape | merger_engine.py:1310-1325 | An accepted name keeps exactly the remaining segments in order (plus a trailing `/` if there was one), none empty, `.` or `..`, with no backslash and no leading `/` |
| ZipPaths.DriveAfterDotKept | merger_engine.py:1307 | A drive-letter name behind `./` is accepted unchanged, since the drive test looks only at the start |
| ZipPaths.TruncateShortUnchanged | merger_engine.py:1328-1340 | A name within the limit, or any name when the limit is not positive, is returned unchanged |
| ZipPaths.TruncateBounds | merger_engine.py:1328-1340 | The result is a prefix of the base of the allowed length followed by the extension; with the extension counted, the result fits the limit |
| ZipPaths.UniquePath | merger_engine.py:1342-1375 | The counter loop computes `UniqueName`: the candidate if unused, otherwise the first free renumbered candidate, or an error |
| ZipPaths.UniqueNameSpec | merger_engine.py:1342-1375 | A returned name is unused; it is flagged as renamed exactly when the candidate was taken; it is the smallest free counter's name; an error comes exactly when counters 1 to 99999 are all taken |
| ZipPaths.RenumberedSameDirectory | merger_engine.py:1352-1371 | A renumbered candidate stays in the candidate's directory, with a leaf that has no `/` and keeps the extension |
| ZipPaths.RenumberedLeafBound | merger_engine.py:1359-1368 | With the extension counted and room for the suffix, a renumbered leaf fits the length limit |
| ZipExtract.VisitEntry | merger_engine.py:1409-1499 | One member: the ratio test, the budget test, unsafe-name skip, directory skip, then naming and copying, as in `EntryStep` |
| ZipExtract.PlaceEntry | merger_engine.py:1454-1474 | Naming a member: leaf truncation, the candidate path, then collision renumbering |
| ZipExtract.SettleEntry | merger_engine.py:1466-1476 | Counting the member, reserving its unique name and counting a rename; a failed renumbering aborts the archive |
| ZipExtract.WriteEntry | merger_engine.py:1476-1499 | Copying a member: a failed copy records a warning; a copied `.zip` goes to the nested list, anything else to the extracted files |
| ZipExtract.ScanEntries | merger_engine.py:1409-1499 | The member loop computes the fold of `EntryStep` over all members |
| ZipExtract.ScanHalts | merger_engine.py:1411-1412 | Once the budget is exceeded or the archive failed, no later member changes the scan |
| ZipExtract.ExtractArchive | merger_engine.py:1377-1548 | `extract_archive` returns the statistics and warnings of `Extract`, including recursion into nested archives |
| ZipExtract.SkipNested | merger_engine.py:1536-1546 | At the depth limit, each nested archive increments the skipped-by-depth counter and records one depth warning |
| ZipExtract.ExtractAllNested | merger_engine.py:1511-1535 | Below the depth limit, each nested archive is extracted one level deeper into its own folder, and its statistics are added to the parent's |
| ZipExtract.StepSound | merger_engine.py:1409-1499 | One member step keeps the scan invariant: bytes within budget, one budget warning exactly when exceeded, names counted and distinct, no `.zip` among extracted files |
| ZipExtract.ScanSound | merger_engine.py:1409-1499 | The scan invariant holds after any number of members |
| ZipExtract.ExtractUnopened | merger_engine.py:1500-1509 | An archive that cannot be opened counts one failure, no extraction, no files, and records one failure warning |
| ZipExtract.ExtractAtDepthLimit | merger_engine.py:1536-1546 | At the depth limit no nested archive is extracted; each is counted as skipped and has one depth warning |
| ZipExtract.ScanWithinBudget | merger_engine.py:1400-1435 | With a positive budget, the copied bytes never exceed it; the first overrun records exactly one budget warning and stops the loop |
| ZipExtract.ScanNamesDistinct | merger_engine.py:1437-1499 | Every member is either named once in the used set, skipped as unsafe or the failing one; extracted files and nested archives together are the extracted members |
| ZipExtract.ExtractFilesNotZip | merger_engine.py:1496-1499 | No extracted file of any call, nested or not, ends in `.zip` |
| Folders.AnalyzeStructure | merger_engine.py:1253-1293 | The groups are exactly those that the top-down walk assigns to some file, each holding that group's files in walk order |
| Folders.FilesOfEmpty | merger_engine.py:1291 | A group gets files exactly when some walked file has that group |
| Folders.WalkAvoidsExcluded | merger_engine.py:1260-1276 | No grouped file lies below an excluded directory |
| Folders.WalkKeepsGroup | merger_engine.py:1282-1291 | Below a top-level folder, every file is grouped under that folder's name |
| Folders.AnalyzeGroups | merger_engine.py:1267-1291 | An excluded root yields nothing; otherwise the root's own files come first under `root`, and every group is `root` or a top-level folder name |
| Folders.TopLevelGroups | merger_engine.py:1289 | The files walked from the first n subfolders are grouped under one of those folders' names |
| ZipGroups.ReplaceRunsAllowed | merger_engine.py:2014 | Replacing runs of disallowed characters leaves only `[A-Za-z0-9_-]`, changes nothing in a clean string and never lengthens it |
| ZipGroups.SanitizeShape | merger_engine.py:2013-2015 | A sanitised component is non-empty, uses only `[A-Za-z0-9_-]`, and neither starts nor ends with `_` |
| ZipGroups.SanitizeKeepsClean | merger_engine.py:2013-2015 | A component that already has that shape is returned unchanged |
| ZipGroups.SanitizeIdempotent | merger_engine.py:2013-2015 | Sanitising twice is the same as sanitising once |
| ZipGroups.AllocateZipGroupName | merger_engine.py:2018-2036 | The counter loop computes `ZipGroupName` |
| ZipGroups.ZipGroupNameSpec | merger_engine.py:2024-2036 | The name is the base if free, else the base with the smallest free counter from 2; it is never among the used names; an error comes exactly when counters 2 to 99999 are all used |
| ZipGroups.ZipGroupNameFresh | merger_engine.py:2028-2034 | An allocated name is never already used |
| ZipGroups.NumberedInjective | merger_engine.py:2032 | Different counters give different candidate names |
| Expansion.ExactlyOneKind | merger_engine.py:2133-2135 | A file is supported exactly when it is a PDF, a Word document or an email, and it is at most one of those |
| Expansion.FilterPartition | merger_engine.py:2066-2067 | Splitting a list by a predicate and its negation loses and duplicates nothing |
| Expansion.NotAmongSupported | merger_engine.py:1760-1761 | The files not among the supported ones are exactly the unsupported files, in order |
| Expansion.SplitGroupPartitions | merger_engine.py:1760-1807 | Supported and unsupported files partition the group; the PDF, Word and email lists partition the supported files by kind |
| Expansion.MergeZipStats | merger_engine.py:2039-2050 | Adding one extraction's statistics leaves the archives-found counter untouched |
| Expansion.ExpandZipArchive | merger_engine.py:2077-2128 | Expanding one archive allocates a group name, weighs it once, extracts, and records the files or an empty-archive warning, as in `ExpandZip` |
| Expansion.ExpandGroupFiles | merger_engine.py:2064-2128 | Expanding one group keeps its non-archive files and either weighs its archives or expands each, as in `ExpandGroup` |
| Expansion.PrepareGroupsWithZipExpansion | merger_engine.py:2052-2130 | Preparing all groups in sorted order computes `Prepare` |
| Expansion.ExpandZipSound | merger_engine.py:2077-2128 | Expanding one archive keeps the preparation invariant and adds exactly one unit of weight |
| Expansion.ExpandGroupSound | merger_engine.py:2064-2128 | Expanding a group keeps the invariant and adds exactly one unit of weight per input file |
| Expansion.PrepareSound | merger_engine.py:2052-2130 | After preparation, every input group name stays reserved, no expanded group holds a `.zip`, archive groups are new names, and the total weight is the number of input files |
| Expansion.PrepareWithoutArchives | merger_engine.py:2073-2075 | With ZIP handling off, preparation cannot fail; weights are the group sizes; nothing is extracted and the summary and warnings are unchanged |
| Expansion.PrepareContents | merger_engine.py:2064-2121 | After preparation, an input group is kept exactly when it has non-archive files and then holds them in sorted order; every archive group with metadata holds the non-empty files extracted from its archive into its extraction root; there are no other groups |
| Expansion.ExpandGroupContents | merger_engine.py:2064-2071 | Expanding a group not reached before fills in that group's entry with its non-archive files, when it has any, and touches no other input group |
| Expansion.ExpandZipContents | merger_engine.py:2077-2121 | Expanding one archive adds at most one group, under a fresh name, holding the files extracted from that archive |
| Expansion.PrepareWithoutArchivesGroups | merger_engine.py:2064-2075 | With ZIP handling off, the groups to merge are exactly the input groups with non-archive files, each holding those files in sorted order |
| Expansion.PrepareArchivesFound | merger_engine.py:2064-2078 | `archives_found` grows by exactly the number of archives in the input groups when ZIP handling is on, and is unchanged when it is off |
| Ledger.WarningSource | merger_engine.py:2365-2371 | A warning's source, when it has one, is non-empty |
| Ledger.Stage | merger_engine.py:2363 | The stage is the code up to its first `_`, or the whole code when it has none |
| Ledger.CollectFileOutcomes | merger_engine.py:2348-2389 | The loop returns the first occurrences of the warning outcomes, split into the non-skip and skip codes, in order |
| Ledger.OutcomesSpec | merger_engine.py:2360-2378 | The outcomes are exactly those of the warnings that have a source |
| Ledger.FirstOccurrencesSpec | merger_engine.py:2379-2382 | Keeping first occurrences keeps every value, each once, and never lengthens the list |
| Ledger.OfKindSpec | merger_engine.py:2384-2387 | Selecting by skip code keeps exactly the matching outcomes; the two selections together are as long as the input |
| Ledger.CollectFileOutcomesSpec | merger_engine.py:2348-2389 | Failed and skipped together are exactly the sourced outcomes; skipped holds only skip codes and failed none; both are repeat-free; together they are no more numerous than the warnings |
| Ledger.LeafNameIsArchiveTruncation | merger_engine.py:2165-2170 | The orchestrator's leaf truncation agrees with the archive one when the extension counts toward the limit |
| Ledger.EnsureUniqueDestination | merger_engine.py:2185-2194 | The counter loop computes `UniqueDestination` |
| Ledger.UniqueDestinationSpec | merger_engine.py:2185-2194 | A returned path does not exist; a free path is returned unchanged; otherwise the smallest free counter from 1 is used; an error comes exactly when counters 1 to 99999 all exist |
| Ledger.NumberedDestinationLeaf | merger_engine.py:2188-2191 | A numbered destination's leaf is the base, `_`, the counter and the extension |
| Ledger.PlaceArtifactSpec | merger_engine.py:2296-2344 | One failed file gets a status consistent with the settings and its source; a warning is recorded exactly for a failed copy; a created copy is a new file |
| Ledger.MaterializeSpec | merger_engine.py:2291-2345 | Every processed file's artifact is consistent; one warning is recorded per failed copy; with artifacts off or metadata only, nothing changes on disk |
| Ledger.MaterializeCopiesFresh | merger_engine.py:2312-2321 | With `copy`, every created artifact is a new, distinct file that did not exist before, and nothing else on disk changes |
| Ledger.MaterializeStops | merger_engine.py:2315 | After an allocation failure, no later file is processed |
| Ledger.MaterializeStep | merger_engine.py:2296-2344 | Processing one more file extends the pass by that file's placement, or stops it at its failure |
| Ledger.AnnotateStep | merger_engine.py:2297-2334 | Annotating one more file changes only that file's record, to its action, status and destination |
| Ledger.FailedFile.constructor | merger_engine.py:2373-2378 | A fresh record has its source and stage and no artifact fields |
| Ledger.PlaceFailedFile | merger_engine.py:2296-2344 | Handling one record sets its action, its status and its destination from the file's placement |
| Ledger.MaterializeFailedArtifacts | merger_engine.py:2281-2345 | Returns the count of created artifacts, the new disk and the warnings, or the allocation error; each record is annotated with its own placement and the rest are untouched |
| Capacity.EnsureOutputCapacity | merger_engine.py:2498-2514 | The check fails exactly when the required count is positive and more than the slots that remain |
| Capacity.EmailOutputsWithinLimit | merger_engine.py:2746-2750 | Email batches are checked against the exact plan length, so the outputs written stay within the limit |
| Capacity.PdfEstimateNoLargerThanPlan | merger_engine.py:1812-1817 | Whenever the exact plan length would pass the check, the estimate passes it too |
| Capacity.PdfOutputsMayExceedLimit | merger_engine.py:1812-1817 | Two word-heavy PDFs pass the check with one slot left, yet the merge writes two outputs |
| Capacity.PdfOutputsWithinLimitWithoutWords | merger_engine.py:1812-1817 | When every PDF has a positive size and no words, passing the check bounds the outputs by the limit |
| Email.ReplyTagLength | merger_engine.py:1185 | The matched prefix is empty, or `RE`, `FW` or `FWD` in any case followed by `:` |
| Email.NormalizeSubjectWords | merger_engine.py:1179-1187 | The normalised subject is the words after at most one reply prefix, joined by single spaces and lowercased |
| Email.NormalizeReply | merger_engine.py:1185-1187 | After a reply prefix the subject is the normalised words of the rest; when the rest carries no prefix of its own this is the rest's normalised subject, and a second prefix behind a space is kept |
| Email.ThreadKey | merger_engine.py:1224-1225 | The thread key is never empty: an empty normalised subject falls back to `no_subject_` and the path |
| Email.SortByDateSpec | merger_engine.py:1229-1230 | Sorting orders by date, keeps the same emails, and keeps the input order among emails with the same date |
| Email.SortMixedDates | tests/email_threading_test.py:31-38 | Missing dates come first in input order, then dated emails ascending |
| Email.GroupEmails | merger_engine.py:1211-1232 | The grouping loop builds `Threads(emails)` |
| Email.GroupEmailsSpec | merger_engine.py:1211-1232 | Every email is in the thread of its key and no other; every thread is non-empty, comes from some email, is sorted by date and stable within a date |
| Email.RenderEmailEntryShape | merger_engine.py:2553-2591 | An entry starts with its `EMAIL i of n` heading line and ends with a rule of 80 `=` and a line break |
| Email.ThreadBlockWords | merger_engine.py:2593-2614 | The words of a thread block are the words of its header lines followed by those of its entries |
| Email.Utf8Length | merger_engine.py:2695 | The UTF-8 length of a text lies between its length and four times its length |
| Email.RenderThreadItems | merger_engine.py:2693-2706 | The block loop renders every thread in key order with its size and word count |
| Email.PlanEmailBatches | merger_engine.py:2708-2744 | The planning loop computes the greedy plan and records a byte-cap and a word-cap warning for each oversize block |
| Email.CapWarningsSpec | merger_engine.py:2723-2742 | There is one byte-cap warning per block over the byte cap and one word-cap warning per block over 50000 words, and no others |
| Email.WriteBatches | merger_engine.py:2752-2800 | The writing loop produces the batch files, their texts and each batch's thread list |
| Email.WriteEmailBatches | merger_engine.py:2680-2800 | `_write_email_batches` returns the planning warnings and either the capacity error or the written batches |
| Email.WriteEmailBatchesSpec | merger_engine.py:2746-2800 | The call fails exactly when there are threads and the plan would pass the output limit; on success the outputs stay within the limit |
| Email.WrittenSpec | merger_engine.py:2752-2800 | One file per batch, pairwise distinct; the thread lists together name every thread once, in key order, with its email count |
| Email.EmailBatchFileInjective | merger_engine.py:2756 | Different batch numbers give different email batch file names |
| Email.RefsOfBatches | merger_engine.py:2775-2781 | The per-batch thread lists, concatenated, list the planned blocks in order |
| Scanner.PrintableText | merger_engine.py:906-918 | The byte loop builds the printable runs longer than three, joined by line breaks |
| Scanner.OleText | merger_engine.py:890-922 | There is no fallback text exactly when every kept run is blank; otherwise the text is a piece of the joined runs that has all of their words, only printable characters, and no whitespace at either end |
| Scanner.ChunksShape | merger_engine.py:909-917 | Every kept run is longer than three characters and printable |
| Scanner.ChunksOfRun | merger_engine.py:909-918 | A stream that is all printable is kept whole when longer than three bytes, and dropped otherwise |
| Scanner.ChunksSplit | merger_engine.py:912-915 | A non-printable byte splits the scan: the runs of the whole stream are those of each side |
| Text.StripSpec | merger_engine.py:920 | `strip()` keeps a contiguous piece with the same words and no whitespace at either end, and is empty exactly when there are no words |
| Text.WordsOfLines | merger_engine.py:2600-2614 | Lines joined by line breaks have exactly the words of the lines, in order |
| Text.CollapseStripIsJoinedWords | merger_engine.py:1186 | Collapsing whitespace runs and stripping gives the words joined by single spaces |
| Text.ParseNatToString | merger_engine.py:1358 | The decimal numeral of a counter reads back as that counter |
| Text.NatToStringInjective | merger_engine.py:1358 | Different counters have different numerals |
| Paths.Splitext | merger_engine.py:1332 | The base and extension concatenate to the name; the extension is empty or a dot with no further dot or `/`; leading dots of the leaf do not start an extension |
| Paths.Basename | merger_engine.py:2312 | The base name has no `/` and ends the path |
| Paths.PathSplit | merger_engine.py:2188 | The leaf part of a split is the base name |
| Paths.JoinSplit | merger_engine.py:1352-1354 | Joining the parts of a split with the separator gives back the string |
| Order.SortedKeys | merger_engine.py:2693 | The sorted listing of a set is ordered, repeat-free and holds exactly the set's elements |
| Order.SortedListingUnique | merger_engine.py:2064 | Two ordered, repeat-free listings of the same elements are equal |
| Order.SortStrings | merger_engine.py:403 | Sorting gives an ordered permutation of the input |

## Left out

- The format libraries (pypdf, PIL, python-docx, olefile, extract_msg, the `email` parser) are replaced by oracles. The oracles give each file's stat size, text and pages-added outcome, and each email's parsed record. Page and element copying, and the text extractors, are not modelled.
- Date parsing and timezone conversion in `normalize_date` are not modelled. A date is an `Option<int>`, with `None` as the minimum.
- `WordToPdfConverter` is not modelled: it uses COM automation and a watchdog thread. The conversion path of `_save_pdf_batch` is part of the pages-added oracle.
- The temporary-directory registry, its `atexit` hook and lock, and `_make_writable_temp_dir` are not modelled. A failing temporary folder is an oracle of the environment in `expansion.dfy`.
- `RunLogger`, the manifest, `print` output and output file sizes (`getsize`) are not modelled. Neither are `os.walk` (replaced by a `Folder` tree), `shutil` copy and move (a copy-success oracle) and the Windows long-path helpers.
- The float `round(ratio, 1)` stored in the ratio warning is not modelled; the integer form `file_size > 100 * max(compress_size, 1)` of the test is.
- Paths follow POSIX rules only; `abspath`, `normcase` and `normpath` are the identity. `lower()` folds ASCII letters only.
- Directory creation (`os.makedirs`) is assumed to succeed. The random name of a nested-archive folder comes from an oracle.
- Warning records keep their code, message, file, archive, entry and destination. The other context keys (sizes, limits, error text) are dropped.
- The relocation of unsupported files (`_relocate_unsupported_files`) and the cancel event are not modelled; the model only splits off the unsupported files.
- The threaded email output mode (`_write_email_outputs`, `_write_email_threads`) and `_prepare_email_threads` are not modelled; only the batch mode is.
- An email entry whose rendering raises an exception is not modelled; every entry renders.
- The `(no subject)` fallback of `_render_thread_block` is modelled in `Email.ThreadHeader`, but `ThreadKey` never yields an empty key, so the fallback cannot be reached from `GroupEmails`.
- When `_allocate_zip_group_name` raises, the source leaves the summary (`archives_found` already incremented) and the warning list mutated in place. The model's `Err` result of `ExpandZip`, `ExpandZips`, `ExpandGroups` and `Prepare` keeps no partial state. Only the manifest, which is not modelled, would read that state.
- `document_merger_gui.py` (a Tk interface on a background thread) and `build_exe.py` (a PyInstaller wrapper) are not part of this model.
- MaterializeFailedArtifacts: requires the failed-file records to be distinct objects, because the in-place annotation of one record aliasing another is not modelled.
- Capacity.EnsureOutputCapacity: the error message keeps the context but not the required and remaining counts.
