# Distributed log query engine: a verified model

A Dafny model of the engine's core: how a node stores, indexes and queries log entries, how it merges and expires segments
while crashes and queries happen, how a coordinator turns many nodes into one paged answer and caches it, how cluster metadata
assigns shards, and how a replica catches up with its primary.

The imperative parts of the program are classes and methods with loops, each proved against a specification function; the main
results are lemmas about those functions, for every input, every run of events or every reachable state.

| files | what they model |
|---|---|
| `Ordering`, `Entries`, `Text`, `Names` | sorting, the result order, deduplication, paging, tokenizing, segment names |
| `Parser`, `Grammar`, `Printer` | the query language: the parser with its cursor, the documented grammar, and printing |
| `Index`, `Executor`, `Meaning` | the in-memory index, local query execution with bloom pruning, and what queries select |
| `Store`, `Merging`, `Filters`, `Runs` | segments, rotation, recovery, merges, retention and bloom sidecars as values, and whole histories with crashes |
| `Compaction`, `Passes`, `Manager`, `Compactor`, `Node`, `Lifetime` | what merges and retention do to the directory change by change, the manager and the compactor that make exactly these changes, one node, and its life with crashes and restarts |
| `Sizes` | segment sizes in bytes, and the size limit over a node's life |
| `Interleaving`, `Repeats`, `Misses` | queries that overlap the steps of merges and retention, and exactly when they read an entry twice or miss it |
| `Records` | record framing on disk and on the transfer stream |
| `Coordinator`, `Window`, `FanOut` | merging the nodes' answers, the int32 window, the fan-out executor |
| `Cache`, `QueryCache`, `CacheKey` | the LRU and TTL cache as a list, as linked nodes, and its keys |
| `Assignment`, `Membership`, `Metadata`, `Cluster` | shard assignment as a function of the healthy nodes, what a command log says about each node, the state machine that computes both, and queries of the cluster it describes |
| `CatchUp` | watermark catch-up of a replica |

## Assumptions

- An entry ID names one record (`IdsIdentify`), as both deduplications rely on.
- One append of a record, one file creation, rename or removal, and one write of a sidecar or marker are each atomic, and durable
  in order. The manager records every change of the directory; a crash leaves it after any number of them.
- Strings are ASCII. Bloom filters are sets without false negatives. SHA-256, JSON and protobuf are injective.
- A segment path stands for its sequence number; `Names.NamesSortByNumber` shows that the file names sort the same way.
- Clocks, arrival orders, map iteration orders, failing nodes, cancellation, unreadable files, failing reads, writes and renames
  of a merge, and the bloom setting at each start are arbitrary inputs.

## Where the code and its description differ

- A query that requires a custom field can lose matches to bloom pruning, because filters never hold custom field values.
- `offset + limit` is int32 arithmetic: distributed paging is right exactly when the sum fits.
- A lone `)` is accepted as a search term, and `:`, `level:` or `a:b:c` as a field term.
- A cache with `maxSize` 0 or less still keeps one entry. Requests with `|` in a text field can share a cache key.
- With filters enabled, a crash between the merge's rename and its sidecar write can leave a sidecar that misses tokens. Queries still
  find everything, because the merged-away files are still there; but once retention drops one of them, an entry older than the
  cutoff can be on disk and hidden.
- A merge with filters off leaves the first segment's old sidecar beside the merged file. A later start with filters on loads it,
  and entries can be hidden without any crash or retention.
- Removing a run from the index before the rename does not keep repeats out of a query that resolved earlier; the executor's
  deduplication does.
- Catch-up appends an entry as often as the primary's log repeats it, because the IDs appended in the loop are not added to the
  known ones; a crash in a merge can leave such a repeat in the primary's log.
- A query between an append and its index update finds the entry only if the rest of its segment is a candidate.
- An entry that retention drops from the replica alone can come back with the next catch-up; one that it drops from the primary alone
  stays on the replica.
- A failed append in a catch-up is skipped and the loop goes on; if a later entry is then appended, the skipped one is never asked for
  again.
- A replica that live replication made skip an entry never gets that entry from entry-level catch-up.

## Model

| member | source | states |
|---|---|---|
| Ordering.Sort | internal/query/executor.go:215-220 | the contract of Go's sort: a permutation without inversions, no promise on ties |
| Ordering.StringLessIff | internal/query/executor.go:219 | the string order: smaller at the first differing character, or a proper prefix |
| Names.NamesSortByNumber | internal/storage/manager.go:25 | zero-padded names of 64-bit numbers are distinct and sort as strings exactly as the numbers do |
| Text.Tokenize | internal/query/executor.go:21-30 | splitting on separator runs and dropping empty pieces gives exactly the maximal alphanumeric words of the lowercased text |
| Text.PiecesAreWords | internal/index/index.go:45-55 | the non-empty pieces between separators are the words, for every text and separator class |
| Text.WordsExactly | internal/query/executor.go:21-30 | a string is a word of the text if and only if it is a maximal run without separators, for every separator class |
| Text.TokensLower | internal/query/executor.go:17-30 | every token is non-empty and lower-case already |
| Entries.SortedIsRank | internal/query/executor.go:215-220 | any sort of a list without repeated IDs by time descending, ID ascending, is the one ranking of its entries; `Entries.RankInOrder` says what its order is |
| Entries.RankInOrder | internal/query/executor.go:215-220 | in the ranking and in each of its pages, of any two entries the first has the greater timestamp, or the same and the smaller ID; stated without the order that sorts |
| Entries.DedupAbsorbs | internal/query/executor.go:182-193 | entries whose IDs occurred earlier can be cut out anywhere without changing the deduplicated list |
| Entries.PagesTile | internal/query/executor.go:222-236 | n successive pages are together the first n times limit entries: no gap, no repeat |
| Parser.Lex | internal/query/parser.go:133-143 | tokens are the words of the query with spaces put around brackets |
| Parser.QueryParser.ParseOr | internal/query/parser.go:72-86 | from the cursor, the loop returns what the or-level function gives, and moves the cursor past it |
| Parser.QueryParser.ParseAnd | internal/query/parser.go:88-102 | the same for the and-level |
| Parser.QueryParser.ParseAtom | internal/query/parser.go:104-130 | the same for atoms, with the three error cases |
| Parser.Parse | internal/query/parser.go:38-52 | for every query: nil for blank input, the AST, or the error, as the parsing function says; `Grammar.ParsesIffDerivable`, `Grammar.MistakesTold`, `Meaning.BlankIff` and `Meaning.SpacesIgnored` say what that is |
| Meaning.BlankIff | internal/query/parser.go:38-42 | a query parses to no AST if and only if all its characters are white space |
| Meaning.SpacesIgnored | internal/query/parser.go:38-42 | any white space before and after a query leaves its result, AST or error, as it is |
| Grammar.ParsesIffDerivable | internal/query/parser.go:30-52 | a token list parses to an AST if and only if it has a derivation whose left-associated meaning, AND tighter than OR, is that AST |
| Grammar.MistakesTold | internal/query/parser.go:47-130 | for every accepted token list: any token but an operator after it is reported as unexpected, with its place; a bracket before it as unclosed; no token at all as an unexpected end; a leading operator as unexpected |
| Meaning.JoinedParses | internal/query/parser.go:72-130 | two queries that parse, bracketed and joined by OR or AND, parse to the OR or AND of their ASTs |
| Grammar.DocumentedIff | internal/query/parser.go:30-37 | the documented language is exactly the accepted token lists with equally many closing and opening brackets in which every colon is the only one of its token and has text on both sides |
| Grammar.FieldTermIff | internal/query/parser.go:36-37 | a token is two identifiers around a colon if and only if it has exactly one colon, neither first nor last |
| Grammar.StrayBracketAccepted | internal/query/parser.go:104-130 | a lone closing bracket is accepted though the documented grammar excludes it |
| Grammar.BareColonAccepted | internal/query/parser.go:125-128 | so is a colon without text around it |
| Grammar.TwoColonsAccepted | internal/query/parser.go:125-128 | and so is every token with two colons: the first one splits it |
| Printer.PrintParses | internal/query/parser.go:38-143 | printing with brackets, lexing and parsing returns the AST, for every AST with writable leaves |
| Printer.ParseImage | internal/query/parser.go:38-143 | an AST is writable if and only if some query parses to it, and if and only if its own printed form does |
| Index.Index.constructor | internal/index/index.go:34-41 | a new index describes no segments |
| Index.Index.Add | internal/index/index.go:59-95 | keeps all four maps in exact agreement with the contents, now extended by the entry |
| Index.Index.RemoveSegment | internal/index/index.go:181-203 | agreement with the contents without that path, whatever the map order |
| Index.Index.Resolve | internal/index/index.go:100-170 | returns, sorted, exactly the segments that hold every token, the namespace, the service and overlap the time range |
| Index.Index.RebuildFromSegments | internal/index/index.go:208-219 | succeeds if and only if all paths exist and can be read, and then agrees with the listed files |
| Index.AgreementDetermines | internal/index/index.go:59-95 | two indexes that agree with the same contents are equal in all four maps |
| Index.RemovedLeavesNoTrace | internal/index/index.go:181-203 | a removed path is in no map, and no posting set is empty |
| Executor.BloomMissExactly | internal/query/executor.go:80-92 | with a matching entry in the segment, the filter drops it if and only if it lacks the value of a required custom field |
| Meaning.RuledOutIff | internal/query/executor.go:80-92 | a filter rules a segment out if and only if it lacks a term, or the small-lettered value of a field, that stands in the query under ANDs only |
| Executor.BloomNeverLoses | internal/query/executor.go:80-92 | without required custom fields no matching segment is dropped, for every filter that holds the segment's tokens |
| Executor.BloomLosesCustomField | internal/storage/manager.go:265-277 | a segment, matching entry and custom field query whose own filter drops the segment |
| Executor.HarmlessIffCovered | internal/query/executor.go:80-92 | filters hide no match of any query without required custom fields if and only if every entry is in some segment whose filter, if any, holds all its tokens |
| Executor.RequiredTokens | internal/query/executor.go:96-113 | every token sent to the index occurs in every matching message |
| Meaning.LookedUpIff | internal/query/executor.go:96-113 | a token is looked up in the index if and only if its term stands in the query under ANDs only |
| Executor.ReadSegmentsOr | internal/storage/read.go:60-73 | concatenates the segments in order, skips missing files, and fails if and only if an existing file cannot be read |
| Executor.ReadSegments | internal/storage/read.go:60-73 | the same when every file can be read |
| Executor.DedupInPlace | internal/query/executor.go:182-193 | compacts the array in place to the first entry of every ID, in order |
| Executor.Filter | internal/query/executor.go:195-213 | keeps, in order, exactly the entries that pass namespace, service, AST and time tests; the `Meaning` rows say which these are |
| Executor.PageLength | internal/query/executor.go:135-137 | a page has as many entries as the limit, or 100 if it is 0, or as many as the offset leaves |
| Meaning.TermSelects | internal/query/executor.go:52-54 | an entry matches a term if and only if some maximal run of letters and digits of its message is that term in small letters |
| Meaning.FieldSelects | internal/query/executor.go:61-76 | an entry matches a field term by its own fields: level up to case, service and namespace exactly, message by a word, any other name by the entry's own field of that very name, a missing one being empty; which kind it is depends on the name up to case |
| Meaning.OperatorsSelect | internal/query/executor.go:48-51 | in every set of entries OR selects the union of what its operands select, AND the intersection |
| Meaning.RequestSelects | internal/query/executor.go:195-213 | a request selects by namespace and service, if given, by the times, if positive, and by the query, if there is one |
| Executor.Execute | internal/query/executor.go:129-243 | negative limit or offset, early cancellation and parse error in their order; past these the segments read are exactly the sorted candidates that the filters let through, and the outcome is a read failure if one of them cannot be read, late cancellation, or the page and int32 total of their ranked survivors, newest first and by ID among equal times |
| Executor.ExecuteIsFullScan | internal/query/executor.go:129-243 | when the index describes the disk, possibly with paths of deleted files, the answer is the full scan of all segments the filters let through, and of the whole disk when filters are off or cover every entry |
| Meaning.JoinedAnswers | internal/query/executor.go:129-243 | over any set of entries, without paging, the entries answered to two queries joined by OR are exactly those answered to either, and joined by AND those answered to both |
| Meaning.AskJoined | internal/query/executor.go:129-243 | the same of four runs of the local executor, on any disk that the index describes |
| Store.RestartExact | internal/storage/manager.go:54-117 | restarting between operations restores files, active segment and log exactly, also when earlier rotation crashes left empty segments out of order |
| Store.AppendExact | internal/storage/manager.go:158-193 | an append, rotating or not, adds exactly the entry at the end of the log |
| Store.RotateCrashKeepsLog | internal/storage/manager.go:216-256 | from the directory after the sidecar write, after creating the new segment and after marking it, restart finds a quiet store with the same log |
| Store.FirstSegmentCrash | internal/storage/manager.go:107-110 | the same for a first start that is cut short before the marker write |
| Merging.MergeExact | internal/storage/compaction.go:98-209 | a complete merge of any run of closed segments leaves the log as it is |
| Merging.MergeCrashSafe | internal/storage/compaction.go:149-208 | after the rename and any number of deletes, restart sees the same entries, and the same log once repeats are dropped |
| Merging.RetentionDropsOld | internal/storage/compaction.go:212-240 | dropping any of the expired segments leaves a subsequence of the log that misses only entries older than the cutoff |
| Runs.LogIsAppendSequence | internal/storage/manager.go:158-256 | after any history of appends, merges, restarts and crashes anywhere in rotations the log is the append sequence |
| Runs.CrashesOnlyRepeat | internal/storage/compaction.go:98-209 | with crashes anywhere in merges as well, still the append sequence once repeated IDs are dropped, and the same entries |
| Runs.LogIsSubsequence | internal/storage/compaction.go:67-240 | with retention and rotation crashes, a subsequence of the appends |
| Runs.OnlyOutdatedLost | internal/storage/compaction.go:212-240 | in any history with crashes in rotations, merges and retention, only appended entries are in the log, and a missing one is older than a later pass's cutoff |
| Managers.NextSeqFromMatches | internal/storage/manager.go:376-385 | one more than the largest sequence number, or 1; above every sequence number |
| Managers.LoadBlooms | internal/storage/manager.go:120-130 | the filters of exactly the closed segments that have a sidecar, each as the sidecar has it |
| Managers.Manager.constructor | internal/storage/manager.go:54-134 | recovers the store as specified for any directory, loads the closed segments' filters, and makes exactly the specified changes of the directory |
| Managers.Manager.OpenNewSegment | internal/storage/manager.go:216-230 | the next file is listed last and marked active, by exactly these two changes in this order |
| Managers.Manager.Rotate | internal/storage/manager.go:232-256 | closes the active segment, and keeps, of the loaded filters, all others and exactly that of all tokens of its entries for it, if filters are on; the changes are the sidecar write, the new file and the marker, in this order |
| Managers.Manager.AppendWithPath | internal/storage/manager.go:148-193 | the specified append, through exactly the specified changes; the returned path is the segment that holds the entry; `Sizes.NewSegmentIff` says when it is a new one |
| Sizes.SizeConcat | internal/storage/segment.go:36-46 | the size of two lists of entries one after the other is the sum of their sizes |
| Sizes.SizeOne | internal/storage/segment.go:43 | the size of one entry is that of its record |
| Sizes.SizeIsBytes | internal/storage/segment.go:43 | when a record's size is four bytes more than its payload, the size of a segment is the length of its encoded file |
| Sizes.NewSegmentIff | internal/storage/manager.go:179-184 | an append opens a new segment if and only if the bytes of the active file and the record together exceed the limit; the new file then holds that entry alone, and otherwise the active file is longer by it and within the limit |
| Sizes.SegmentsBounded | internal/storage/manager.go:158-193 | in every life of a node without merges, wherever its crashes fall, no segment of two or more entries exceeds the limit |
| Sizes.FilesWithinLimit | internal/storage/manager.go:158-193 | the same in bytes of the file |
| Sizes.MergeBoundedIff | internal/storage/compaction.go:98-209 | a merge keeps that limit if and only if the entries of the run fit into one file within it, or are fewer than two |
| Managers.Manager.ListClosedSegments | internal/storage/manager.go:299-308 | all paths but the active one |
| Managers.Manager.DeleteSegment | internal/storage/manager.go:327-338 | forgets exactly the path and its filter |
| Filters.AppendKeeps | internal/storage/manager.go:232-277 | appends and rotations keep every loaded filter and sidecar a superset of its segment's tokens, and keep every entry findable |
| Filters.AppendCrashKeeps | internal/storage/manager.go:148-256 | cut short after any number of its changes, an append leaves a directory from which restart finds the log without or with the entry, and sidecars that keep both promises |
| Filters.RestartKeeps | internal/storage/manager.go:119-130 | a restart between operations loads filters that keep both promises |
| Compactors.Compactor.MergeRun | internal/storage/compaction.go:98-209 | the changes of the directory are exactly the specified ones, in order; a failed read, write or rename leaves files, list, filters and index as they were and no temp file of its own; otherwise the run is merged, its sidecars and filters are exactly the merged file's, and the index describes the new files |
| Compactors.Compactor.RunMergePass | internal/storage/compaction.go:67-96 | the changes of the directory are exactly the specified ones, in order, and the store becomes the planned one: every maximal run of two or more small closed segments is merged, unless its merge fails; log, index agreement and the filters' promises are kept |
| Passes.PlanSparse | internal/storage/compaction.go:76-95 | without faults, a pass leaves no two neighbouring closed segments that were both below the threshold |
| Passes.MergesOnlySmall | internal/storage/compaction.go:84-95 | whichever merges fail, a segment leaves the list only if it is closed and its file and that of the segment before it are both below the threshold |
| Sizes.MergesShortFiles | internal/storage/compaction.go:84-95 | the same in bytes of the files |
| Passes.MergesAllSmall | internal/storage/compaction.go:76-95 | when no merge fails, the list keeps exactly the segments that are not both closed and small behind a small one, in order |
| Passes.MergeThrough | internal/storage/compaction.go:98-209 | cut short after any number of its changes, whichever fault it meets, a merge has left a merge state; and where it ends |
| Passes.PassSafe | internal/storage/compaction.go:67-209 | cut short after any number of its changes, whichever of its merges fail, a merge pass has left a directory from which restart finds the same entries, the log up to repeats, and sidecars that serve; at its end log, active segment and sidecars are as good as before |
| Passes.RetentionThrough | internal/storage/compaction.go:212-240 | cut short after any number of its changes, a retention pass has left a retention state; at its end exactly the expired closed segments are gone |
| Merging.ExpiredIff | internal/storage/compaction.go:221-227 | a segment counts as expired if and only if some timestamp in it is positive and all are below the cutoff |
| Passes.RetentionDropsIff | internal/storage/compaction.go:212-240 | a retention pass drops a segment, from list and disk, if and only if retention is on, the segment is closed, some timestamp in it is positive and all are below the cutoff; the others keep their entries |
| Compactors.Compactor.RunRetentionPass | internal/storage/compaction.go:212-240 | the changes of the directory are exactly the specified ones, in order; exactly the closed segments whose newest entry is older than the cutoff go, from list, index, disk, sidecars and filters |
| Compaction.CrashAnywhereSafe | internal/storage/compaction.go:98-209 | from every directory state of a merge, restart finds the same entries and the same log up to repeats |
| Compaction.CrashServes | internal/storage/compaction.go:98-209 | from every directory state of a merge, each entry is still in some segment whose sidecar, if any, holds its tokens |
| Compaction.SidecarsAtCrash | internal/storage/compaction.go:149-169 | every sidecar holds all its segment's tokens at every interruption except between rename and sidecar write, and there if and only if the old sidecar covers the merged entries |
| Compaction.WindowLeavesStaleSidecar | internal/storage/compaction.go:149-169 | directories in which a crash there leaves a sidecar that misses a token, while every entry can still be found |
| Compaction.StaleSidecarHides | internal/storage/compaction.go:228-238 | and a retention pass after which such a sidecar hides an entry on disk |
| Compaction.MergeKeepsFilters | internal/storage/compaction.go:164-202 | a complete merge keeps the filters' promises, loaded and stored |
| Compaction.RetentionCrashSafe | internal/storage/compaction.go:228-238 | from every directory state of a retention pass, restart finds a subsequence of the log that misses only entries older than the cutoff, and sidecars that serve from the cutoff on |
| Compaction.DropKeepsFilters | internal/storage/compaction.go:228-238 | a complete retention pass keeps the filters' promises, findability from the cutoff on |
| Compaction.UnfilteredMergeServesIff | internal/storage/compaction.go:164-169 | after a complete merge with filters off, a later start with filters on finds every entry if and only if the sidecar of the run's first segment is missing or holds the tokens of every entry of the run that is not found outside it |
| Compaction.UnfilteredMergeHides | internal/storage/manager.go:100-130 | a family of stores in which such a merge hides an entry from a later start |
| Nodes.StorageNode.Start | internal/storage/manager.go:54-134 | on any directory, the store is recovered and the rebuilt index agrees with the files; the node serves if and only if the directory is restartable |
| Nodes.StorageNode.Ingest | internal/ingest/server.go:173-178 | append then index: exactly the specified append through exactly the specified changes; list, files, index and filters still describe each other, and a restart after any number of the changes finds the log without or with the entry |
| Nodes.StorageNode.Merge | internal/storage/compaction.go:67-96 | the store becomes the planned one through exactly the specified changes and the log stays; the node keeps serving, and a restart after any number of the changes finds the same log up to repeats |
| Nodes.StorageNode.Retain | internal/storage/compaction.go:212-240 | exactly the expired closed segments go, through exactly the specified changes; the node keeps serving from the cutoff on, and at the end and after any number of the changes the log is a subsequence that misses only entries older than the cutoff |
| Nodes.StorageNode.Query | internal/query/executor.go:129-243 | without filters, or without required custom fields on a sound node or one that never expired a segment, a query is the full scan of the log; otherwise, without required custom fields, the full scan of a part that has everything since the last cutoff |
| Nodes.QueryAfterMergeCrash | internal/storage/compaction.go:98-209 | from every directory state of a merge: restart, index rebuild and query give the answer that the log before the merge determines |
| Nodes.QueryBeforeAdd | internal/ingest/server.go:173-178 | while any number of appended entries wait for their index update, a query without filters is the full scan of what is indexed, and of a waiting entry exactly if what is indexed of its segment is a candidate |
| Nodes.AddLate | internal/ingest/server.go:173-178 | an index update that comes after a merge has moved the entry: if the file is still there the index agrees with the disk as before, if not it has the missing file's path in addition and is otherwise right |
| Nodes.StalePathResolved | internal/index/index.go:100-170 | every query that the entry matches then resolves the path of the missing file |
| Nodes.QueryAfterLateAdd | internal/query/executor.go:154-193 | but a query gives the full scan of the disk all the same |
| Lifetimes.Live | internal/storage/manager.go:54-256 | any sequence of writes, merge and retention passes, each possibly cut short by a crash after any number of its own changes of the directory and followed by a restart with any bloom setting: the node ends with exactly the store that the events determine, serving from the horizon on |
| Lifetimes.LifeDurable | internal/storage/manager.go:54-256 | every such life, wherever its crashes fall, ends with only offered entries and every acknowledged one not older than a cutoff |
| Lifetimes.EveryCrashSurvived | internal/storage/compaction.go:67-240 | at the end of every life, the next operation can be cut short after any number of its changes: restart finds a quiet store with sidecars that serve, without any entry that the operation may not drop and with none that it may not add |
| Lifetimes.LifeServes | internal/storage/manager.go:100-130 | at the end of every life with filters on, the sidecars serve from the horizon on |
| Lifetimes.LiveAndQuery | internal/query/executor.go:129-243 | a query at the end of any such life: without required custom fields the full scan of offered entries, among them every acknowledged one since the horizon; with filters off, or without a horizon, the full scan of exactly the log that the life ends with |
| Lifetimes.SteadyHorizon | internal/storage/manager.go:100-130 | if no restart turns filters on after they were off, the horizon is the largest retention cutoff |
| Interleaving.RunHolds | internal/storage/compaction.go:138-240 | under every interleaving the index stays right outside the run or segment the compactor works on, and a query accounts for every entry due |
| Interleaving.StepConserves | internal/storage/compaction.go:138-240 | no step but an append brings an entry to disk, and none but the removal of an expired segment takes one away |
| Interleaving.MergesAsCompactor | internal/storage/compaction.go:98-208 | from its beginning on any disk, whatever is interleaved with it, a merge ends with the run's files exactly as the sequential merge leaves them and every other file as it was plus its appends |
| Interleaving.OverlappingAnswer | internal/query/executor.go:154-193 | with retention, and with filters that hold their idle segments' tokens, an overlapping query repeats no ID, holds only matching entries that are on disk or expired since, and misses an entry that was on disk at Resolve only if since then a merge had it in its run or its segment expired |
| Interleaving.RepeatsReachTheRead | internal/storage/compaction.go:138-147 | a run in which the segments read contain an entry twice although the index was cleared before the rename |
| Repeats.RepeatsIff | internal/storage/compaction.go:138-147 | from a disk without repeats, with new entries appended and runs in list order, under every interleaving what a query has read repeats an entry if and only if it read a merged file after the rename and then, during the same merge, a non-empty file merged into it |
| Repeats.NoRenameNoRepeat | internal/storage/compaction.go:138-147 | a query during which no merge renames reads no entry twice |
| Repeats.ResolvedInListOrder | internal/storage/manager.go:80-91 | what a query resolves is in the order of the path list, leftovers of rotation crashes or not |
| Interleaving.MergeCanHide | internal/storage/read.go:56-73 | a run in which an overlapping query misses an entry of the merged run |
| Misses.MissesIff | internal/storage/read.go:56-73 | over every run of appends, merges and removals, however many, a query misses an entry if and only if each of its reads is of a file that the entry is not in at that time, where appends, renames, deletes and drops alone determine the files it is in |
| Misses.MissesMergedIff | internal/storage/read.go:56-73 | under every interleaving, a query that reads during a merge, resolved before or during it, misses an entry of the run if and only if it reads the entry's file only after its delete, if at all, and the merged file only before the rename, if at all |
| Misses.HeadNeverMissed | internal/storage/compaction.go:149-208 | so no query that reads the run's first file during the merge misses an entry of that file |
| Misses.FinishedMerge | internal/storage/compaction.go:138-208 | once a merge is finished, an entry of its run is in the merged file only, or where it was if the rename failed |
| Records.Buffer.WriteRecord | internal/storage/record.go:12-24 | appends the length-prefixed frame, and refuses payloads of 4 GiB or more |
| Records.BigEndianReads | internal/storage/record.go:16-20 | the four bytes of a length are its base-256 digits, the highest first, and read back as it |
| Records.FrameReads | internal/storage/record.go:26-46 | a written record is read back, whatever follows it, if it has at most 67108864 bytes, and refused as too long otherwise |
| Records.ReadSegment | internal/storage/read.go:17-40 | all entries up to a clean end of file; nothing if a record is torn or too long or does not unmarshal |
| Records.DecodesIff | internal/storage/record.go:12-46 | encoding then decoding returns the payloads if and only if none exceeds 64 MiB |
| Records.AcceptedReencodes | internal/storage/record.go:29-46 | whatever decodes is byte for byte the encoding of what it decodes to |
| Records.TruncationDetected | internal/storage/record.go:26-46 | a cut file reads without error if and only if it is cut at a record boundary |
| Records.CutYieldsPrefix | internal/storage/record.go:26-46 | and then yields exactly the records before the cut |
| Records.EntriesReadIff | internal/storage/read.go:17-40 | entries written to a segment are read back if and only if no record exceeds 64 MiB |
| Records.SendChunks | internal/ingest/server.go:242-253 | chunks of 65536 bytes, the last one maybe shorter but not empty, that join to the payload |
| Records.TransferSegment | internal/ingest/server.go:223-253 | an internal error exactly when a shard entry marshals to 4 GiB or more, not found exactly when the shard has no entry, else the chunks of the framed shard entries |
| Records.TransferDelivers | internal/ingest/server.go:207-255 | the receiver reads exactly the shard's entries in order if and only if none exceeds 64 MiB |
| Coordinator.MergeResults | internal/coordinator/merge.go:36-79 | one page of the ranking of everything answered, one entry per ID, newest first and by ID among equal times; the int32 count, and whether a node failed |
| Coordinator.MergeOrderIndependent | internal/coordinator/merge.go:36-79 | the merged answer is the same for every arrival order |
| Coordinator.ReachedIsOneStore | internal/coordinator/fanout.go:87-105 | whichever nodes fail, the page is that of one store with the answering nodes' entries; the total is at most the true count, and below it only if it is at least the fan-out limit and the end of the page |
| Coordinator.FanOutIsOneStore | internal/coordinator/fanout.go:87-105 | when all nodes answer, the page is that of one store with all entries |
| Coordinator.ClusterPagesTile | internal/coordinator/fanout.go:87-105 | successive cluster pages are the successive pages of the global ranking |
| FanOut.ChooseTargets | internal/coordinator/fanout.go:67-75 | in any map order, exactly the nodes of the cluster state that are healthy and have an address |
| Window.WindowCorrectIff | internal/coordinator/fanout.go:89-96 | paging is right for every query and cluster if and only if offset plus limit fits in int32, whatever the fan-out limit |
| FanOut.Collect | internal/coordinator/fanout.go:107-184 | one part per target, the reply to the node request or a failure, in any order |
| FanOut.PartialIffFailed | internal/coordinator/merge.go:41-45 | the answer is partial if and only if some target did not reply |
| FanOut.AnswersAsOne | internal/coordinator/fanout.go:54-208 | an answer computed from targets that reply from their own stores is, in any arrival order, the page of one store with the entries of all that replied; its total is at most the true count, and below it only if it is at least the fan-out limit and the end of the page; it is partial if and only if one did not reply |
| FanOut.AllAnswer | internal/coordinator/fanout.go:54-208 | when all targets reply from their own stores, a computed answer is the page of one store with all their entries, with the same bounds on the total, and not partial |
| FanOut.FanOutExecutor.NodeQuery | internal/coordinator/fanout.go:87-105 | the request sent to every node: the window up to the end of the page or the fan-out limit if larger, in int32, without offset |
| FanOut.FanOutExecutor.Execute | internal/coordinator/fanout.go:54-208 | a hit is a complete answer computed before, no older than the TTL, for a request with the same key, and computes nothing; a miss asks exactly the targets of the cluster state, merges their replies to the node request and records that one computation; cancellation changes nothing; only complete answers are cached |
| FanOut.FanOutExecutor.Answer | internal/coordinator/fanout.go:54-208 | as Execute; a miss asks a node if and only if the cluster state has it healthy and with an address; entries come newest first and by ID among equal times; and if no text field has a bar and the window fits, the page and the bounds on the total are those of one store with the entries of all nodes that replied when it was computed, for this very request: on a miss that all targets of the cluster state answer, of the union of their stores |
| Cluster.TargetIffMember | internal/coordinator/fanout.go:67-75 | after any command log, a node is a target if and only if its last registration gave an address and no later command marked it unhealthy |
| Cluster.QueryAfter | internal/coordinator/fanout.go:54-208 | for the cluster state after any command log: a miss asks exactly those nodes, and when they all reply from their stores, the answer is the page of one store with all their entries |
| CacheModel.SizeBoundIff | internal/coordinator/cache.go:61-76 | over all runs the size stays within maxSize if and only if maxSize is at least 1 |
| CacheModel.RunKeeps | internal/coordinator/cache.go:45-103 | over all runs keys are distinct and the size is at most the larger of maxSize and 1 |
| CacheModel.HitIsLatestPut | internal/coordinator/cache.go:45-58 | in any run a hit returns the latest Put of the key, no older than the TTL |
| CacheModel.PutSurvives | internal/coordinator/cache.go:61-103 | a Put stays retrievable within the TTL while fewer than maxSize other keys are used |
| CacheModel.HitSurvives | internal/coordinator/cache.go:45-103 | counted from a hit: a used key stays retrievable within the TTL while fewer than maxSize other keys are used after it |
| QueryCaches.QueryCache.constructor | internal/coordinator/cache.go:30-42 | two linked sentinels and an empty cache |
| QueryCaches.QueryCache.InsertFront | internal/coordinator/cache.go:90-95 | both chains gain the node right after the head |
| QueryCaches.QueryCache.MoveToFront | internal/coordinator/cache.go:84-88 | both chains have the node moved to the front |
| QueryCaches.QueryCache.Remove | internal/coordinator/cache.go:78-82 | node, slot and key are gone; chains stay inverse, acyclic and in bijection with the map |
| QueryCaches.QueryCache.EvictLRU | internal/coordinator/cache.go:97-103 | the last slot goes, nothing when empty |
| QueryCaches.QueryCache.Get | internal/coordinator/cache.go:45-58 | the heap refines the abstract lookup: miss, expiry with removal, or hit with move to front |
| QueryCaches.QueryCache.Put | internal/coordinator/cache.go:61-76 | the heap refines the abstract insertion: update in place, or evict and insert |
| CacheKeys.KeyInjective | internal/coordinator/cache.go:106-110 | without a bar in namespace and service the key identifies the request |
| CacheKeys.Collides | internal/coordinator/cache.go:106-110 | every request with a bar in a text field shares its key with another |
| CacheKeys.KeyUniqueIff | internal/coordinator/cache.go:106-110 | a request shares its key with no other if and only if no text field contains a bar |
| Assignment.OwnedExactly | internal/metadata/fsm.go:198-212 | a node's shard list is ascending and holds exactly the shards it is primary of |
| Assignment.OwnedCount | internal/metadata/fsm.go:198-207 | the node of rank r owns n / h shards, and one more if r is below n mod h |
| Assignment.SmallerCount | internal/metadata/fsm.go:198-202 | the node of rank k among the healthy ones has k smaller healthy IDs: shard i goes to the one with i mod h |
| Assignment.ReplicaPicks | internal/metadata/fsm.go:226-235 | the replica is a healthy node other than the primary if there is one, else empty |
| Assignment.ReplicaSmallest | internal/metadata/fsm.go:226-235 | no healthy ID but the primary's is smaller than the replica's |
| Membership.LogDetermines | internal/metadata/fsm.go:102-166 | after any command log a node is known if and only if it was registered; it is healthy if and only if some registration has no later mark; its address is that of its last registration, its last-seen time that of its last registration or later heartbeat; stated over log positions alone |
| Metadata.SameHealthySameAssignment | internal/metadata/fsm.go:170-236 | two distinct new machines that applied any two logs with the same healthy nodes have the same primaries and replicas, and the same shard list for every node both know |
| Metadata.RestoreCatchesUp | internal/metadata/fsm.go:266-283 | for every log cut in two: the snapshot is the state after the first part, and the machine that took it and went on, any machine restored from it that applies the rest, and a third that applied the whole log all end in the state the whole log determines |
| Metadata.RunLog | internal/metadata/fsm.go:69-236 | after any log a state machine has exactly the node records that `Membership.LogDetermines` reads off the log, healthy primaries, shard i at the node with i mod h smaller healthy IDs, lists that invert the shard map, counts within one, the smallest other healthy node as replica when there are two, all slots empty when there is none |
| Metadata.FSM.constructor | internal/metadata/fsm.go:54-66 | every shard unowned |
| Metadata.FSM.RebalancePrimary | internal/metadata/fsm.go:170-213 | in any map order, the round-robin assignment over the sorted healthy nodes; nothing without one |
| Metadata.FSM.AssignReplicas | internal/metadata/fsm.go:217-236 | in any map order, the first healthy non-primary for every shard |
| Metadata.FSM.ApplyRegisterNode | internal/metadata/fsm.go:102-124 | the node is healthy, with this address and time, and the other nodes keep theirs; the next state depends on the records alone; a healthy node's refresh keeps the assignment |
| Metadata.FSM.ApplyUpdateHeartbeat | internal/metadata/fsm.go:126-134 | a known node keeps address and health and has this time, and the other nodes keep theirs; unknown nodes are an error |
| Metadata.FSM.ApplyMarkUnhealthy | internal/metadata/fsm.go:136-166 | a known node is unhealthy, keeps address and time and loses its shards, which go to the other healthy nodes; unknown nodes are an error |
| Metadata.FSM.Apply | internal/metadata/fsm.go:69-100 | the state is the one the command determines, whatever the map orders; errors change nothing; `Membership.LogDetermines` says what that makes of a log |
| Metadata.FSM.ApplyAll | internal/metadata/fsm.go:69-100 | replaying a log gives the state the log determines |
| Metadata.FSM.Snapshot | internal/metadata/state.go:34-47 | the copy equals the state |
| Metadata.FSM.Restore | internal/metadata/fsm.go:273-283 | the state becomes what the snapshot decodes to; a decode error is reported and changes nothing |
| CatchUp.LatestReceivedAtForShard | internal/ingest/catchup.go:195-210 | the largest ReceivedAt in the shard, or 0 |
| CatchUp.LocalIdsAtOrAfter | internal/ingest/catchup.go:215-230 | exactly the shard's IDs at or after the time |
| CatchUp.FetchShardEntries | internal/ingest/server.go:261-283 | exactly the shard's entries at or after the time, none before one with a smaller ReceivedAt, ties in any order |
| CatchUp.CatchUpShard | internal/ingest/catchup.go:52-83 | the replica's log grows by the unknown entries of the reply whose append does not fail, and the node keeps serving |
| CatchUp.AppendsExactly | internal/ingest/catchup.go:53-83 | a full catch-up appends exactly the missing entries at or above the watermark, ties included |
| CatchUp.AppendsOnceIff | internal/ingest/catchup.go:71-83 | it appends each once if and only if none of them stands twice in the primary's log |
| CatchUp.RepeatedEntryAppendedTwice | internal/ingest/catchup.go:71-83 | a primary log with a repeated entry, which the replica then holds twice |
| CatchUp.CompleteIffNoGap | internal/ingest/catchup.go:53-83 | the replica then holds the whole shard if and only if no missing entry was below its watermark |
| CatchUp.RepeatAppendsNothing | internal/ingest/catchup.go:53-83 | an immediate repeat appends nothing |
| CatchUp.RunConsistent | internal/ingest/catchup.go:53-83 | over all runs, with restarts that may reorder and repeat entries and retention on either side, the replica holds no shard entry the primary lacks, unless it is older than a cutoff |
| CatchUp.RunClean | internal/ingest/catchup.go:53-83 | as long as no restart finds a repeated entry, neither log ever holds an entry twice |
| CatchUp.Converges | internal/ingest/catchup.go:53-83 | after any run of writes, deliveries, restarts, retention and catch-ups that overtake nothing, a catch-up without failures makes the shard entries that are not older than a cutoff equal, each held once if the logs repeat none |
| CatchUp.SinceCutoffs | internal/storage/compaction.go:212-240 | an entry is not older than the cutoff of a run if and only if it is not older than that of any of its retention passes |
| CatchUp.RetentionSetsApart | internal/ingest/catchup.go:53-83 | after retention on the primary alone, a replica that keeps an entry the primary lacks through every catch-up |
| CatchUp.ExpiredComesBack | internal/ingest/catchup.go:53-83 | after retention on the replica alone, a catch-up that brings the expired entry back |
| CatchUp.FetchNoGapIff | internal/ingest/catchup.go:71-83 | from a pair without gaps among entries not older than a cutoff, a catch-up leaves none if and only if it appends no entry received after such an entry whose every append failed |
| CatchUp.SkippedIsPassedOver | internal/ingest/catchup.go:75-79 | an entry whose append failed while a later one was appended lies below the watermark from then on |
| CatchUp.PrefixHasNoGap | internal/ingest/catchup.go:53-83 | a replica with a prefix of the shard log starts without a gap |
| CatchUp.GapStays | internal/ingest/catchup.go:53-83 | an entry passed over by the watermark stays missing through any number of catch-ups, unless it is delivered, or retention drops it or everything received after it |
| CatchUp.LossyReplicationPassesOver | internal/ingest/catchup.go:53-83 | a run in which a dropped delivery leads to such an entry |

## Left out

- Network code: gRPC clients, connection pools, heartbeats, state polling and leader rotation.
- The Raft library: a committed, totally ordered command log is taken as given.
- Liveness detection, which depends on wall clocks.
- The replicator's queue and goroutines: live replication appears only as single deliveries that may be missing.
- `transferMissingSegments` and `LoadSegment`: a transferred file may replace a local one of the same name, so nothing general holds through them.
- Bits of bloom filters, SHA-256, FNV shard hashing, protobuf and JSON encodings: sets, preimages and arbitrary functions instead.
- Failures of file creation, sidecar and marker writes and removals, fsync, and torn writes; `Records` says what reading a torn file gives.
- Wrap-around of 64-bit sequence numbers and timestamps, and segment names that are not numbers.
- Unicode: lowercasing and case folding are those of ASCII.
- Locks: every method of manager, index, cache and state machine is one atomic step; only `Interleaving` splits merges, retention and queries into steps.
- Interleaving.OverlappingAnswer: an append and its index update are one step, and a query's filters hold the tokens of their idle segments; `Nodes.QueryBeforeAdd` and `Nodes.QueryAfterLateAdd` say what a query finds before a late index update, and after one that comes after a merge.
- Managers.Manager.AppendWithPath: a failing rotation or write, which the source reports to the caller, is not modelled; `CatchUp` treats a failed append as one that changes nothing.
- Managers.Manager.Rotate: the sidecar write always succeeds.
- FanOut.FanOutExecutor.Execute: cancellation is checked once, after the fan-out, and a node's reply does not change while it is asked.
- Metadata.FSM.Snapshot: records are values, so that the copy shares no slice with the state is not stated.
- Metrics, logging, request IDs, command line programs, generated code and deployment files.
