# mcp-lsp-bridge in Dafny

A model of the core of mcp-lsp-bridge, the MCP server that gives an agent four
TypeScript tools: rename_symbol, find_references, get_diagnostics and
go_to_definition. Each tool works through TypeScript's own tsserver.

The centre of the model is `TsServer.TSServerWrapper`, the protocol engine that talks
to tsserver over newline-delimited JSON. It is a class whose fields are the
original's fields, plus four fields that record what the wrapper hands to the outside
world:
- `settled`: the outcome of each request's promise, by sequence number;
- `emitted`: the events emitted to listeners;
- `written`: the frames written to stdin;
- `killed`: the processes sent SIGTERM.

Each callback of the original is one method call:
- a chunk of output arrives;
- a message is handled;
- a request's timer fires;
- the process exits;
- the reconnect wait ends;
- `dispose` is called.

Three functions give the meaning of these steps:
- `Feed`: the line framer;
- `Dispatch`: the request correlator;
- `PlanReconnect`: the reconnect schedule.

The engine's invariant `Valid()` has three parts, and every step preserves it:
- every request issued so far, numbered 1 to `sequenceNumber`, is either pending or settled, never both;
- the buffer holds no newline;
- the retry count stays within 0..3.

`Server.Registry` is the per-workspace cache of wrappers in `src/server.ts`.
`Server.CallTool` is the error envelope around every tool callback.

The four handlers are modelled over a file store, a map from absolute path to file
content or directory. Each tsserver exchange is a parameter: the reply, or the message
of the exception a request threw.
- `Rename`: the validation chain, the identifier check and the workspace boundary, plus `applyChangesToFile`, whose loop edits an array of lines in place.
- `References`: the node_modules filter, declaration labelling, an in-place stable sort and truncation at 500.
- `Diagnostics`: category to severity, the three diagnostic groups, the recursive `findTsFiles` and the counts.
- `Definition`: external paths and relative paths.

Shared pieces live in their own modules:
- `Text`: the JavaScript string operations;
- `Paths`: `path.join`, `path.relative` and `makeRelativePath`;
- `Arrays`: `filter`, `reverse`, `slice` and a stable `sort`;
- `Workspace`: file store, error codes, `readLineFromFile` and the validation chain shared by three handlers.

## Model

| member | source | states |
|---|---|---|
| TsServer.TSServerWrapper.constructor | src/tsserver.ts:61-73 | a fresh wrapper holds no process, is not running, has sequence number 0, nothing pending, an empty buffer and retry count 0 |
| TsServer.TSServerWrapper.Start | src/tsserver.ts:102-128 | with a process already held it fails with "TSServer already started" and changes nothing; a failed spawn fails with "Failed to start tsserver: " and the cause; otherwise the process is held, and the wrapper runs unless disposed |
| TsServer.TSServerWrapper.SendRequest | src/tsserver.ts:227-252 | with no process it fails with "TSServer is not running" before touching the sequence number, the pending map or stdin; otherwise the request gets the previous sequence number + 1, which is neither pending nor settled, is registered as pending, and exactly one frame (the encoded request and "\n") is written; the invariant is kept |
| TsServer.FrameIsOneLine | src/tsserver.ts:249 | a frame is read back as exactly one complete line, the encoded request, with nothing left over |
| TsServer.TSServerWrapper.OnTimeout | src/tsserver.ts:241-244 | the timer removes only its own request from the pending map and rejects it with "Request timed out after 30000ms: " and the command; everything else pending stays pending |
| TsServer.Dispatch | src/tsserver.ts:205-222 | a response whose request_seq is pending removes exactly that key and resolves it with the response; an unknown request_seq, an event or any other message leaves the pending map unchanged; an event emits 'event' and then its own name; outcomes already settled are kept |
| TsServer.DispatchAccounted | src/tsserver.ts:205-222 | handling a message keeps every issued request pending or settled, never both |
| TsServer.TSServerWrapper.HandleMessage | src/tsserver.ts:205-222 | the step changes the channel exactly as `Dispatch` says and keeps the accounting invariant |
| TsServer.ConsumeSettlesOnce | src/tsserver.ts:183-198 | consuming one line keeps every request accounted for, never overwrites or withdraws a settled outcome and never adds a pending request |
| TsServer.TSServerWrapper.TakeLine | src/tsserver.ts:182-198 | one turn of the loop takes the first complete line off the buffer, shrinks the buffer, keeps the partial tail, and consumes the line |
| TsServer.TSServerWrapper.TakeLines | src/tsserver.ts:181-199 | the loop consumes every complete line of the buffer in order, and leaves exactly the text after the last newline, which holds no newline |
| TsServer.TSServerWrapper.HandleData | src/tsserver.ts:177-200 | after a chunk, the channel and buffer are those `Feed` gives for the old buffer plus the chunk, and the invariant is kept |
| TsServer.Feed | src/tsserver.ts:177-200 | after a chunk the buffer holds no newline |
| TsServer.ChunkingIrrelevant | src/tsserver.ts:178-184 | feeding chunk a, then chunk b, handles the same lines and leaves the same buffer as feeding a + b |
| TsServer.IngestAppend | src/tsserver.ts:182-199 | handling the lines a + b is handling a, then b |
| TsServer.IngestAccounted | src/tsserver.ts:182-199 | handling any lines keeps every request accounted for |
| TsServer.IngestSettlesOnce | src/tsserver.ts:182-199 | handling any lines never overwrites or withdraws an outcome already settled |
| TsServer.Rejections | src/tsserver.ts:154-158 | the rejections of a drain cover exactly the drained sequence numbers |
| TsServer.DrainAccounted | src/tsserver.ts:154-158 | rejecting every pending request keeps every request accounted for, settled once |
| TsServer.TSServerWrapper.RejectOne | src/tsserver.ts:155-157 | one pending request is rejected with the reason and deleted, and nothing else changes |
| TsServer.TSServerWrapper.DrainPending | src/tsserver.ts:154-158 | the loop rejects every pending request exactly once with the reason, keeps every earlier outcome, and ends with the pending map empty |
| TsServer.TSServerWrapper.OnExit | src/tsserver.ts:149-164 | on exit the handle is dropped and every pending request is rejected with "TSServer process exited unexpectedly", settled outcomes kept; when not disposed, the reconnect plan decides: giving up emits 'failed' and keeps the count, a retry waits with the count raised and emits nothing; the invariant is kept |
| TsServer.PlanReconnect | src/tsserver.ts:257-268 | it gives up exactly when the retry count is at least 3; otherwise the wait is BACKOFF_DELAYS[retryCount] = 1000·2^retryCount and the count goes up by one, to at most 3 |
| TsServer.BackoffBounded | src/tsserver.ts:51-53 | from any count, consecutive failures wait at most 3 times, each wait double the one before, and at most 7000 ms in all |
| TsServer.BackoffFromStart | src/tsserver.ts:53 | from a fresh count the waits are exactly 1000, 2000 and 4000 ms |
| TsServer.TSServerWrapper.AttemptReconnect | src/tsserver.ts:257-268 | at the limit it emits 'failed' and starts nothing; otherwise it counts the attempt and waits as `PlanReconnect` says; the retry count stays within 0..3 |
| TsServer.TSServerWrapper.ReconnectTimerFires | src/tsserver.ts:268-279 | corrected: a wrapper disposed during the wait stays without a process and emits nothing; otherwise a successful start resets the count to 0, emits 'reconnected' and leaves the wrapper running, and a failed one plans again: giving up emits 'failed' with the count kept, a retry waits with nothing emitted |
| TsServer.TSServerWrapper.ReconnectTimerFiresAsWritten | src/tsserver.ts:268-279 | as written: the wait ends in `start` whether or not the wrapper was disposed; a successful start resets the count and emits 'reconnected'; a failed start plans again, giving up with 'failed' and the count kept, or waiting with the count raised and nothing emitted |
| TsServer.TSServerWrapper.Dispose | src/tsserver.ts:422-439 | every pending request is rejected with "TSServer disposed", the map ends empty, the process is sent SIGTERM once and dropped, and the wrapper is not running; a second dispose settles and kills nothing more |
| TsServer.TSServerWrapper.IsRunning | src/tsserver.ts:444-446 | running implies a process is held; a disposed wrapper is never running; once disposal has dropped the process, running is exactly holding one |
| TsServer.DisposeDuringBackoff | src/tsserver.ts:422-439 | with the corrected step, a wrapper disposed during the reconnect wait stays stopped, and `sendRequest` then fails with "TSServer is not running" |
| TsServer.DisposeDuringBackoffAsWritten | src/tsserver.ts:257-279 | with the step as written, the disposed wrapper ends up holding a freshly spawned process and accepts a request again |
| Server.Registry.constructor | src/server.ts:27 | the cache starts empty |
| Server.Registry.GetTSServer | src/server.ts:32-50 | a running cached wrapper is returned unchanged and nothing is started; otherwise the stale wrapper, if any, is disposed and dropped, and a new wrapper is started and cached under the root; if its start fails, the error escapes and no entry remains for the root; the reused wrapper is still running afterwards; other roots keep their wrappers, each left untouched, since only a stale wrapper of this root may be modified |
| Server.Registry.Evict | src/server.ts:36-39 | the stale wrapper is disposed and its entry deleted, and only that entry |
| Server.Registry.DisposeAll | src/server.ts:55-61 | every cached wrapper ends disposed, stopped and with nothing pending, and the cache ends empty |
| Server.Retire | src/server.ts:37 | a disposed wrapper ends stopped, without a process and with nothing pending, and keeps its invariant |
| Server.Launch | src/server.ts:40-41 | a new wrapper for the root runs the spawned process, or the start error is returned |
| Server.Envelope | src/server.ts:91-108 | an exception becomes LANGUAGE_SERVER_ERROR with its message; any other answer passes through unchanged |
| Server.CallTool | src/server.ts:75-110 | no exception escapes a tool call: a failed start becomes LANGUAGE_SERVER_ERROR with the start message, and otherwise the answer is the handler's on the root's wrapper, under the envelope; only a stale wrapper of this root may be modified |
| Text.IndexOf | src/tsserver.ts:182 | the first position of the character, or -1 exactly when it does not occur |
| Text.Trim | src/tsserver.ts:183 | the line without leading and trailing whitespace: the result starts after the leading whitespace, everything after it is whitespace, it neither begins nor ends with whitespace, and it is empty exactly when the line is all whitespace |
| Text.LowerCased | src/handlers/get-diagnostics.ts:38 | lower-casing leaves no capital letter, keeps a text without capitals unchanged, and is idempotent |
| Text.Split | src/handlers/find-references.ts:24 | `split('\n')` gives at least one piece |
| Text.SplitLines | src/handlers/find-references.ts:24 | no piece of a split holds a newline |
| Text.LinesRoundTrip | src/tsserver.ts:182-184 | cutting a text into lines loses nothing: the lines, each with its newline, and then the rest, are the text |
| Text.CompleteLinesAppend | src/tsserver.ts:178-184 | the lines of a + b are the lines of a, then the lines of a's leftover plus b, and the leftover is the same |
| Text.JoinSplit | src/handlers/rename-symbol.ts:55 | `s.split('\n').join('\n') == s` |
| Text.SplitJoin | src/handlers/rename-symbol.ts:90 | newline-free lines, joined and split again, are the same lines |
| Text.Decimal | src/handlers/get-diagnostics.ts:92 | a number is rendered as decimal digits without leading zeros |
| Text.IntTextRoundTrip | src/handlers/get-diagnostics.ts:92 | the rendered integer starts with "-" exactly when it is negative, and the digits after the sign read back as its magnitude |
| Text.DecimalRoundTrip | src/handlers/get-diagnostics.ts:92 | reading the digits back gives the number |
| Text.LexTotal | src/handlers/find-references.ts:212 | any two paths are ordered one way or the other |
| Text.LexTransitive | src/handlers/find-references.ts:212 | the path order is transitive |
| Text.LexAntisymmetric | src/handlers/find-references.ts:212 | two paths ordered both ways are equal |
| Text.LexCompareAgrees | src/handlers/find-references.ts:212 | the path comparison is zero exactly for equal paths, and at most zero exactly when the first path may come first |
| Paths.JoinPath | src/handlers/rename-symbol.ts:127 | the joined path begins with the directory and ends with the relative path |
| Paths.AbsolutePath | src/handlers/rename-symbol.ts:125-127 | an absolute path is kept; a relative one is joined to an absolute root and stays below it |
| Paths.Relative | src/handlers/rename-symbol.ts:25 | the root itself is relativised to "" |
| Paths.InsideRoundTrip | src/handlers/rename-symbol.ts:20-29 | a normal path inside a normal root, relativised and joined back onto the root, is the path itself |
| Paths.OutsideClimbs | src/handlers/rename-symbol.ts:20-29 | a path that shares the root's text but lies outside it is relativised as a climb, beginning with "../" |
| Arrays.Filter | src/handlers/find-references.ts:180-187 | `filter` keeps exactly the elements that pass, in order, each as often as before |
| Arrays.FilterAppend | src/handlers/find-references.ts:180-187 | filtering a concatenation filters each part |
| Arrays.FilterSorted | src/handlers/find-references.ts:180-187 | filtering keeps a sorted sequence sorted |
| Arrays.FilterPermutation | src/handlers/find-references.ts:180-187 | filtering a rearrangement gives a rearrangement of the filtered sequence, of the same length |
| Arrays.FlatMapAppend | src/handlers/get-diagnostics.ts:231-289 | the per-item parts of a concatenation are the parts of each half, in order |
| Arrays.Reverse | src/handlers/rename-symbol.ts:94 | `reverse` puts element i at position length - 1 - i |
| Arrays.Take | src/handlers/find-references.ts:225 | `slice(0, n)` gives the first min(n, length) elements |
| Arrays.InsertPermutes | src/handlers/find-references.ts:203-218 | insertion adds exactly one copy of the element |
| Arrays.SortBy | src/handlers/find-references.ts:203-218 | the sort is a permutation of its input |
| Arrays.InsertSorted | src/handlers/find-references.ts:203-218 | inserting into a sorted sequence keeps it sorted, for a total preorder |
| Arrays.SortBySorts | src/handlers/find-references.ts:203-218 | the sort's result is ordered by the comparator, for a total preorder |
| Arrays.InsertBeforeTies | src/handlers/find-references.ts:203-218 | an inserted element lands before every element already there that it ties with |
| Arrays.SortByStable | src/handlers/find-references.ts:203-218 | the sort is stable: for a total preorder, the elements tied with any given one come out in their input order |
| Arrays.InsertInto | src/handlers/rename-symbol.ts:60-65 | one insertion step in place moves the element into its place in the sorted tail and leaves the head alone |
| Arrays.SortInPlace | src/handlers/rename-symbol.ts:60-65 | the array ends as the stable sort of its old contents |
| Workspace.ReadLine | src/handlers/find-references.ts:21-32 | line n (1-based) of the file when 1 ≤ n ≤ the number of lines; "" when n is out of range or the file is missing or a directory; never a newline |
| Workspace.ReadLineOfJoined | src/handlers/find-references.ts:21-32 | a file written as joined lines reads back line n as the n-th line, and "" outside them |
| Workspace.CheckTarget | src/handlers/rename-symbol.ts:112-166 | the checks in order, the first failure answering: WORKSPACE_NOT_FOUND exactly when the root is missing; FILE_NOT_FOUND exactly when the file is missing; an escaping EISDIR exactly when the path is a directory; INVALID_POSITION exactly when the line is outside [1, lines] or the column outside [1, line length + 1]; success exactly otherwise, with the file's text and lines |
| Rename.SiblingAdmitted | src/handlers/rename-symbol.ts:35-39 | as written: "/ws/app-old/x.ts" passes the boundary of "/ws/app", although it lies outside it and its relative path climbs out of the root |
| Rename.SiblingRenamed | src/handlers/rename-symbol.ts:35-39 | as written: a reply whose only location is in "/ws/app-old" is accepted for the root "/ws/app", and the file is edited and reported as "../app-old/x.ts"; the intended boundary answers RENAME_CONFLICT |
| Rename.InsideAdmitsOnlyWorkspaceFiles | src/handlers/rename-symbol.ts:35-39 | corrected: every file the boundary admits passes the written check too, and lies inside the workspace (relativised and joined back it is itself) |
| Rename.IntendedPlanStaysInside | src/handlers/rename-symbol.ts:258-276 | corrected: every file the plan with the intended boundary returns lies inside the workspace, passes the written check too, and joins back onto the root |
| Rename.SpliceReplaces | src/handlers/rename-symbol.ts:72-77 | within bounds, a splice keeps the text before and after the replaced columns and puts the new text between them |
| Rename.RightToLeft | src/handlers/rename-symbol.ts:59-65 | two disjoint edits of one line, the later applied first, give both replacements at their original columns |
| Rename.ApplyOrderIsTotal | src/handlers/rename-symbol.ts:60-65 | the descending (line, offset) comparator is a total preorder |
| Rename.ApplyEdit | src/handlers/rename-symbol.ts:69-86 | an edit replaces columns [start.offset - 1, end.offset - 1) of its line, changes no other line, and is skipped when its line is out of range |
| Rename.UntouchedLines | src/handlers/rename-symbol.ts:68-87 | a line that no edit targets keeps its text |
| Rename.JournalMatches | src/handlers/rename-symbol.ts:79-83 | one record per in-range edit, even when several hit one line, in order of application, each naming its edit's line |
| Rename.ReportedInDocumentOrder | src/handlers/rename-symbol.ts:93-94 | after the reverse, the records come in ascending line order |
| Rename.ChangeFile | src/handlers/rename-symbol.ts:44-101 | reading a missing file or a directory throws; otherwise only that file is rewritten, changeCount is the number of records, and the path is reported relative to the root |
| Rename.ChangeCountIsApplicable | src/handlers/rename-symbol.ts:98 | changeCount is the number of edits whose line lies in the file |
| Rename.SortedCopy | src/handlers/rename-symbol.ts:60-65 | the copy, sorted in place, is the stable sort of the changes |
| Rename.EditLines | src/handlers/rename-symbol.ts:68-87 | the loop leaves the array as all the edits applied in order, and its records are the journal of those edits |
| Rename.ApplyChangesToFile | src/handlers/rename-symbol.ts:44-101 | the imperative function computes exactly `ChangeFile` |
| Rename.WorkspaceLocations | src/handlers/rename-symbol.ts:262-265 | the locations kept are exactly those whose file the chosen boundary admits; the handler uses the written prefix check |
| Rename.ServerPlan | src/handlers/rename-symbol.ts:180-276 | a thrown request gives LANGUAGE_SERVER_ERROR; a failed reply gives NO_SYMBOL_AT_POSITION exactly when its message contains "not find", otherwise LANGUAGE_SERVER_ERROR; no body or no locations gives NO_SYMBOL_AT_POSITION; canRename false gives RENAME_CONFLICT; no location admitted by the boundary gives RENAME_CONFLICT; otherwise the admitted locations |
| Rename.RenamePlan | src/handlers/rename-symbol.ts:112-276 | the first failure answers: the target checks, then the identifier check (RENAME_CONFLICT), then the tsserver outcome filtered by the boundary |
| Rename.DigitFirstRefused | src/handlers/rename-symbol.ts:169-178 | "123invalid" is refused with RENAME_CONFLICT once the target checks pass |
| Rename.IdentifierShape | src/handlers/rename-symbol.ts:169 | the identifier pattern refuses the empty name, a leading digit and any character besides letters, digits, "_" and "$", and stays satisfied when such characters are appended |
| Rename.RenameFiles | src/handlers/rename-symbol.ts:279-303 | at most one modification per location group (tsserver gives one group per file), each with changeCount equal to its records; the file store keeps its set of paths |
| Rename.TotalIsReported | src/handlers/rename-symbol.ts:298 | totalChanges is the number of line records over all modified files |
| Rename.OnlyListedFilesChange | src/handlers/rename-symbol.ts:282-303 | a file that no location names keeps its content |
| Rename.EditFiles | src/handlers/rename-symbol.ts:279-303 | the loop computes `RenameFiles`, skipping a file whose edit throws, and sums the change counts |
| Rename.HandleRenameSymbol | src/handlers/rename-symbol.ts:106-320 | the handler follows `RenamePlan` with the boundary as written: an early failure answers with nothing written and no tsserver request sent; otherwise the result is success with the modifications and their summed counts |
| References.FilterKeepsExactly | src/handlers/find-references.ts:180-200 | each reported reference comes from a kept tsserver reference, none from node_modules unless asked for, with its path relative to the root, its start line and offset, and "declaration" exactly when isDefinition is true; every kept one is reported |
| References.NodeModulesFilter | src/handlers/find-references.ts:37-39 | `isInNodeModules` as the filter: with includeNodeModules every reference is reported in order; without it exactly those whose path does not contain "node_modules" |
| References.RefLeIsTotal | src/handlers/find-references.ts:203-218 | the comparator is a total preorder |
| References.RefLeIsCompare | src/handlers/find-references.ts:203-218 | "may come before" holds exactly when the comparator callback (declaration first, then `localeCompare` of the paths, then the line difference) is not positive |
| References.FindResult | src/handlers/find-references.ts:220-226 | at most 500 references are returned, never more than the total, and truncated exactly when fewer are returned than counted |
| References.ResultOrder | src/handlers/find-references.ts:203-218 | every declaration comes before every usage; within one kind, by file path, then by line |
| References.CountBeforeTruncation | src/handlers/find-references.ts:220-226 | totalCount is the count after filtering and before truncation; truncated exactly when it exceeds 500; the list is min(totalCount, 500) of the references, and every reference dropped may follow every one kept in the sort order |
| References.ReferencesPlan | src/handlers/find-references.ts:79-175 | the target checks first; then LANGUAGE_SERVER_ERROR exactly when a request threw or the reply failed, with the thrown message, tsserver's message or "Failed to get references from language server"; otherwise exactly the reply's refs, [] when it has none |
| References.Pipeline | src/handlers/find-references.ts:180-226 | the in-place sort and the truncation compute exactly `FindResult` |
| References.HandleFindReferences | src/handlers/find-references.ts:73-244 | an early failure answers as is; no references give success with [], 0 and not truncated; otherwise the pipeline's result, with includeNodeModules false by default |
| Diagnostics.SeverityIgnoresCase | src/handlers/get-diagnostics.ts:35-49 | the category is matched regardless of letter case: lower-casing it first changes no severity |
| Diagnostics.KnownCategories | src/handlers/get-diagnostics.ts:35-49 | `mapCategoryToSeverity`, for every category: error exactly when it reads "error" in any case, warning exactly for "warning", hint exactly for "suggestion", info for everything else |
| Diagnostics.CodeText | src/handlers/get-diagnostics.ts:92 | the code is "TS" followed by digits that read back as the number |
| Diagnostics.TransformReports | src/handlers/get-diagnostics.ts:68-96 | `transformDiagnostic`: line and column from start, end line and end column from end, message from text, severity from category, code "TS" plus the number, the start line's text as snippet |
| Diagnostics.ReportedPathJoinsBack | src/handlers/get-diagnostics.ts:79-82 | the reported path of a file inside the root joins back onto the root as the file's path |
| Diagnostics.GroupReport | src/handlers/get-diagnostics.ts:151-201 | a reply that is not a successful array contributes nothing; otherwise one diagnostic per item, in order; every syntactic one is an error and every suggestion a hint |
| Diagnostics.PushGroup | src/handlers/get-diagnostics.ts:151-167 | the push loop appends the group's diagnostics, in order |
| Diagnostics.CollectFile | src/handlers/get-diagnostics.ts:150-201 | the file's syntactic diagnostics, then its semantic ones, then its suggestions are appended |
| Diagnostics.CountsPartition | src/handlers/get-diagnostics.ts:293-296 | the four counts add up to the number of diagnostics |
| Diagnostics.CountOfGroups | src/handlers/get-diagnostics.ts:293-296 | one severity's count over the three groups, when the first group is all errors and the last all hints |
| Diagnostics.FileCounts | src/handlers/get-diagnostics.ts:150-201 | in a file's counts, every syntactic diagnostic is an error and every suggestion a hint; warnings and infos come from the semantic group alone |
| Diagnostics.Counted | src/handlers/get-diagnostics.ts:293-305 | errorCount + warningCount + infoCount + hintCount equals the number of diagnostics |
| Diagnostics.JoinKeepsSource | src/handlers/get-diagnostics.ts:210-220 | a source's name joined onto a directory is still a source path |
| Diagnostics.OnlySources | src/handlers/get-diagnostics.ts:206-227 | every file the search finds ends ".ts" or ".tsx" and not ".d.ts" |
| Diagnostics.TsFilesExactly | src/handlers/get-diagnostics.ts:206-227 | `TsFilesFrom`, the search's meaning, finds exactly the source files reachable without entering node_modules, dist or an unreadable directory |
| Diagnostics.FindTsFiles | src/handlers/get-diagnostics.ts:206-227 | the recursive search pushes onto the accumulator exactly the sources `TsFilesFrom` lists, in order |
| Diagnostics.FailingFileSkipped | src/handlers/get-diagnostics.ts:231-289 | a file that cannot be read, or whose exchange with tsserver fails, changes nothing in the project-wide result |
| Diagnostics.ProjectLoop | src/handlers/get-diagnostics.ts:231-289 | the loop over the found files gives the per-file diagnostics in order, and asks tsserver about exactly the readable files |
| Diagnostics.SingleFileMode | src/handlers/get-diagnostics.ts:141-201 | a directory gives LANGUAGE_SERVER_ERROR; a thrown exchange gives LANGUAGE_SERVER_ERROR with its message; otherwise the file's diagnostics, counted |
| Diagnostics.ProjectMode | src/handlers/get-diagnostics.ts:202-289 | the search, then the loop over what it found, counted |
| Diagnostics.DiagnosticsOutcomes | src/handlers/get-diagnostics.ts:101-316 | `DiagnosticsResult`: WORKSPACE_NOT_FOUND exactly when the root is missing; with a named file, FILE_NOT_FOUND exactly when it is missing, and LANGUAGE_SERVER_ERROR exactly when it is a directory or tsserver fails on it; the project-wide mode always succeeds; nothing escapes; the counts add up |
| Diagnostics.HandleGetDiagnostics | src/handlers/get-diagnostics.ts:101-316 | the handler computes `DiagnosticsResult`, and asks tsserver about the named file or the found files that read, and nothing when the root is missing |
| Definition.ExternalExactly | src/handlers/go-to-definition.ts:36-52 | `isExternalPath`: a node_modules path is external, a ".d.ts" file whose path does not begin with the root is external, every external path is one of the two, and a file inside the workspace outside node_modules is never external |
| Definition.PrefixSiblingDeclaration | src/handlers/go-to-definition.ts:43-47 | as written: a ".d.ts" file outside the workspace whose path begins with the root's text is internal and reported with a path climbing out with "../", although the intended test calls it external |
| Definition.SiblingDeclaration | src/handlers/go-to-definition.ts:43-47 | as written: "/ws/app-types/index.d.ts" with the root "/ws/app" is such a file: internal as written, external as intended |
| Definition.IntendedExternalExactly | src/handlers/go-to-definition.ts:36-52 | corrected: a declaration file outside node_modules is external exactly when it lies outside the workspace; a file inside it is never external; whatever the written test calls external stays external |
| Definition.RelativeUnlessExternal | src/handlers/go-to-definition.ts:57-74 | an external path is returned as is, and so is one that does not begin with the root |
| Definition.ReportedDefinitionPath | src/handlers/go-to-definition.ts:175-187 | `ToDefinition`: a definition is reported with its start line and offset, its external flag, its own path when external, and otherwise a path that joins back onto the root |
| Definition.Definitions | src/handlers/go-to-definition.ts:175-187 | one definition per body entry |
| Definition.DefinitionsInOrder | src/handlers/go-to-definition.ts:175-187 | the map keeps tsserver's order: the i-th definition is made from the i-th entry |
| Definition.DefinitionOutcomes | src/handlers/go-to-definition.ts:79-203 | the target checks first; then LANGUAGE_SERVER_ERROR exactly when a request threw or the reply failed, with tsserver's message or the fallback; otherwise one definition per body entry, none when the body is missing or empty |
| Definition.GoToDefinition | src/handlers/go-to-definition.ts:79-203 | only the directory read of the target checks throws; every definition reported as external is under node_modules or a ".d.ts" file |

## Left out

- Process spawning and stdio wiring are not modelled: `findTSServerPath`, `spawn`, stderr logging and the 'error' handler (src/tsserver.ts:79-171). A spawn is the parameter `launch`: a process handle, or the error it threw.
- `JSON.parse` and `JSON.stringify` are the wrapper's `parse` and `encode` parameters. `parse` is a partial function from a line to a message. `encode` is any function whose output holds no newline, which is what `JSON.stringify` guarantees.
- TsServer.ChunkingIrrelevant: is stated for text already decoded. The original decodes each stdout chunk on its own (src/tsserver.ts:139-141), so a multi-byte UTF-8 character cut between two chunks becomes U+FFFD there; the model's chunks are strings and that loss is not modelled, so the property holds in the original only for cuts at character boundaries.
- Parsing failures are not logged. A line that does not parse changes no state, whatever it starts with; the log call at src/tsserver.ts:195-197 is left out.
- Real timers and Promise scheduling are not modelled. A request's timeout, the end of a reconnect wait and a process exit are explicit method calls. The model does not show that `clearTimeout` keeps a settled request's timer from firing: `OnTimeout` requires its request to be pending, so a timer whose request has settled is a step that never happens.
- The concurrent `Promise.all` of `getDiagnostics` is not modelled. Its three replies arrive together, as one `GroupReplies` value, or as the error one of them threw.
- The thin request wrappers (`openFile`, `closeFile`, `getProjectInfo`, `getDefinition`, `getReferences`, `rename`, `getDiagnostics`) only build arguments and call `sendRequest`. Each handler takes their replies as parameters. `HandleRenameSymbol` and `HandleFindReferences` report the commands they send.
- `path.normalize` is not modelled. Paths are taken as they come. The results about relativisation are stated for normal paths, which have no doubled or trailing separators.
- `path.relative` is modelled only for a path whose text begins with the root's text, the only case the handlers call it for.
- `localeCompare` is replaced by code-point lexicographic order. It is a total order, as the sort needs; the locale's own collation is not modelled.
- Text.ToLower: folds only the ASCII letters. That is exact for the four category names compared; other letters are not folded.
- String lengths count code points, not UTF-16 code units. Line lengths and columns can differ from the original outside the Basic Multilingual Plane.
- The `resolution` hint texts of error responses are not modelled. Code and message are.
- Console logging, the MCP SDK tool registration, the JSON formatting of tool results, signal handlers and src/index.ts are not part of this model.
- The input schemas of src/schemas.ts are not checked. Every handler accepts any line, column and name; the checks that the handlers themselves make are modelled.
- Rename.ApplyEdit: uses the start line alone and ignores `end.line`, as the original does. An edit spanning lines is applied as an edit of its start line.
- Diagnostics.HandleGetDiagnostics: the directory tree is the parameter `tree`, given separately from the file store. The model does not tie the listing to the keys of the store.
- Server.Registry.DisposeAll: disposes the wrappers in an unspecified order, not in the Map's insertion order. Each wrapper is disposed independently, so the order changes no outcome.
- Server.CallTool: a thrown value that is not an `Error` gives "Unknown error" in the original. Here every exception carries its message.
- Server.CallTool: the handler is a function of the wrapper. Its effects on the wrapper (requests it sends) are not part of this step.
- Concurrent `getTSServer` calls, interleaved at their awaits, are not modelled. Each call is one atomic step.
- TsServer.TSServerWrapper.Dispose: may be called in any state. It keeps the invariant when it held before, and otherwise promises only the final state.

## Findings

| source | as written | input that shows it | evidently intended | confidence | as-written member | corrected member |
|---|---|---|---|---|---|---|
| src/tsserver.ts:257-279 with src/tsserver.ts:422-439 | `dispose` does not cancel a reconnect in progress: when the back-off wait ends, `attemptReconnect` calls `start` on the disposed wrapper | a running wrapper whose process exits (retry count below 3), then `dispose()` during the wait, then a spawn that succeeds: the disposed wrapper holds a live process that nothing will kill, and `sendRequest` succeeds | a disposed wrapper never starts again: the wait ends without `start` when `isDisposed` is set | high, not executed | TsServer.DisposeDuringBackoffAsWritten | TsServer.DisposeDuringBackoff |
| src/handlers/rename-symbol.ts:35-39 | `isWithinWorkspace` tests a plain string prefix of the resolved paths | file "/ws/app-old/x.ts" with root "/ws/app": admitted, and edited, although it lies outside the workspace | a file is within the workspace when it is the root or lies below "root/" | high, not executed | Rename.SiblingRenamed | Rename.IntendedPlanStaysInside |
| src/handlers/go-to-definition.ts:43-47 | `isExternalPath` tests a plain string prefix of the normalized paths to decide whether a ".d.ts" file lies outside the workspace | file "/ws/app-types/index.d.ts" with root "/ws/app": reported as internal, with path "../app-types/index.d.ts", although it lies outside the workspace | a declaration file is external when it is neither the root nor below "root/" | high, not executed | Definition.PrefixSiblingDeclaration | Definition.IntendedExternalExactly |

The rename plan takes the boundary as a parameter. `Rename.HandleRenameSymbol` uses the
prefix check as written, so the handler edits the sibling file as the original does;
`RenamePlan(Intended, …)` is the corrected plan, and `Rename.IntendedPlanStaysInside`
proves what it promises.

Likewise `Definition.GoToDefinition` uses `isExternalPath` as written;
`IsExternalPathIntended` is the corrected test, and `Definition.IntendedExternalExactly`
proves what it promises.
