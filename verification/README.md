# A verified model of the protocols and core algorithms of AoW

AoW, the Agent-oriented Workbench, is a browser-based workbench for coding agents. This project models its stateful and
algorithmic parts in Dafny 4.11 and proves what they are for, over all inputs, all runs and all interleavings.
`dafny verify dfyconfig.toml` checks everything.

| files | component | main results |
|---|---|---|
| `LogModel`, `LogSpec`, `LogReader`, `LogPaging` | the backward, paged reader of the operation log | every page is a cut of one simple specification; pages over a growing log lose and repeat nothing; the exact smallest scan budget |
| `LogWriter`, `LogRoundTrip` | its append-only writer, with crashes and restarts | paging to the end returns the acknowledged records, newest first, while the writer goes on |
| `EditorProtocol` | an editor document, its file, and every interleaving of saves, refreshes and foreign writes | no lost update, no lost edit |
| `JsonRelocation`, `JsonSplice` | rewriting the paths inside a JSONC document in place | rewriting commutes with parsing; nothing outside the edited tokens changes |
| `RelocationTable`, `Migration`, `Collecting`, `MigratedReferences`, `MigrationPlan` | moving an installation to a new home | exactly which files are copied where, and references follow them |
| `CodexArguments`, `AgentLaunch` | reading, extending and recognising an agent's command line | exactly when the added flag can be undone; a profile matches its own launches and no others |
| `UploadNames`, `Uploads` | publishing uploads that never replace anything | distinct, complete destinations in every interleaving |
| `Registration` | registering system services as a transaction | what a failed registration leaves behind |
| `Utf8`, `MessageLog` | chunked messages for the system log (RFC 3629) | valid, bounded, nearly full chunks that join to the message |
| `GitStatus` | bounded command output and the status records in it | parsing undoes printing, and a cut spoils only the last entry |
| `AttachUri` | the address of a terminal stream (RFC 3986) | everything asked for can be read off the address |
| `MessageText` | notification text within a budget | the bound, what is kept, and that it can be read |
| `DockedHeaders` | docked panel headers | no overlap, nearest places, exact insets |
| `Wrappers` | results, options, bytes, sequence and decimal lemmas | |

Files are byte sequences, directories are maps from names to entries. Network, disk and service failures are
choices of the environment: an event of a state machine, or an oracle that says how each call ends. Where the
source mutates an object, the model has a class whose methods are proved against a specification function, and
lemmas and state machines carry the properties of that function. Abstract operations (JSON decoding, path
resolution, the check of an existing property list) are function parameters with the laws stated where they are used.

Five results state where the code does not do what one might expect of it, with the exact condition:

- The reader makes progress on every page exactly when the scan budget is at least one maximal record and two
  bytes, the minimum the limits file sets (`LogPaging.MinimumBudget`, `LogPaging.StuckCursor`).
- Adding the flag to a Codex command line can be undone, and repeated without effect, exactly when the first
  `--` is not the value of an option; `-c --` breaks it (`CodexArguments.PrepareUndone`, `CodexArguments.SwallowedFlag`).
  Over whole launch histories the exact condition also covers profiles that no preparation ever changes, and profiles
  that only become changeable once resumed (`AgentLaunch.ProfileMatchesExactly`).
- References follow every collected file with two exceptions: the inbox executions, whose references move to the
  inbox while the file itself is copied below `state`, and the server environment, which the table does not know and
  whose references stay (`MigratedReferences.AllReferences`, with `ExecutionsAreLost` and `EnvironmentStays`).
- The writer counts the line end towards the largest record and the reader does not, so of the records it refuses
  exactly those one byte too long could be read (`LogWriter.FittingIsReadable`).
- Paragraphs keep the lines of a field's value exactly when no line but the last still ends in a carriage return
  after its line ending is taken off (`MessageText.ParagraphsKeepLines`).

## Model

| member | source | states |
|---|---|---|
| LogModel.NamesEncodeTime | crates/operation-log/src/writer.rs:24-28 | the byte order of file names is the time order of the hours they encode, and equal names mean equal hours |
| LogModel.FileNameIsLogFileName | crates/operation-log/src/reader.rs:257-273 | every name the writer formats is one the reader recognises |
| LogModel.LogFileNameMeans | crates/operation-log/src/reader.rs:257-273 | the names recognised are exactly those made of the prefix, a year, month, day and hour in digits of fixed width joined by hyphens, and the suffix |
| LogModel.FilterNarrows | crates/operation-log/src/reader.rs:31-56 | without criteria everything matches, and each criterion given narrows the filter to the records with exactly that operation, kind, source, project or level |
| LogModel.QueryNarrows | crates/operation-log/src/reader.rs:46-55 | a query narrows it to the records whose message, title, resource or operation contains the text |
| LogModel.ContainsPiece | crates/operation-log/src/reader.rs:46-55 | containing is occurring between some text before and some text after |
| LogSpec.ItemsAppend | crates/operation-log/src/reader.rs:160-184 | a file split after a complete line has the items of its second part before those of its first |
| LogSpec.TornTail | crates/operation-log/src/reader.rs:187-195 | an unterminated tail adds no item |
| LogSpec.EndLine | crates/operation-log/src/reader.rs:161-168 | one more complete line adds exactly its record, as the newest item, if it is short enough, decodes and matches |
| LogSpec.NamesFromTail | crates/operation-log/src/reader.rs:115-124 | continuing in any visited file visits that file and exactly the older ones |
| LogReader.ResumeOffset | crates/operation-log/src/reader.rs:187-195 | the continuation after an exhausted budget lies within the bytes scanned |
| LogReader.ResumeOffsetIsChosen | crates/operation-log/src/reader.rs:187-195 | the scan state decides between re-reading an unfinished line and continuing in place exactly as a property of the file's bytes says |
| LogReader.ScanByteKeeps | crates/operation-log/src/reader.rs:160-184 | one byte keeps the account: what is collected and what lies below the last line start is all there was below the start |
| LogReader.ScanBlock | crates/operation-log/src/reader.rs:150-186 | a block keeps the account, and a page that fills up in it leaves the rest to its cursor |
| LogReader.ReadContent | crates/operation-log/src/reader.rs:146-205 | one file, for every block size: read through, cut by the budget, or stopped at the item limit, with nothing lost |
| LogReader.ReadFile | crates/operation-log/src/reader.rs:126-222 | a file either ends the page with a cursor that leads to exactly the rest, or is fully accounted for |
| LogReader.ReadFiles | crates/operation-log/src/reader.rs:125-225 | over any files, limit, budget and block size, the page and what its cursor leads to are what there was; no more bytes are scanned than allowed; no cursor only when everything was returned |
| LogReader.ListFiles | crates/operation-log/src/reader.rs:227-245 | exactly the regular files with log names |
| LogReader.SortDescending | crates/operation-log/src/reader.rs:115-117 | newest name first, in whatever order the directory lists them |
| LogReader.Locate | crates/operation-log/src/reader.rs:115-145 | the files and offset a read starts from; a cursor whose file is gone or shorter has expired |
| LogReader.Read | crates/operation-log/src/reader.rs:97-225 | a page keeps its promise exactly for valid options and usable cursors, and the error says which check failed |
| LogPaging.MinimumBudget | crates/operation-log/src/limits.rs:1-4 | every page cut by its budget continues strictly lower if and only if the budget is at least the minimum of the limits file |
| LogPaging.StuckCursor | crates/operation-log/src/limits.rs:4 | with any smaller budget there is a file over which every page returns its own cursor and no item |
| LogPaging.PageLeadsOn | crates/operation-log/src/reader.rs:170-220 | the page and what remains after it are what remained before it; the next cursor is strictly lower |
| LogPaging.GrowthKeepsCursor | crates/operation-log/src/reader.rs:116-145 | appends to the cursor's file and newer files change neither a cursor's validity nor what it leads to |
| LogPaging.RunConserves | crates/operation-log/src/reader.rs:97-225 | over any run of pages through any growth, pages plus the rest are exactly what the first cursor led to |
| LogPaging.FinishedRunIsComplete | crates/operation-log/src/reader.rs:97-225 | a run that ended has returned everything once, in order |
| LogPaging.RunIsBounded | crates/operation-log/src/reader.rs:187-195 | paging ends after a number of pages fixed by the first cursor |
| LogWriter.Writer.Open | crates/operation-log/src/writer.rs:17-56 | the directory afterwards: a torn line of the current hour is ended, the appender's file exists, nothing else changes |
| LogWriter.Writer.Append | crates/operation-log/src/writer.rs:58-71 | the record's line, or the part written before a failure, is appended to the hour's file; an oversized record changes nothing |
| LogWriter.FittingIsReadable | crates/operation-log/src/writer.rs:59-62 | a record is taken exactly if its line with its end is no longer than the largest record; what is taken is shown, and what is refused would not be, except for a line just one byte too long |
| LogWriter.AppendKeeps | crates/operation-log/src/writer.rs:58-71 | an append makes its record the newest one a full read shows and keeps the invariant |
| LogWriter.CrashKeeps | crates/operation-log/src/writer.rs:63-69 | whatever prefix of a line a crash leaves, a full read shows what it showed, or the record if its line was complete |
| LogWriter.OpenKeeps | crates/operation-log/src/writer.rs:21-45 | opening separates a torn record from the next and shows at most the record whose bytes were complete |
| LogWriter.CrashSafe | crates/operation-log/src/writer.rs:10-72 | over every run, a full read shows all acknowledged records in order, and besides only records complete when a crash hit |
| LogRoundTrip.RunGrows | crates/operation-log/src/writer.rs:17-72 | between any two moments of a writer's run the log only grows in the sense cursors need |
| LogRoundTrip.PagingReturnsTheLog | crates/operation-log/src/reader.rs:97-225 | a client paging while the writer appends, crashes and restarts gets exactly the log of its first read |
| LogRoundTrip.PagingReversesAppends | crates/operation-log/src/writer.rs:58-71 | without crashes the pages are the acknowledged records in reverse |
| EditorProtocol.OpenedInv | crates/filesystem/src/files.rs:12-41 | a document opened from the server's two-step read, with any events between and after its steps, satisfies the invariant |
| EditorProtocol.KnownStays | crates/filesystem/src/write.rs:94-114 | what the client knows of a version stays true under every event |
| EditorProtocol.StepKeeps | frontend/src/aow/ProjectAow.tsx:1202-1380 | every event of client, server and other programs keeps the invariant |
| EditorProtocol.RunKeeps | frontend/src/aow/ProjectAow.tsx:1202-1380 | in every run: dirty exactly when buffer and saved text differ, never a save and a refresh in flight together, and on a matching version the disk holds the saved text |
| EditorProtocol.SaveHasOrigin | frontend/src/aow/ProjectAow.tsx:1268-1276 | every save on the server, even an abandoned one, carries the version, base and buffer of the moment it was sent |
| EditorProtocol.NoLostUpdate | crates/filesystem/src/write.rs:94-114 | a save that reaches the disk, however late, replaces exactly the text its client based the buffer on or had accepted |
| EditorProtocol.SavedContentChangesOnly | frontend/src/aow/ProjectAow.tsx:1246-1286 | the saved text changes only to what a save wrote, to a text read while clean or equal, or to one the user accepted |
| EditorProtocol.BufferChangesOnly | frontend/src/aow/ProjectAow.tsx:1246-1256 | the buffer changes only by an edit, an explicit reload, or a refresh of a clean document |
| EditorProtocol.RefreshYields | frontend/src/aow/ProjectAow.tsx:1244-1265 | a refresh leaves the document clean with the text and version read, or keeps the unsaved buffer, dirty, and either offers the text as pending or, if it is the text the buffer was based on, takes its version |
| EditorProtocol.SaveYields | frontend/src/aow/ProjectAow.tsx:1278-1300 | a successful save makes what was sent the saved text with the version of the answer and keeps the buffer; a failed one changes nothing but its own mark |
| EditorProtocol.ConflictYields | frontend/src/aow/ProjectAow.tsx:1344-1380 | of a pending text, reloading makes it the document, and keeping the local text makes it the base under the buffer; without one neither changes anything |
| EditorProtocol.SaveIsSent | frontend/src/aow/ProjectAow.tsx:1268-1276 | a save is sent exactly for an editable document with unsaved text, no conflict and nothing else under way, and it carries the buffer and its version |
| EditorProtocol.RefreshIsSent | frontend/src/aow/ProjectAow.tsx:1202-1222 | a refresh is sent exactly when no save is under way and no refresh that it may not replace |
| EditorProtocol.UndisturbedSave | crates/filesystem/src/write.rs:94-114 | a save that nothing disturbs ends with the buffer on disk and the document clean |
| EditorProtocol.RefusedSave | crates/filesystem/src/write.rs:94-114 | a save based on anything but what is on disk is refused and changes neither disk nor document |
| EditorProtocol.UndisturbedRefresh | frontend/src/aow/ProjectAow.tsx:1202-1265 | a refresh that nothing disturbs shows what is on disk, or offers it beside an unsaved edit |
| EditorProtocol.RunWitnessed | crates/filesystem/src/files.rs:14-29 | whatever a client takes to be saved has been on disk at some moment |
| EditorProtocol.NoLostEdit | frontend/src/aow/ProjectAow.tsx:1202-1380 | until the user edits or asks for a reload, a buffer keeps its text unless a refresh replaces it at a moment when it is clean and is the saved text |
| EditorProtocol.UnsavedEditIsKept | frontend/src/aow/ProjectAow.tsx:1202-1380 | an unsaved edit leaves the buffer only after it has been saved, found on disk or accepted since it was made |
| EditorProtocol.BytesFirstIsUnsafe | crates/filesystem/src/files.rs:14-25 | with the two read steps swapped, one foreign write in between breaks the invariant in every clean state: the client takes the new version to hold the old text |
| EditorProtocol.Workspace.ChangeDocument | frontend/src/aow/ProjectAow.tsx:1311-1326 | an edit is the model's edit event |
| EditorProtocol.Workspace.SaveDocument | frontend/src/aow/ProjectAow.tsx:1268-1276 | the guards and the request of a save are the model's event |
| EditorProtocol.Workspace.SaveAnswer | frontend/src/aow/ProjectAow.tsx:1278-1300 | a save's answer, success or failure, is the model's event |
| EditorProtocol.Workspace.RefreshDocument | frontend/src/aow/ProjectAow.tsx:1202-1222 | the guards and the request of a refresh are the model's event |
| EditorProtocol.Workspace.RefreshAnswer | frontend/src/aow/ProjectAow.tsx:1244-1265 | the reconciliation with the latest buffer is the model's event, whose outcome `RefreshYields` states |
| EditorProtocol.Workspace.ReloadExternalDocument | frontend/src/aow/ProjectAow.tsx:1344-1363 | an explicit reload takes the pending text |
| EditorProtocol.Workspace.KeepLocalDocument | frontend/src/aow/ProjectAow.tsx:1365-1380 | keeping the local text accepts the pending version as the base |
| JsonRelocation.MatchesByPart | scripts/migrate-aow-home.py:221 | a selector selects part by part: a name exactly itself, the star every part |
| JsonRelocation.MatchesLength | scripts/migrate-aow-home.py:221 | no selector selects a path of another length, and the empty one selects the document itself |
| JsonRelocation.SelectedByAny | scripts/migrate-aow-home.py:214-221 | several selectors select exactly what one of them selects, and none select nothing |
| JsonRelocation.WalkFindsTree | scripts/migrate-aow-home.py:226-257 | on the tokens of any acceptable tree, trailing commas included, the walk ends behind it with the relocated tree's tokens |
| JsonRelocation.WalkIsRelocation | scripts/migrate-aow-home.py:226-261 | the walk accepts a token stream if and only if it is an acceptable tree, and then writes that tree relocated |
| JsonRelocation.Unambiguous | scripts/migrate-aow-home.py:226-254 | a token stream has at most one tree |
| JsonRelocation.RelocationMeans | scripts/migrate-aow-home.py:219-254 | relocating the tokens of a tree is relocating exactly the selected strings and keys of the value it decodes to |
| JsonRelocation.RewritingCommutes | scripts/migrate-aow-home.py:212-264 | parsing the rewritten tokens gives the parsed original with `relocate` applied to exactly the selected strings and keys |
| JsonRelocation.RelocatedAt | scripts/migrate-aow-home.py:219-254 | what stands at a place of the relocated document is what stood there, relocated for the keys and indices on the way |
| JsonRelocation.StringRelocated | scripts/migrate-aow-home.py:212-264 | wherever a selected string stands in the parsed original, the parsed result has that string relocated |
| JsonSplice.Splice | scripts/migrate-aow-home.py:262-264 | splicing ordered disjoint edits from right to left is one simultaneous substitution |
| JsonSplice.EditsAreOrdered | scripts/migrate-aow-home.py:219-224 | the edits the walk collects are ordered, disjoint and inside the text |
| JsonSplice.EditedIsAssembled | scripts/migrate-aow-home.py:223-224 | substituting the edits leaves every gap, comment and other token as it was |
| JsonSplice.Walker.Rewrite | scripts/migrate-aow-home.py:219-224 | a selected string token gets an edit exactly when relocation changes it, and an undecodable one fails |
| JsonSplice.Walker.WalkMember | scripts/migrate-aow-home.py:229-239 | one member of an object, with its key, colon, value and separator |
| JsonSplice.Walker.WalkItem | scripts/migrate-aow-home.py:243-250 | one item of an array, with its separator |
| JsonSplice.Walker.Walk | scripts/migrate-aow-home.py:226-254 | the recursive walk over the token iterator computes the walk function |
| JsonSplice.WalkAll | scripts/migrate-aow-home.py:256-261 | the walk over a document fails on incomplete text and on text after the value |
| JsonSplice.RelocateJson | scripts/migrate-aow-home.py:212-264 | succeeds exactly on documents with an acceptable tree; the result is the original with only that tree's tokens exchanged |
| RelocationTable.SortKeeps | scripts/migrate-aow-home.py:124-137 | the table is ordered longest prefix first and holds exactly the given prefixes |
| RelocationTable.LongestDecides | scripts/migrate-aow-home.py:197-205 | the first match is the longest prefix that covers the path |
| RelocationTable.TextContinues | scripts/migrate-aow-home.py:204 | a text prefix that ends at a separator is a prefix of the path's components |
| RelocationTable.CoversIsPrefix | scripts/migrate-aow-home.py:204-205 | a prefix covers a path if and only if its components are the path's first ones, and what is kept is the rest of them |
| RelocationTable.DecisiveMoves | scripts/migrate-aow-home.py:197-205 | a path goes where the rule with the most components says |
| RelocationTable.ResolvedDecides | scripts/migrate-aow-home.py:197-210 | a text that no prefix covers becomes what its resolved path becomes, if it is an absolute path without newline or NUL and some prefix covers what it resolves to, and stays as it is otherwise |
| RelocationTable.ResolvedMoves | scripts/migrate-aow-home.py:199-205 | a path through a link outside the table goes where the rule with the most components sends the path it resolves to |
| Migration.StateDecides | scripts/migrate-aow-home.py:124-137 | below the state directory the target with the longest suffix decides, also when configuration and state are one directory |
| Migration.MappedFollows | scripts/migrate-aow-home.py:139-140 | references to everything below a mapped name go where the name is copied |
| Migration.AcpFollows | scripts/migrate-aow-home.py:141-147 | references below `acp` go to the cache or the data directory as the files do |
| Migration.ConfigFollows | scripts/migrate-aow-home.py:158-177 | references to every entry of the configuration go where the entry is copied |
| Migration.PlanFollows | scripts/migrate-aow-home.py:138-153 | the same for every collecting step but the two outside the table |
| Collecting.Collector.Put | scripts/migrate-aow-home.py:192-195 | a second source for a destination is refused and changes nothing |
| Collecting.Collector.Collect | scripts/migrate-aow-home.py:179-190 | one recursive collection adds what the walk of its source visits, in order, or fails as that does |
| Collecting.Collector.CollectEach | scripts/migrate-aow-home.py:138-147 | a loop over names collects what each name contributes |
| Collecting.Collector.Gather | scripts/migrate-aow-home.py:138-153 | all of the collection is the plan's items added in order, or the first failure |
| Collecting.CollectsExactly | scripts/migrate-aow-home.py:179-195 | collecting succeeds if and only if nothing is unsupported and no two files have one destination |
| Collecting.DirectoriesAre | scripts/migrate-aow-home.py:182-183 | the directories to create are exactly those visited |
| MigratedReferences.WalkedIsBelow | scripts/migrate-aow-home.py:179-190 | an entry of a walk is a file or link below the source, at the same place below the target |
| MigratedReferences.BelowIsWalked | scripts/migrate-aow-home.py:179-190 | every file or link below the source that is not skipped is an entry |
| MigratedReferences.AddedEntries | scripts/migrate-aow-home.py:192-195 | collecting keeps what was there and adds exactly the entries, each under its own destination |
| MigratedReferences.EverythingIsCollected | scripts/migrate-aow-home.py:138-190 | every file or link a step reaches is collected under its destination |
| MigratedReferences.CollectedIsReached | scripts/migrate-aow-home.py:138-190 | nothing else is collected |
| MigrationPlan.ConfigTaskIs | scripts/migrate-aow-home.py:158-177 | which entries of the configuration stay: four names, one prefix, and all but seven names if the configuration is the state directory; of every other entry the part taken and its destination |
| MigrationPlan.PlanIs | scripts/migrate-aow-home.py:138-177 | the collecting steps are exactly those of the configuration, of fourteen names of the state directory, of the entries of `acp` but one, and the three single places |
| MigrationPlan.CollectedIs | scripts/migrate-aow-home.py:138-195 | a file or link is copied to a destination if and only if one of those steps takes it there |
| MigratedReferences.ExecutionsAreLost | scripts/migrate-aow-home.py:148-151 | references to the inbox executions do not become the path the file is copied to |
| MigratedReferences.ReferencesFollowFiles | scripts/migrate-aow-home.py:103-210 | of the collected files other than the server environment, `relocate` of the source is the destination if and only if the file is not one of the inbox executions |
| MigratedReferences.ResolvedReferencesFollow | scripts/migrate-aow-home.py:199-205 | a reference through a link from outside the old installation becomes the path of the copy too |
| MigratedReferences.EnvironmentStays | scripts/migrate-aow-home.py:153 | if no source root contains the server environment and its path resolves to itself, references to it stay, and so follow it only if it is copied onto itself |
| MigratedReferences.AllReferences | scripts/migrate-aow-home.py:103-210 | of all collected files, exactly the inbox executions and a server environment that moves are not followed |
| MigratedReferences.DocumentsFollowFiles | scripts/migrate-aow-home.py:197-264 | wherever in a document a selected string named a collected file, the rewritten document, as parsed, names its copy |
| CodexArguments.ReadFlags | crates/agents/src/codex_command.rs:11-121 | the parser's loop reads what an automaton over single arguments reads |
| CodexArguments.FlagsReportLast | crates/agents/src/codex_command.rs:19-26 | the reported flag is the last one that stands as an option before the terminator, and none is reported only if none does |
| CodexArguments.FlagsMean | crates/agents/src/codex_command.rs:27-118 | a remote server is reported exactly when an argument that stands as an option names one; the command line is interactive exactly when all options are known, the first word is no command, and no value is missing at the end |
| CodexArguments.ModeMeans | crates/agents/src/codex_command.rs:20-62 | an argument is a value exactly behind an option that takes one, and literal exactly behind a terminator |
| CodexArguments.ClassesMean | crates/agents/src/codex_command.rs:22-88 | the arguments that name a remote server, and the ones that are known: words, the listed options, and the listed options with `=` and a value |
| CodexArguments.InsertedIsRead | crates/agents/src/codex_terminal.rs:28-34 | inserted where an option may stand, the flag is read there and changes nothing else |
| CodexArguments.InsertedIsSwallowed | crates/agents/src/codex_terminal.rs:28-34 | inserted before a `--` that was an option's value, the flag is not read at all |
| CodexArguments.PrepareIdempotent | crates/agents/src/codex_terminal.rs:12-36 | preparing twice is preparing once if and only if the command line is not to be changed or its first `--` is no option's value |
| CodexArguments.PrepareUndone | crates/agents/src/launch.rs:124-135 | removing the flag that is read restores the arguments under exactly the same condition |
| CodexArguments.SwallowedFlag | crates/agents/src/codex_terminal.rs:28-34 | `-c --` swallows the flag, and every preparation adds another |
| AgentLaunch.AgentLaunch.PrepareTerminal | crates/agents/src/codex_terminal.rs:12-36 | arguments and environment afterwards: the marker is present exactly for an eligible, supported launch |
| AgentLaunch.AgentLaunch.ResumeSession | crates/agents/src/launch.rs:100-115 | a valid session is appended with the agent's own argument; an invalid one changes nothing |
| AgentLaunch.ResumptionAddsNoFlag | crates/agents/src/launch.rs:107-113 | resuming neither adds nor moves the flag that is read |
| AgentLaunch.ProfileMatchesItsLaunches | crates/agents/src/launch.rs:120-148 | a lasting profile matches every launch made of any number of preparations and at most one resumption, in any order |
| AgentLaunch.ProfileMatchesExactly | crates/agents/src/launch.rs:120-148 | all histories of a Codex profile's launches are recognised if and only if its first `--` is no option's value or something in it keeps every preparation from changing it |
| AgentLaunch.MatchesExactly | crates/agents/src/launch.rs:120-148 | a profile matches exactly the arguments that, compared without the flag, are its own followed by nothing or by a resumption with a session |
| AgentLaunch.OnlyResumptionsMatch | crates/agents/src/launch.rs:141-147 | words behind a profile match if and only if they are none or a resumption with a session that is not empty |
| AgentLaunch.ForeignNeverMatches | crates/agents/src/launch.rs:141 | arguments that do not begin with the profile's never match |
| AgentLaunch.UninjectedLeavesOut | crates/agents/src/launch.rs:124-135 | comparing leaves out the flag that is read, and nothing else |
| AgentLaunch.PreparedMatches | crates/agents/src/launch.rs:120-148 | a profile matches its prepared launch, resumed or not, if and only if the preparation can be undone |
| UploadNames.CandidateFits | crates/filesystem/src/write.rs:133-146 | a numbered name has at most 255 bytes, is valid text, keeps the extension, and cuts the stem between characters and only as far as needed |
| UploadNames.ExtensionStays | crates/filesystem/src/write.rs:129-146 | a numbered name is a part of what precedes the last dot, the number, and the last dot with all that follows it |
| UploadNames.NumberLast | crates/filesystem/src/write.rs:129-146 | without a dot, but for a leading one, the number comes last |
| UploadNames.CandidatesDiffer | crates/filesystem/src/write.rs:133-146 | numbered names of one upload are pairwise distinct |
| Uploads.NameAt | crates/filesystem/src/write.rs:133-146 | the loop that steps back to a character boundary finds the candidate name |
| Uploads.Receive | crates/filesystem/src/write.rs:81-89 | the temporary file holds all pieces in order, or the upload fails |
| Uploads.Folder.PublishUnique | crates/filesystem/src/write.rs:124-160 | the first free candidate gets the content and nothing else changes; each error says what was found |
| Uploads.LinkKeeps | crates/filesystem/src/write.rs:150-157 | one link attempt replaces nothing and claims only a free name |
| Uploads.RunKeeps | crates/filesystem/src/write.rs:42-160 | every interleaving of uploads and foreign new entries keeps the invariant and all entries |
| Uploads.UploadsArePublished | crates/filesystem/src/write.rs:29-30 | what is published stays, with the upload's complete bytes, under a name of its own that was free, and no entry is ever replaced |
| Uploads.GivesUpOnlyWhenFull | crates/filesystem/src/write.rs:133-159 | an upload gives up for want of a name only when all ten thousand names are taken |
| Registration.System.BootOut | scripts/register-launchdaemon.py:133 | the service is still there when the call succeeds, and may be gone when it fails |
| Registration.System.Unload | scripts/register-launchdaemon.py:130-138 | success means the service is no longer loaded and otherwise unchanged; failure leaves it as it was or unloaded; nothing else changes |
| Registration.System.Install | scripts/register-launchdaemon.py:181-188 | success means the new property list, enabled and loaded |
| Registration.System.Restore | scripts/register-launchdaemon.py:191-202 | success means the service is exactly as in its snapshot |
| Registration.System.InspectAll | scripts/register-launchdaemon.py:161-178 | snapshots are the services as they are; looking changes nothing and refuses unmanaged services |
| Registration.System.RollBack | scripts/register-launchdaemon.py:190-204 | each service is restored exactly if its own calls succeed, in reverse order; services are left out only if a call of the rollback was interrupted |
| Registration.System.Register | scripts/register-launchdaemon.py:156-205 | success installs everything; failure gives the reason of the call that failed, leaves untouched services alone, reports each rollback truthfully, passes over a service only if a call was interrupted, and restores everything if no rollback call fails |
| Registration.WhollyRestored | scripts/register-launchdaemon.py:190-204 | without a failure during rollback every service is as it was |
| Utf8.CharsAreScalars | crates/macos-log/src/logger.rs:23-26 | the byte sequences taken for characters are exactly the shortest encodings of the Unicode scalar values (section 3 of RFC 3629) |
| Utf8.CutAtBoundary | crates/macos-log/src/logger.rs:23-36 | cutting valid text between characters leaves two valid texts |
| Utf8.BoundaryNear | crates/macos-log/src/logger.rs:24-26 | a boundary is never more than three bytes back |
| Utf8.StepBack | crates/macos-log/src/logger.rs:23-26 | the inner loop ends at the last boundary within the limit |
| MessageLog.Emit | crates/macos-log/src/logger.rs:16-38 | the records written are the chunks of the escaped, trimmed message, continuations marked |
| MessageLog.ChunksAreGood | crates/macos-log/src/logger.rs:22-27 | every chunk is non-empty valid text of at most 768 bytes, and of at least 765 unless it is the last |
| MessageLog.ChunksAreLongest | crates/macos-log/src/logger.rs:23-27 | no chunk could have held another character |
| MessageLog.BodyIsText | crates/macos-log/src/logger.rs:19-20 | escaping and trimming leave valid text without NUL and without a trailing newline |
| MessageLog.EscapeWritesOut | crates/macos-log/src/logger.rs:19 | every NUL is written out as `\0` and nothing else changes |
| MessageLog.RecordsHoldMessage | crates/macos-log/src/logger.rs:16-38 | the records are valid and free of NUL, and without their marks they join to the message |
| GitStatus.ReadLimited | crates/git-service/src/command.rs:65-81 | for any chunking the bytes kept are the stream up to the limit; truncated exactly when a non-empty stream reaches it |
| GitStatus.Parse | crates/git-service/src/status.rs:132-161 | the index loop computes the record parser |
| GitStatus.ParseUndoesPrint | crates/git-service/src/status.rs:132-161 | parsing what was printed gives the entries back, renames and copies included |
| GitStatus.PrefixParses | crates/git-service/src/status.rs:132-161 | of any bytes, a prefix parses to the entries of the whole, with only the last perhaps cut short |
| GitStatus.ReadStatus | crates/git-service/src/status.rs:74-83 | a status read under a limit is complete if not truncated, and right but for its last entry if it was |
| AttachUri.EncodedId | crates/terminald-client/src/paths.rs:43-45 | encoded identifiers hold only unreserved characters and percent signs, and decode to the identifier |
| AttachUri.Attach | crates/terminald-client/src/paths.rs:13-41 | the stepwise construction is the address with its query pairs in order |
| AttachUri.ParseUndoesQuery | crates/terminald-client/src/paths.rs:22-40 | the query splits into the pairs it was made of |
| AttachUri.DecodeUndoesAddress | crates/terminald-client/src/paths.rs:13-41 | a decoder recovers the identifier, the position when both its parts were given, and the three flags |
| MessageText.Truncate | crates/im/src/message.rs:63-71 | never longer than the limit, unchanged exactly when it fits, and otherwise as much of the beginning as leaves room for the ellipsis |
| MessageText.Text | crates/im/src/message.rs:25-53 | the loop over the fields produces the specified text |
| MessageText.KeptLeavesRoom | crates/im/src/message.rs:41-45 | kept fields leave 300 characters |
| MessageText.EverythingFits | crates/im/src/message.rs:41-45 | fields that all leave room are all kept |
| MessageText.KeptExactly | crates/im/src/message.rs:28-45 | a field is kept if and only if it leaves 300 characters after the title and the fields kept before it, and its neighbours are kept accordingly |
| MessageText.TextWithinLimit | crates/im/src/message.rs:47-52 | the bound; the final truncation cuts nothing exactly when the prefix fits, as it does with a kept field or a limit of 205; a kept field leaves the body whole or 255 characters |
| MessageText.UrlsAreComplete | crates/im/src/message.rs:21-34 | the address of every kept field is in the text, complete |
| MessageText.FieldIsShown | crates/im/src/message.rs:28-45 | the text shows, of every kept field, the shortened name, every non-blank line of the shortened value, and the whole address if there is one |
| MessageText.FrameShows | crates/im/src/message.rs:26-52 | the text begins with the title and shows the name of the body and the body as far as it has room |
| MessageText.ParagraphsKeepLines | crates/im/src/message.rs:56-61 | read back, the paragraphs are the non-blank lines of the value in order, exactly when no line but the last still ends in a carriage return |
| DockedHeaders.Measure | frontend/src/components/AowPanel.tsx:40-72 | the loop's docks and offsets, and insets equal to the summed heights of the docked groups |
| DockedHeaders.BottomInsetIsSum | frontend/src/components/AowPanel.tsx:68 | the running maximum ends as the summed heights of the bottom-docked headers |
| DockedHeaders.DocksAreOrdered | frontend/src/components/AowPanel.tsx:56-62 | top-docked headers form a prefix and bottom-docked ones a suffix |
| DockedHeaders.ShownIsNearest | frontend/src/components/AowPanel.tsx:57-64 | in an uncrowded viewport a header is shown as near to its natural place as the headers before and after it allow, and is left alone exactly if they allow that place |
| DockedHeaders.DockedStack | frontend/src/components/AowPanel.tsx:59-69 | docked headers stand edge to edge from the top edge down and from the bottom edge up |
| DockedHeaders.CrowdedMeans | frontend/src/components/AowPanel.tsx:45-47 | a viewport is crowded exactly if the headers leave less than 100 pixels of it and less than half of it |
| DockedHeaders.CrowdedStays | frontend/src/components/AowPanel.tsx:61-68 | in a crowded viewport nothing is docked and nothing is inset |
| DockedHeaders.ShownApart | frontend/src/components/AowPanel.tsx:59-66 | in an uncrowded viewport every header is inside it and clear of the one before |
| DockedHeaders.NoOverlap | frontend/src/components/AowPanel.tsx:59-66 | no two headers overlap |

## Left out

- Real input and output: read errors other than missing files, permissions, power loss and time. Failures are environment choices as described above.
- LogWriter.Writer.Open: the appender's deletion of files beyond the retained count is not modelled.
- LogWriter.Writer.Append: nor is that deletion when the hour changes.
- The operation log: the clock running backward, and a writer that goes on in the same process after a failed write. A failed write is followed by an `Open`, and a read sees one directory state.
- JSON decoding and the token expression of the migration: parameters with stated laws (decoding undoes encoding, no proper prefix of a record decodes, tokens are ordered, disjoint and cover their text).
- LogReader.Read: the check that a name is a single path component is not repeated, because no name of the required shape has a separator.
- EditorProtocol.RunKeeps: one document in one workspace; documents whose content is still loading, images, diffs and the automatic save timer (an enabled save may happen at any moment) are not modelled. The recheck, rename and stat of a save are one step, and versions never recur.
- EditorProtocol.NoLostEdit: renaming or moving a file, which checks `dirty` before awaited calls and then writes the buffer, is outside the claim.
- MigratedReferences.AllReferences: the source roots are assumed disjoint, except that configuration and state may be the same directory; the destination is not the file system root; the server environment lies outside configuration and state and its path resolves to itself. What `relocate` does with lists and objects, databases, schedules, copying and permissions is not modelled.
- MigratedReferences.ReferencesFollowFiles: the server environment is excluded here and covered by `AllReferences`.
- Collecting.Collector.Gather: a symbolic link is followed to any depth where the source follows it, so a tree with cyclic links is taken as unfolded only as far as it is visited. The order of a directory listing is a given.
- AgentLaunch.ProfileMatchesItsLaunches: whether the command line supports the flag is an arbitrary answer of each preparation; the help probe with its time limit is not modelled. Legacy profiles without an agent type, which match nothing, are left out.
- Uploads.UploadsArePublished: no program removes entries, and temporary names never collide with requested ones; the version-checked form of the write is part of the editor protocol.
- Registration.System.Register: reading and checking the request, file ownership checks, and the polling interval; asking for a service to go and waiting until it is gone are single calls, and a service removed late after a time-out is not modelled.
- GitStatus.Parse: the lossy conversion of paths that are not valid text; standard error and exit status.
- MessageLog.Emit: log levels and the system call.
- DockedHeaders.Measure: style updates, the crowded viewport's jump list, scrolling.
- Everything else of the repository: rendering, HTTP routes and sockets, the service binaries, validators and dispatch tables.
