# R-AI-OS: memory, locks, sessions and text editing

A Dafny model of the parts of R-AI-OS that keep or rewrite what a developer cannot get back,
with proofs about all inputs and all runs:

- **Memory archive** (`MemoryParse`, `MemoryPlan`, `MemoryInsert`, `MemoryApply`, `MemoryEntries`,
  `MemoryTidy`; `MemoryOutcome`, `InsertOutcome`, `ArchiveOutcome`). `memory.md` is parsed into
  sections and entries, a plan decides which entries stay under a byte budget, the others are
  appended to `memory.archive.md`, and `memory.md` is replaced unless somebody changed it meanwhile.
  Apply is a protocol of single steps with a writer in between and a crash possible after each; what
  it keeps is proved of lines and of whole entries, and the texts on which nothing is lost are
  described.
- **Lock manager** (`LockManager`; `LockHistory`). Priorities, preemption, re-entrant refresh, lazy
  expiry and a sweeper on one table.
- **Session recovery** (`WrapperLiveness`, `SessionRecovery`; `SessionOutcome`). Which wrapper runs
  are proven dead, which saved conversations may be resumed, and what the launch registers.
- **Parsers, printers and editors** (`Constitution`, `Tasks`, `TrayConfig`, `TraySave`,
  `AgentWrapper`; `OutlineOutcome`, `TaskOutcome`, `TrayRead`, `TrayFresh`, `ShellOutcome`). The
  constitution outline, task lines, TOML settings and the block in a shell rc file.
- **Worklists and streams** (`ContextBudget`, `Entities`, `DaemonClient`, `Truncation`). The bounded
  directory walk, nested projects, message framing, and cutting UTF-8 text.

The modules behind a semicolon say what the operations do in the characters, bytes, seconds and
fields themselves, apart from the functions that compute it: what a plan keeps of which section,
what a lock answers when, what a saved key is read back as.

`Seqs`, `Text` and `Words` hold the vocabulary: sequences, lines, blank space, words, numerals.

Text is a sequence of Unicode scalar values; lines end at `\n`. Loops of the source are methods
proved against a specification function, objects it updates are classes, and the theorems are
lemmas about those functions. File contents, stat files, database rows, clocks, UUID and JSON
parsing, and the order in which a directory or a query is enumerated are parameters.

Six promises do not hold of the code on all inputs. Each has its exact condition and an example:

- An entry whose first line is in the archive already is not archived, even if the rest differs
  (`MemoryApply.HeldExactly`, `MemoryApply.AppendIsSafeExactly`, `MemoryApply.SkippedExample`). Runs
  on texts in which entries that begin alike are alike are safe (`MemoryTidy.NothingPassedOver`).
- A Change Log entry is written into the last line of a file that stops in the middle of a Change
  Log without entries (`MemoryInsert.EntryAddedExactly`, `MemoryInsert.JoiningExample`).
- A save writes a setting into the last line of a configuration that does not end in a line break,
  and the setting is lost (`TrayConfig.UpsertSettlesExactly`, `TraySave.SaveIsFixpoint`,
  `TraySave.SaveJoinIsForeseen`, `TraySave.LostFlagExample`).
- Replacing the shell block a second time removes more if the last line outside the blocks that is
  not blank is a marker followed by blank space (`AgentWrapper.StripOfInstall`,
  `AgentWrapper.InstallRuns`, `AgentWrapper.EndsInMarkerWhen`, `AgentWrapper.PaddedMarkerExample`).
- A conversation that is running is offered if the row that says so lies behind one that cannot be
  read or behind the limit (`SessionRecovery.OfferedThoughBlocked`, `SessionRecovery.UnreadExample`).
- A message that a lost connection cut off is put in front of the first one of the next connection
  (`DaemonClient.ReconnectsExactly`, `DaemonClient.GluedExample`).

## Model

| member | source | states |
|---|---|---|
| `Text.SplitThenFlatten` | crates/raios-runtime/src/memory_archive.rs:213-214 | Cutting a text into lines that keep their line ends loses no character |
| `Text.FlattenThenSplit` | crates/raios-runtime/src/memory_archive.rs:213-214 | Well-formed lines are exactly what their concatenation is cut into |
| `MemoryParse.SectionsTile` | crates/raios-runtime/src/memory_archive.rs:103-116 | The section ranges tile the lines from the first heading to the end; exactly the headings start a range |
| `MemoryParse.RenderParsed` | crates/raios-runtime/src/memory_archive.rs:103-116 | Cutting a text into preface and sections loses nothing |
| `MemoryParse.ParseRendered` | crates/raios-runtime/src/memory_archive.rs:103-116 | A well-formed document is the only one its lines are parsed into |
| `MemoryParse.SplitBodyUnique` | crates/raios-runtime/src/memory_archive.rs:126-148 | Preamble, entries and trailing blank lines are the only way to cut a section body so |
| `MemoryParse.ContentEndLoop` | crates/raios-runtime/src/memory_archive.rs:127-131 | The loop that walks back over blank lines stops behind the last line that is not blank |
| `MemoryParse.SplitBodyLoop` | crates/raios-runtime/src/memory_archive.rs:126-148 | The loop over a body opens an entry at each bullet and gives other lines to the open entry or the preamble |
| `MemoryParse.SplitPointLoop` | crates/raios-runtime/src/memory_archive.rs:183-201 | The loop from the newest end keeps the greatest number of entries that is within the minimum or the byte budget |
| `MemoryPlan.NewestStretch` | crates/raios-runtime/src/memory_archive.rs:247-266 | The newest k entries are one stretch of the section; the entries to move lie around it in order |
| `MemoryPlan.LogKeepsNewest` | crates/raios-runtime/src/memory_archive.rs:183-201 | A log of known order keeps its newest entries, as many as fit the policy and no more |
| `MemoryPlan.PlanLogSection` | crates/raios-runtime/src/memory_archive.rs:229-287 | One turn of the planning loop writes the kept lines behind what was written and yields the texts of the moved entries; the line end it may supply is never needed |
| `MemoryPlan.PlanLoop` | crates/raios-runtime/src/memory_archive.rs:212-287 | The loop over the sections computes the planned text, the moved texts and the count of misfiled entries |
| `MemoryPlan.PlannedLinesKeepOrder` | crates/raios-runtime/src/memory_archive.rs:212-287 | The new text is cut into a subsequence of the original lines |
| `MemoryPlan.PlannedDoc` | crates/raios-runtime/src/memory_archive.rs:212-287 | The new text parses into the planned document, section by section |
| `MemoryPlan.ReplanBody` | crates/raios-runtime/src/memory_archive.rs:126-201 | Planning a section again moves nothing, even when blank lines moved to its end or the detected order turned round |
| `MemoryPlan.PlanIdempotent` | crates/raios-runtime/src/memory_archive.rs:212-287 | For every text and policy a second plan moves nothing and changes no character |
| `MemoryPlan.PlanConservesLines` | crates/raios-runtime/src/memory_archive.rs:212-287 | The lines of the new text and of the moved texts are together the original lines, as often as they occurred |
| `MemoryPlan.PlanConservesBytes` | crates/raios-runtime/src/memory_archive.rs:212-287 | The UTF-8 sizes of the new text and of the moved texts add up to that of the original |
| `MemoryPlan.PlanLosesNothing` | crates/raios-runtime/src/memory_archive.rs:299-314 | The check for lost lines succeeds for every plan, so its refusal is never taken |
| `MemoryPlan.OtherSectionsUntouched` | crates/raios-runtime/src/memory_archive.rs:229-246 | Preface, headings and number of sections stay; a section that is no log, or has no known order, keeps its body |
| `MemoryOutcome.EveryTextIsADocument` | crates/raios-runtime/src/memory_archive.rs:103-148 | Every text is a preface and sections of a heading, preamble, entries and blank lines, told apart by how their lines begin |
| `MemoryOutcome.DocumentIsParsed` | crates/raios-runtime/src/memory_archive.rs:103-148 | Such a document is what is parsed from its text |
| `MemoryOutcome.OrderIs` | crates/raios-runtime/src/memory_archive.rs:150-174 | The detected order is newest first, or oldest first, exactly if the first and the last date that an entry begins with, read digit by digit, are so; no date or equal ones give none |
| `MemoryOutcome.PlanWrittenOut` | crates/raios-runtime/src/memory_archive.rs:183-287 | Of a Change Log as many newest entries stay as fit changeLogBytes, of Instincts as many as fit instinctBytes, or the minimum, and the next one would not fit; the written text, both lists of moved texts and the misfiled count are given line by line |
| `MemoryInsert.KeptRangeIsKept` | crates/raios-runtime/src/memory_archive.rs:247-287 | Exactly the entries with an index in the kept range stay in a section, the others are moved |
| `MemoryInsert.NewEntryInKeptRange` | crates/raios-runtime/src/memory_archive.rs:164-201 | An entry put at the newest end, not older than the dated ones, is in the kept range of the next plan, whatever order is detected then |
| `MemoryInsert.InsertedLines` | crates/raios-runtime/src/memory_archive.rs:475-512 | Unless it joins a line, the entry becomes one new line between the others, which stay as they were |
| `MemoryInsert.InsertedDoc` | crates/raios-runtime/src/memory_archive.rs:475-512 | The text with the entry parses into the same document but for one more entry at the newest end of the Change Log |
| `MemoryInsert.NewSectionLines` | crates/raios-runtime/src/memory_archive.rs:482-487 | Without a Change Log section the trimmed text is followed by a blank line and a new section with just the entry |
| `MemoryInsert.EntryAddedExactly` | crates/raios-runtime/src/memory_archive.rs:475-512 | For every text: the entry is added as an entry of its own if and only if the file does not stop in the middle of a Change Log without entries |
| `MemoryInsert.JoiningExample` | crates/raios-runtime/src/memory_archive.rs:493-506 | A file that is just the heading, without a line end: the entry is written into the heading |
| `MemoryInsert.InsertedEntries` | crates/raios-runtime/src/memory_archive.rs:475-512 | After an insertion that joins no line, the first Change Log has the entries it had and the new one at its newest end |
| `MemoryInsert.InsertThenArchiveKeeps` | crates/raios-runtime/src/memory_archive.rs:475-512 | After a one-line entry, not older than the dated ones, is inserted without joining a line, the next plan keeps the inserted occurrence, for every order, for a section that was missing, and for every policy that keeps an entry at all |
| `MemoryInsert.InsertedLineSurvives` | crates/raios-runtime/src/memory_archive.rs:475-512 | Under the same conditions the line of the entry is in the text that the next archive run writes back |
| `MemoryInsert.InsertChangeLogEntry` | crates/raios-runtime/src/memory_archive.rs:475-512 | The code's sequence of writes produces the text with the entry |
| `InsertOutcome.InsertWrittenOut` | crates/raios-runtime/src/memory_archive.rs:475-512 | An entry goes behind the entries of a Change Log whose last date is its newest, with the line before it ended, and in front of the entries of any other |
| `InsertOutcome.NewSectionWrittenOut` | crates/raios-runtime/src/memory_archive.rs:475-487 | Without a Change Log the text becomes itself trimmed, a blank line, the heading and the entry, character by character |
| `MemoryApply.ArchiveBlockLoop` | crates/raios-runtime/src/memory_archive.rs:318-342 | The loop over the moved texts writes a heading with their number and each text with its line end, leaving out those whose first line is archived |
| `MemoryApply.AlreadyLine` | crates/raios-runtime/src/memory_archive.rs:423-429 | A key counts as archived exactly if a line of the archive, trimmed at its end, is that key |
| `MemoryApply.FullLinesAppend` | crates/raios-runtime/src/memory_archive.rs:424-436 | Appending keeps the archive's complete lines and puts the new ones behind them |
| `MemoryApply.HeldExactly` | crates/raios-runtime/src/memory_archive.rs:318-342 | After the append the archive holds a moved entry in full if and only if its first line was new to the archive or the entry was there already |
| `MemoryApply.AppendIsSafeExactly` | crates/raios-runtime/src/memory_archive.rs:318-342 | All selected entries are archived before the replacement if and only if none was passed over for its first line alone |
| `ArchiveOutcome.AdditionWrittenOut` | crates/raios-runtime/src/memory_archive.rs:318-358 | What is appended: a header if the archive is empty, then for each log a heading with date and decimal count and the texts whose first line no line of the archive is |
| `MemoryApply.SkippedExample` | crates/raios-runtime/src/memory_archive.rs:318-342 | An archived first line with another second line: a run on this text appends nothing, replaces memory.md, and the second line is in neither file |
| `MemoryApply.RunIsSafe` | crates/raios-runtime/src/memory_archive.rs:384-449 | In every interleaving of archiver steps, a writer and crashes in which no append passes over a selected entry, the selected entries are in the archive before memory.md is replaced |
| `MemoryApply.RunKeepsLine` | crates/raios-runtime/src/memory_archive.rs:384-449 | In every such run a line that holds something and that the writer does not delete stays in memory.md or in the archive |
| `MemoryApply.HeldForever` | crates/raios-runtime/src/memory_archive.rs:384-449 | What the archive holds in full it holds in full after every run, whatever the appends pass over |
| `MemoryApply.WriterWins` | crates/raios-runtime/src/memory_archive.rs:440-446 | A text written while a run is under way, other than the one it read, is never overwritten by that run |
| `MemoryApply.NothingMoreToAdd` | crates/raios-runtime/src/memory_archive.rs:318-342 | Once a plan is appended, appending it again adds nothing, whatever the archive held before |
| `MemoryApply.RetryCompletes` | crates/raios-runtime/src/memory_archive.rs:384-449 | After a crash between append and replacement the next run leaves the archive alone and completes the replacement |
| `MemoryApply.SecondRunIdle` | crates/raios-runtime/src/memory_archive.rs:384-405 | A run on a text just written back has nothing to do |
| `MemoryApply.ProjectDir.ArchiveMemoryWith` | crates/raios-runtime/src/memory_archive.rs:384-449 | The method is one run of the protocol: exact new contents of both files, exact report, no change on a dry run or when nothing is selected |
| `MemoryApply.ProjectDir.ArchiveIfOversized` | crates/raios-runtime/src/memory_archive.rs:454-465 | Nothing happens to a file that is missing or not larger than the trigger; otherwise one run of the protocol, with its report, and no change if nothing is selected |
| `MemoryEntries.PlanKeepsBlock` | crates/raios-runtime/src/memory_archive.rs:212-287 | Lines of one entry that stand together in the text stand together in the planned text or in a moved entry |
| `MemoryEntries.ReplaceKeepsEntry` | crates/raios-runtime/src/memory_archive.rs:431-447 | Replacing memory.md keeps the lines of every entry together, in the new text or in the archive |
| `MemoryEntries.RunKeepsEntry` | crates/raios-runtime/src/memory_archive.rs:384-449 | In every run in which no append passes over a selected entry, with any writer and any crash, an entry whose lines the writer leaves together stands together in memory.md or in the archive |
| `MemoryTidy.PlannedAmong` | crates/raios-runtime/src/memory_archive.rs:212-287 | A planned text has no log entries but those of its original, blank lines at their ends aside |
| `MemoryTidy.SelectedAmong` | crates/raios-runtime/src/memory_archive.rs:212-287 | A plan selects only log entries of the text |
| `MemoryTidy.NothingPassedOver` | crates/raios-runtime/src/memory_archive.rs:384-449 | If log entries of the texts that a run is given which begin alike are alike, no bare bullets among them, and the archive holds in full those it knows the first line of, then no append of the run passes over an entry, with any policies, order of steps, crashes and retries; dates are one line and a new archive's header has no bullets |
| `MemoryTidy.SelectedNeverLost` | crates/raios-runtime/src/memory_archive.rs:384-449 | In every run on such texts that starts from the text of a plan, every selected entry that the writer leaves together stands together in memory.md or in the archive |
| `MemoryTidy.LineNeverLost` | crates/raios-runtime/src/memory_archive.rs:384-449 | In every run on such texts a line that holds something and that the writer does not delete stays in memory.md or in the archive |
| `LockManager.Manager.constructor` | crates/raios-core/src/lock_manager.rs:72-76 | A new manager holds no lock |
| `LockManager.Manager.Acquire` | crates/raios-core/src/lock_manager.rs:80-133 | Table and answer of an acquire: refresh by the owner, refusal at equal or higher priority, preemption, default timeout |
| `LockManager.Manager.Release` | crates/raios-core/src/lock_manager.rs:137-159 | Table and answer of a release, with both failures |
| `LockManager.Manager.IsLocked` | crates/raios-core/src/lock_manager.rs:162-172 | Answer of the query, and the removal of the entry if it has expired |
| `LockManager.Manager.List` | crates/raios-core/src/lock_manager.rs:175-194 | The status of every unexpired lock; the expired ones are removed and no other |
| `LockManager.Manager.SweepExpired` | crates/raios-core/src/lock_manager.rs:197-202 | The number of expired locks; they are removed and no other |
| `LockManager.ApplyIsCoreThenPurge` | crates/raios-core/src/lock_manager.rs:80-203 | Each operation is its purge-free form followed by a purge of expired entries |
| `LockManager.LazyRefinesEager` | crates/raios-core/src/lock_manager.rs:80-203 | Over any run with any purges and sweeps every answer is that of a manager that drops expired locks at once, and the same locks count; only a release of an expired lock may differ |
| `LockManager.SweepsAreInvisible` | crates/raios-core/src/lock_manager.rs:197-203 | Two runs that differ in sweeps and purges give the same answers, releases of expired locks aside, and leave the same unexpired locks |
| `LockManager.ManagerRunsArePurgingRuns` | crates/raios-core/src/lock_manager.rs:80-203 | Runs of the manager, with the purges it makes itself, are runs of that kind |
| `LockManager.EntryChanges` | crates/raios-core/src/lock_manager.rs:80-159 | An unexpired lock leaves its owner if and only if a strictly higher priority acquires it, or the owner or a User-priority caller releases it |
| `LockManager.RefusedChangesNothing` | crates/raios-core/src/lock_manager.rs:80-159 | A refused acquire and a failed release change nothing |
| `LockManager.OwnerKeepsLock` | crates/raios-core/src/lock_manager.rs:80-159 | Over any run a lock stays with its owner as long as it does not expire and nobody entitled takes it |
| `LockManager.AtMostTwoChanges` | crates/raios-core/src/lock_manager.rs:80-133 | Without release, expiry or refresh in between, the owner changes at most as often as there are priorities above the first, so at most twice |
| `LockManager.RefreshLowersPriority` | crates/raios-core/src/lock_manager.rs:91-105 | With refreshes at a lower priority in between, there can be three changes |
| `LockHistory.AnswersFollowHistory` | crates/raios-core/src/lock_manager.rs:80-203 | Every answer of a run of a new manager follows from the calls before it, their times and their answers: a grant lasts the time asked for or 30 seconds, unless granted again or released; with owners, priorities, elapsed and total seconds in listings, and the count of a sweep |
| `LockHistory.GrantLasts` | crates/raios-core/src/lock_manager.rs:80-133 | After a granted acquire, a refresh or preemption included, and until the next grant or release, the key is locked if and only if no more than the time asked for, or 30 seconds, has passed |
| `Constitution.MarkerStripped` | crates/raios-runtime/src/constitution.rs:88-102 | A leading list marker is cut off the trimmed line |
| `Constitution.OnlyMarkerStripped` | crates/raios-runtime/src/constitution.rs:88-102 | Nothing but a list marker is ever cut off |
| `Constitution.ParseBodyLoop` | crates/raios-runtime/src/constitution.rs:47-86 | The loop over a body, with the shared cursor, yields the items, the subsections, the last solid line and the cursor of the specification |
| `Constitution.ParseSectionsLoop` | crates/raios-runtime/src/constitution.rs:13-45 | The outer loop yields the sections of the specification |
| `Constitution.ParserLosesNothing` | crates/raios-runtime/src/constitution.rs:13-102 | Flattening sections, items and subsections gives exactly the non-blank lines from the first header on, in order and of the right kind |
| `Constitution.LineRanges` | crates/raios-runtime/src/constitution.rs:13-86 | Line ranges are disjoint, increasing and nested, start at their headers, and leave out only blank lines |
| `Constitution.ParseInParts` | crates/raios-runtime/src/constitution.rs:13-45 | A text followed by one that opens with a header parses into the sections of both, the later ones with shifted line numbers |
| `OutlineOutcome.EveryTextIsAnOutline` | crates/raios-runtime/src/constitution.rs:13-86 | Every text is lines before the first header, and parts told apart by the signs their lines begin with |
| `OutlineOutcome.OutlineWrittenOut` | crates/raios-runtime/src/constitution.rs:13-102 | Of each part the outline has the trimmed title, the places of its header and of its last solid line, its own solid lines without list markers, and its subsections in the same way |
| `TrayConfig.UpsertLoop` | tools/raios-tray/raios-tray.py:776-805 | The searches and edits of the code compute the specified text |
| `TrayConfig.UpsertByLines` | tools/raios-tray/raios-tray.py:776-805 | On a text that is empty or ends in a line break the edit acts line by line and leaves such a text |
| `TrayConfig.UpsertSettles` | tools/raios-tray/raios-tray.py:776-805 | Afterwards the first assignment of the key in its searched range carries the value |
| `TrayConfig.SettledIsKept` | tools/raios-tray/raios-tray.py:798-802 | Setting what is already set changes nothing |
| `TrayConfig.UpsertKeepsOthers` | tools/raios-tray/raios-tray.py:776-805 | Setting one key leaves every other key's first assignment in its range with its value, also across sections |
| `TrayConfig.UpsertKeepsForeign` | tools/raios-tray/raios-tray.py:776-805 | Lines that assign none of the keys stay, unchanged and in order; only a missing section's header is added |
| `TrayConfig.UpsertSettlesExactly` | tools/raios-tray/raios-tray.py:776-805 | For every text: the key ends up with the value if and only if the line is not put behind an unfinished last line that holds something |
| `TraySave.EditKeepsSettled` | tools/raios-tray/raios-tray.py:776-805 | For every text, also one without a last line break, setting one key leaves every other key's setting in place |
| `TraySave.UpsertSettlesNoOther` | tools/raios-tray/raios-tray.py:776-805 | Setting one key puts no other key's setting in place |
| `TraySave.EditKeepsOtherLines` | tools/raios-tray/raios-tray.py:776-805 | For every text: unless the setting is put behind such a line, the lines that hold something and assign none of the keys stay, and only a missing section's header is added |
| `TraySave.SaveKeys` | tools/raios-tray/raios-tray.py:818-825 | One loop of the save sets its keys one after the other |
| `TraySave.SaveConfigLoop` | tools/raios-tray/raios-tray.py:808-825 | The three loops set the nineteen keys in the code's order |
| `TraySave.SaveIsFixpoint` | tools/raios-tray/raios-tray.py:808-825 | For every text: a save puts all nineteen settings in place, and a second save changes nothing, if and only if no setting is put behind an unfinished last line that holds something |
| `TraySave.SaveJoinIsForeseen` | tools/raios-tray/raios-tray.py:808-825 | Whether that happens is seen from the text before the save: one of the keys is missing from a range that ends with the unfinished last line, and all keys before it are set before that line |
| `TraySave.SecondSaveIsFixpoint` | tools/raios-tray/raios-tray.py:808-825 | After two saves of any text all nineteen settings are in place and a third changes nothing |
| `TraySave.LostFlagExample` | tools/raios-tray/raios-tray.py:808-825 | A file that is the bare section header without a line break: the first flag is written on the header's line and not set, and a second save changes the file again |
| `TraySave.SaveKeepsOtherLines` | tools/raios-tray/raios-tray.py:808-825 | For every text: the lines that hold something and assign none of the nineteen keys stay, unchanged and in order, if and only if no setting is put behind such a line; nothing of that kind is added but the header of a missing daemon section |
| `TrayRead.SavedIsReadBack` | tools/raios-tray/raios-tray.py:750-825 | After a save in which no setting is put behind an unfinished line, each of the nineteen keys is read back, by a reader of its own, from the first line of its range that names it: the text unescaped, the flag as true or false, the number from its digits and sign |
| `TrayFresh.FreshSaveIsSerialized` | tools/raios-tray/raios-tray.py:758-825 | Without a file, or with an empty one, the save's nineteen edits write character by character what serialize_raios_config writes at once: keys in their order, a blank line and the section header between |
| `WrapperLiveness.ParseStatLine` | crates/raios-runtime/src/wrapper_liveness.rs:114-125 | For every command name, parentheses included, field 3 and field 22 of a stat line are found, and only for its own pid |
| `WrapperLiveness.DeadIsDead` | crates/raios-runtime/src/wrapper_liveness.rs:87-110 | With truthful stat files an identity that is called dead is not alive |
| `WrapperLiveness.ProbeIsExact` | crates/raios-runtime/src/wrapper_liveness.rs:87-110 | With readable stat files a probe on this host and in this namespace is right either way |
| `WrapperLiveness.ReasonIsConservative` | crates/raios-runtime/src/wrapper_liveness.rs:135-164 | If a reason is found, owner and recorded child are gone from the last probe on; a run whose child was not attached is of an earlier boot |
| `WrapperLiveness.ReasonIsExact` | crates/raios-runtime/src/wrapper_liveness.rs:135-164 | With readable stat files the reason is the earlier boot, or the disappearance of owner and attached child, exactly when that is so |
| `WrapperLiveness.Inspect` | crates/raios-runtime/src/wrapper_liveness.rs:218-260 | The loop over the rows counts each once, as kept or as a candidate, and fails exactly if a witness cannot be read |
| `WrapperLiveness.FinishCloses` | crates/raios-core/src/db/wf_sessions.rs:162-217 | Finishing an open candidate fails its run and its in-progress task and writes one audit event, unless the write is refused |
| `WrapperLiveness.FinishedTwice` | crates/raios-core/src/db/wf_sessions.rs:162-217 | A finish changes something exactly if the run is a running wrapper run of the task; a second one never does; a run is refused exactly if it is missing, another task's, no wrapper's, or cannot be written |
| `WrapperLiveness.CloseAll` | crates/raios-runtime/src/wrapper_liveness.rs:265-278 | The loop over the candidates closes exactly those, or fails if one is refused |
| `WrapperLiveness.ControlPlane.ReconcileSessions` | crates/raios-runtime/src/wrapper_liveness.rs:168-281 | A preview or a failure changes nothing; a successful apply closes exactly the candidates; inspected is kept plus candidates |
| `WrapperLiveness.ClosedOnce` | crates/raios-runtime/src/wrapper_liveness.rs:183-199 | What was closed is never inspected again, and everything else still is |
| `WrapperLiveness.CandidatesAreDead` | crates/raios-runtime/src/wrapper_liveness.rs:218-260 | With truthful witnesses every candidate has nobody left, unless it has no owner witness; those need the request for legacy rows and more than a day before this boot |
| `WrapperLiveness.VerdictExactly` | crates/raios-runtime/src/wrapper_liveness.rs:135-260 | With truthful and readable stat files and witnesses the verdict on a row is the earlier boot, the disappearance of owner and attached child, the old start of a legacy row, or none, by the row's fields |
| `WrapperLiveness.CandidateExactly` | crates/raios-runtime/src/wrapper_liveness.rs:218-260 | A row is a candidate if and only if its owner is of this host and an earlier boot, or owner and the child of a row recorded as attached are both gone, or it has no owner witness, legacy rows are asked for and its start is more than 86400 seconds before this boot; the report names which |
| `WrapperLiveness.AllValidIsReadable` | crates/raios-runtime/src/wrapper_liveness.rs:218-260 | The inspection succeeds if and only if the witnesses of all rows can be read |
| `SessionRecovery.Inventory` | crates/raios-runtime/src/session_recovery.rs:117-334 | Of the conversations found, those with a valid id and directory name are catalogued, each by its first find, or by its last in OpenCode's database, with name and time from Codex's index |
| `SessionRecovery.LastNameCounts` | crates/raios-runtime/src/session_recovery.rs:239-267 | Of the index lines that give a conversation a name that is not blank, the last one names it; without one its own name stays |
| `SessionRecovery.LastTimeCounts` | crates/raios-runtime/src/session_recovery.rs:239-267 | Of the index lines that give a conversation a time, the last one dates it; without one its own time stays |
| `SessionOutcome.IndexWrittenOut` | crates/raios-runtime/src/session_recovery.rs:239-267 | A conversation has the name of the last index line that has its id and a name not blank when shown, and the time of the last one that has its id and a time; what no line gives, and everything else, stays |
| `SessionRecovery.MergeLoop` | crates/raios-runtime/src/session_recovery.rs:353-411 | The loop over wrapper rows merges those up to the limit and to the first unreadable one, and warns if any was left; without a warning no conversation is offered that any row shows as running and not proven dead |
| `SessionRecovery.OfferedExactly` | crates/raios-runtime/src/session_recovery.rs:363-411 | A row is resumable if and only if its native store has it, its directory exists and no wrapper row read for it is running and not proven dead |
| `SessionRecovery.OfferedThoughBlocked` | crates/raios-runtime/src/session_recovery.rs:353-411 | A conversation with a running row that is not proven dead is offered if and only if its store has it, its directory exists, and every such row lies behind those that were read |
| `SessionRecovery.UnreadExample` | crates/raios-runtime/src/session_recovery.rs:353-411 | A running row behind one that cannot be read: its conversation is offered |
| `SessionRecovery.OfferedIsValid` | crates/raios-runtime/src/session_recovery.rs:72-115 | A resumable row has a valid id, is stored under it, and has an existing directory |
| `SessionRecovery.LinkedToFirst` | crates/raios-runtime/src/session_recovery.rs:372-393 | A conversation is shown with the run, name and work of the first wrapper row read for it that was started in its directory, and otherwise as its store has it |
| `SessionRecovery.OfferedHasNobodyLeft` | crates/raios-runtime/src/session_recovery.rs:336-393 | For a resumable conversation every wrapper run recorded as running it, in a row that was read, has neither owner nor child alive |
| `SessionOutcome.FindIsShown` | crates/raios-runtime/src/session_recovery.rs:72-115 | A find is catalogued if and only if its id is of its store's kind and its directory is absolute and free of control characters; key, name, time and availability are given |
| `SessionOutcome.OfferedWrittenOut` | crates/raios-runtime/src/session_recovery.rs:353-411 | A stored conversation of claude, codex or opencode is offered if and only if its directory exists and no row among the first 20000 and before an unreadable one has the agent's name, or that with _kaira, and the id, is running and is not proven dead |
| `SessionOutcome.DescribedWrittenOut` | crates/raios-runtime/src/session_recovery.rs:372-393 | A conversation is shown with run, name and work of the first such row that was started in its directory |
| `SessionOutcome.UnlinkedWrittenOut` | crates/raios-runtime/src/session_recovery.rs:363-411 | A run without a stored conversation is catalogued under its own key, unavailable and never offered |
| `SessionRecovery.PlanExactly` | crates/raios-runtime/src/session_recovery.rs:433-478 | A plan is made if and only if one session alone answers to the key, it is resumable, and its directory is there now |
| `SessionRecovery.PlanIsSafe` | crates/raios-runtime/src/session_recovery.rs:433-478 | The planned conversation is in its native store, not busy, with a valid id and an existing directory, and launching it names it again |
| `SessionOutcome.PlanWrittenOut` | crates/raios-runtime/src/session_recovery.rs:433-478 | A plan has agent, directory, name and id of the one session that answers to the key, and the arguments --resume, resume or --session followed by the id |
| `SessionRecovery.CheckpointOfPlan` | crates/raios-runtime/src/session_recovery.rs:483-527 | Preparing a plan's arguments for launch gives the plan's conversation and leaves the arguments unchanged |
| `SessionRecovery.CheckpointIsStable` | crates/raios-runtime/src/session_recovery.rs:483-527 | For every agent and all arguments a second preparation gives the same conversation and the same arguments, and any id given is valid |
| `SessionOutcome.CheckpointWrittenOut` | crates/raios-runtime/src/session_recovery.rs:483-527 | No conversation if an argument forbids history; else the valid id that the agent's own arguments give; else, for Claude alone and unless it goes on with another one, a new id put in front |
| `Tasks.ParseLineLoop` | crates/raios-runtime/src/tasks.rs:64-113 | The loop over the words computes the specified task |
| `Tasks.ParsedIsCanonical` | crates/raios-runtime/src/tasks.rs:64-113 | Every task that is read has single-spaced text without tags, a known agent and a one-word project |
| `Tasks.RoundTripExactly` | crates/raios-runtime/src/tasks.rs:64-127 | A task is read back from its line if and only if it is of that kind |
| `Tasks.ParseIsStable` | crates/raios-runtime/src/tasks.rs:64-127 | Reading, writing and reading a line again gives the same task |
| `Tasks.WriteLoop` | crates/raios-runtime/src/tasks.rs:139-148 | The loop writes the header and one line for each task |
| `Tasks.LoadWrittenExactly` | crates/raios-runtime/src/tasks.rs:130-148 | A list of tasks is loaded from the file it was written to if and only if every task can be read back |
| `Tasks.LoadIsStable` | crates/raios-runtime/src/tasks.rs:130-148 | What was loaded from any file is loaded again after it is written |
| `TaskOutcome.TaskIsBoxLine` | crates/raios-runtime/src/tasks.rs:64-75 | Only a line with one of the three boxes, blank space around, is a task |
| `TaskOutcome.TaskWrittenOut` | crates/raios-runtime/src/tasks.rs:64-113 | A line with a box is a task unless all its words are tags: ticked unless the box is blank, the other words with one space between, the last agent named, in any case, and the last project |
| `TaskOutcome.WrittenLine` | crates/raios-runtime/src/tasks.rs:116-127 | A written task is its box, text, agent and project in this order |
| `TaskOutcome.WrittenFile` | crates/raios-runtime/src/tasks.rs:139-148 | A written file is the heading, a blank line and the lines of the tasks |
| `ContextBudget.WalkVisitsAll` | crates/raios-runtime/src/context_budget.rs:38-66 | The stack of directories leads to every source file of the tree exactly once, for every tree and order of enumeration |
| `ContextBudget.SourceFilesAre` | crates/raios-runtime/src/context_budget.rs:38-66 | The source files are those at the ends of the paths through directories other than the named tool and build ones, each path once |
| `ContextBudget.WalkSources` | crates/raios-runtime/src/context_budget.rs:38-66 | The nested loops run the visitor over the files in that order until it breaks off, and terminate |
| `ContextBudget.Measure` | crates/raios-runtime/src/context_budget.rs:71-84 | The budget is exceeded if and only if the sizes of all source files add up to more; the count is the total, or a lower bound above the budget |
| `ContextBudget.MarkdownNames` | crates/raios-runtime/src/context_budget.rs:98-99 | Markdown files are those named something followed by .md |
| `ContextBudget.SigmapIsFresh` | crates/raios-runtime/src/context_budget.rs:91-110 | The map is fresh if and only if there is one and no source file but Markdown has a later time |
| `AgentWrapper.MakeBlock` | crates/raios-runtime/src/agent_wrapper.rs:92-110 | The loop writes the block with one function for each agent between the markers |
| `AgentWrapper.StripLoop` | crates/raios-runtime/src/agent_wrapper.rs:112-130 | The loop over the lines computes the specified stripped text |
| `AgentWrapper.KeptWithBlock` | crates/raios-runtime/src/agent_wrapper.rs:112-130 | A block put behind any text that does not end in a carriage return is stripped off again |
| `AgentWrapper.StripOfInstall` | crates/raios-runtime/src/agent_wrapper.rs:112-130 | For every text without stray carriage returns: installing and stripping equals stripping if and only if there was nothing to replace or the last kept line does not become a marker when trimmed |
| `AgentWrapper.PaddedMarkerExample` | crates/raios-runtime/src/agent_wrapper.rs:112-130 | An empty block and an end marker with a blank behind it: stripping keeps the marker, trims it, and drops it the next time |
| `AgentWrapper.InstallThenStrip` | crates/raios-runtime/src/agent_wrapper.rs:166-206 | For such a text without markers, installing and stripping gives its lines back, trimmed at the end, with one line break; without carriage returns that is the text itself |
| `AgentWrapper.InstallAllExactly` | crates/raios-runtime/src/agent_wrapper.rs:166-206 | After any number of installs into such a text it is what is kept of the original, one marker at its end peeled off by each replacement before the last, and the block of the last list |
| `AgentWrapper.InstallRuns` | crates/raios-runtime/src/agent_wrapper.rs:166-206 | That text is the stripped original with the last list's block, whatever the lists before, if and only if just one install replaced a block or the last kept line is no marker |
| `AgentWrapper.OneBlock` | crates/raios-runtime/src/agent_wrapper.rs:92-130 | Such a text that an install leaves in place of an old block holds exactly one begin and one end marker, in this order, if and only if the last kept line is no marker |
| `AgentWrapper.EndsInMarkerWhen` | crates/raios-runtime/src/agent_wrapper.rs:112-130 | The last kept line is a marker if and only if the last line outside the blocks that is not blank becomes one when trimmed at its end |
| `AgentWrapper.RemoveLoop` | crates/raios-runtime/src/agent_wrapper.rs:132-160 | The loop over the lines computes the specified text without the agents' functions |
| `AgentWrapper.RemoveTwice` | crates/raios-runtime/src/agent_wrapper.rs:209-237 | For such a text, removing agents in two calls equals removing them in one |
| `AgentWrapper.RemoveKeeps` | crates/raios-runtime/src/agent_wrapper.rs:132-160 | Lines outside the blocks stay in order; inside, exactly the functions of the agents go |
| `AgentWrapper.RemoveFromInstalled` | crates/raios-runtime/src/agent_wrapper.rs:132-160 | Removing agents from a block installed into such a text gives the text that installing the others gives, whatever stands before the block, for agent names without blanks, parentheses and hash signs |
| `ShellOutcome.BlockWrittenOut` | crates/raios-runtime/src/agent_wrapper.rs:92-110 | The block, character by character: markers, two comments and one function for each agent |
| `ShellOutcome.StripWrittenOut` | crates/raios-runtime/src/agent_wrapper.rs:112-130 | Stripping leaves the lines outside the markers, trimmed at the end, and a line break |
| `ShellOutcome.RemoveWrittenOut` | crates/raios-runtime/src/agent_wrapper.rs:132-160 | Removing changes only a text that has a begin marker somewhere, and leaves all lines but the agents' functions between the markers |
| `Entities.SortIsStable` | crates/raios-core/src/entities.rs:229-230 | The sort by depth keeps the order of items of equal depth |
| `Entities.CanonicalizedAre` | crates/raios-core/src/entities.rs:221-228 | The projects with a canonical path are taken in order, each with its own path; the others are left out |
| `Entities.DedupNested` | crates/raios-core/src/entities.rs:221-245 | Exactly the outermost canonical paths are kept, each once, shallow ones first and equally deep ones in the order of the list, each with the first project that has it |
| `Entities.OneAncestor` | crates/raios-core/src/entities.rs:221-245 | Every path of the list is inside exactly one kept path, or is it |
| `Entities.OneResult` | crates/raios-core/src/entities.rs:221-245 | That leaves exactly one list of projects |
| `Entities.OrderDoesNotMatter` | crates/raios-core/src/entities.rs:221-245 | The kept paths do not depend on the order of the list |
| `DaemonClient.PiecesAreTheStream` | vscode-extension/src/ipc/DaemonClient.ts:55-56 | Complete lines and the rest are the stream: no line break inside any of them, none of the characters lost |
| `DaemonClient.ChunksDoNotMatter` | vscode-extension/src/ipc/DaemonClient.ts:53-66 | Whatever the chunks, the complete lines of their concatenation are dispatched in order and the text behind the last line break is kept |
| `DaemonClient.Client.constructor` | vscode-extension/src/ipc/DaemonClient.ts:8-19 | A client starts unconnected, with an empty buffer, no handlers and nothing dispatched |
| `DaemonClient.Client.OnConnect` | vscode-extension/src/ipc/DaemonClient.ts:43-51 | Connecting changes nothing but the flag; the buffer stays |
| `DaemonClient.Client.OnClose` | vscode-extension/src/ipc/DaemonClient.ts:75-80 | Closing changes nothing but the flag; the buffer stays |
| `DaemonClient.Client.OnData` | vscode-extension/src/ipc/DaemonClient.ts:53-66 | One chunk dispatches the lines it completes, without the blank ones, and keeps the rest |
| `DaemonClient.Client.Dispatch` | vscode-extension/src/ipc/DaemonClient.ts:57-65 | A line is parsed and handed to the handlers in order; a line that is no message, or at which a handler throws, is reported with its first hundred characters |
| `DaemonClient.HandlersReached` | vscode-extension/src/ipc/DaemonClient.ts:59-64 | A message reaches exactly the handlers up to the first that throws, and is reported as malformed if and only if one throws |
| `DaemonClient.OtherLines` | vscode-extension/src/ipc/DaemonClient.ts:57-65 | A line of blanks causes nothing; one that is no message is reported once, with its first hundred characters, and no handler is called |
| `DaemonClient.Receive` | vscode-extension/src/ipc/DaemonClient.ts:53-66 | Handing over chunks one by one ends in the state that the whole stream determines |
| `DaemonClient.Sessions` | vscode-extension/src/ipc/DaemonClient.ts:10-80 | Over several connections the client dispatches the lines of all their streams put together |
| `DaemonClient.FramedAloneExactly` | vscode-extension/src/ipc/DaemonClient.ts:10-66 | A connection's stream is framed as if it were the first if and only if nothing was left in the buffer when the one before it closed |
| `DaemonClient.ReconnectsExactly` | vscode-extension/src/ipc/DaemonClient.ts:10-80 | Over any connections the client sees the complete lines each of them delivered if and only if no connection cut off inside a line is followed by one that ends a line |
| `DaemonClient.GluedExample` | vscode-extension/src/ipc/DaemonClient.ts:10-80 | A connection cut off behind one brace, then an empty object: one line that is no message |
| `Truncation.BoundariesAreOffsets` | crates/raios-core/src/text.rs:15-17 | The character boundaries of encoded text are exactly the places where its characters start or end |
| `Truncation.TruncateAtCharBoundary` | crates/raios-core/src/text.rs:10-19 | The result is the encoding of the longest prefix of characters that fits the budget, and the loop moves back at most three bytes |
| `Truncation.LongestPrefix` | crates/raios-core/src/text.rs:10-19 | A prefix fits the budget if and only if it is no longer than the one returned |
| `Truncation.DecodeEncode` | crates/raios-core/src/text.rs:10-19 | The UTF-8 encoding used here (section 3 of RFC 3629) is read back to the same scalar value |

## Left out

- SQLite, its text, migrations and locking: rows are values, a transaction is all or nothing, and a refused write is a parameter.
- Real files and processes: permissions, temporary files, `fsync`, partial appends, and the moment between the comparison and the rename of `memory.md`, which are one step here; a second archiver at the same time.
- MemoryApply.HeldExactly: for a new archive the project name must not put a bullet line into the archive's header, because the header is written from the directory name.
- MemoryApply.RunIsSafe: for runs in which no append passes over a selected entry; `MemoryApply.AppendIsSafeExactly` says which appends those are, and `MemoryTidy.NothingPassedOver` on which texts there are no others.
- MemoryApply.RunKeepsLine: for the same runs.
- MemoryEntries.RunKeepsEntry: for the same runs.
- MemoryApply.ProjectDir.ArchiveMemoryWith: an archive that is missing and one that is empty are the same, as they are to the code that reads it.
- LockManager.Manager.List: the order of the list is that of a hash map and is not modelled; the answer is a set.
- LockHistory.AnswersFollowHistory: for runs in which time does not go back, as the source's clock does not.
- LockHistory.GrantLasts: for the same runs.
- LockManager.LazyRefinesEager: each operation has one time, where the code reads the clock for each entry.
- Line breaks of Python and JavaScript other than `\n`: a tray value with U+2028 or U+0085 is written unescaped, and Python cuts its line there; this is not covered.
- TraySave.SaveConfigLoop: reading and replacing the file. An empty section name, which the code takes for the top level, is never passed.
- AgentWrapper.StripOfInstall: for texts in which no line has a carriage return at its end besides that of its line break, because each pass over the lines drops one more.
- AgentWrapper.InstallThenStrip: for the same texts.
- AgentWrapper.InstallAllExactly: for the same texts.
- AgentWrapper.InstallRuns: for the same texts.
- AgentWrapper.OneBlock: for the same texts.
- AgentWrapper.RemoveTwice: for the same texts.
- AgentWrapper.RemoveFromInstalled: for the same texts, and for names that a shell takes as one word.
- AgentWrapper: choosing the rc files, and the texts of log messages.
- WrapperLiveness.ReasonIsConservative: assumes that a stat file that is not found belongs to no live process, that identities do not come back, and that owner and child were recorded on one machine during one boot.
- WrapperLiveness.ControlPlane.ReconcileSessions: the order of the rows is any listing, which includes the one by id.
- SessionRecovery.Inventory: how the native stores are walked and read, with the limits on it, is not modelled; the finds and the lines of Codex's index are given.
- SessionRecovery.OfferedThoughBlocked: a run recorded under another spelling of the same UUID has another key, in the code as here, and does not block the conversation.
- SessionOutcome.OfferedWrittenOut: that a conversation is offered needs that its id, or every identity, has no colon, because keys are put together with one; that it is not needs nothing.
- SessionOutcome.DescribedWrittenOut: for the same ids or identities.
- SessionOutcome.UnlinkedWrittenOut: for rows whose identity has no colon and is not the word `wrapper`, and a run that only one row has.
- SessionOutcome.PlanWrittenOut: which sessions answer to a key; `SessionRecovery.PlanExactly` says when there is a plan.
- SessionRecovery.PlanExactly: the sort of the catalogue, because finding a session does not depend on it.
- SessionRecovery.CheckpointOfPlan: UUID parsing is a predicate; a text it accepts is not empty and does not start with a hyphen.
- Tasks: the database behind the task list; the Markdown file alone is modelled.
- ContextBudget.Measure: sizes are unbounded, where the code adds 64-bit numbers.
- Entities.DedupNested: making a path canonical is a function that may fail.
- DaemonClient.Client.OnData: characters, not bytes; a chunk that ends inside a character is decoded wrongly by the code and is not covered. Whether a handler throws depends on the message alone. Tokens, timers and sending.
- Unicode case mapping: agent names are compared in ASCII lower case, which decides the same for the five names.
- The user interfaces, the servers, daemon start-up, git and npm wrappers, compliance scoring, the job queue and event broadcast: little state, or none to lose.
