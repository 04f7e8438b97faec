# AeorDB, modelled and proved

A Dafny model of the parts of AeorDB whose correctness is a matter of argument rather than of
reading one function, with proofs of what they are for.

- **Crash oracle** (`Checkpoint`, `EnginePath`, `EnginePathLaws`, `SoakWorker`, `SoakRuns`,
  `SoakExact`, `SoakTears`, `CrashWorker`, `CrashVerdict`, `CrashTorn`, `CrashLoop`, `CrashBound`,
  `DataFiles`, `StressFiles`). The two workers change the database, append a line to a checkpoint log
  and may be killed between any two steps or inside a line; three readers replay the log and judge
  the database by it. The logs are modelled down to the byte, and so is the engine's naming of files.
  The protocols are state machines over every run of operations, kills and restarts, and the workers'
  loops are methods proved to be runs of them. The database is an atomic map of names.
- **B-tree directories** (`DirectoryCodec`, `SortedEntries`, `BTree`, `BTreeSizes`, `BTreeStore`,
  `BTreeRefinement`, `BTreeBulk`, `BTreeBulkReads`, `BTreeEntries`, `BTreeRuns`). The copy-on-write
  B-tree over a content-addressed store: its byte format, its nodes and operations with their error
  paths, their refinement of a finite map listed in name order, and the persistence of every root
  over whole runs of insertions, deletions and bulk builds, those that fail included.
- **Mixers and generators** (`Words`, `Mixers`, `MixerBits`, `Shuffle`, `GcBench`). SplitMix64, the payload mixer
  and xorshift64 on 64-bit words, the in-place shuffle and the bookkeeping that uses them.
- **Query builder** (`QueryBuilder`, `QueryLiteral`, `Doubles`, `HostQuery`). Builder calls compiled
  to a query tree and to JSON, and what the host makes of that JSON, down to the bytes of literals.
- **JSON merging** (`JsonMerge`, `DepthBoundedPatch`). The plugin SDK's recursive merge and the
  engine's depth-bounded patch, with their exact relation to RFC 7396 and to each other.
- **Relative paths** (`RelativePath`), as the build script makes them.

`Formats` and `TextEncodings` spell out the formats of bytes, lines, paths and text that the others
use. `Common`, `Bytes`, `Decimal` and `Json` hold what the others share. `dafny verify dfyconfig.toml`
checks the whole project.

Assumptions are stated where they are used. A hash is any function of fixed length; the theorems
about the store ask only that no two of the nodes actually involved collide (`CollisionFree`).
`Grounded` bounds how deep a store's nodes may nest, so that operations on a damaged store still
terminate; every root the operations make has such a bound. The JSON bodies of the crash worker
are any functions that print ASCII on one line, as JSON of numbers does, and merging into such a
body gives such a body (`PrintsLines`).

Where the code does not do what its documentation or its callers expect, the model follows the
code, and the exact condition is proved:

- `btree_from_entries` stores every group of children after the first with one key too many. The
  directory it builds can be listed if and only if it has at most 3120 entries
  (`BTreeRuns.BuildListsExactlyWhenSmall`).
- The query builder writes `AND`, `OR`, `NOT` and `{}`; the host reads `and`, `or`, `not` and `[]`.
  The host accepts a builder's query if and only if it is one plain condition with finite literals:
  a number that is not finite is written as null (`HostQuery.HostAcceptsExactlyDeliverable`).
- Of the literals it accepts the host casts floats to integers, where the indexer files their bits,
  and takes raw bytes for their base64 text. It searches for what was meant if and only if the query
  has no float but plus zero and no raw bytes but the empty ones
  (`HostQuery.HostReadsAsIntendedExactly`).
- The crash verdict treats any difference as damage, but a kill between an operation and its lines
  makes one on a correct database; exactly which lines do is
  `CrashVerdict.VerdictIsDecidedByTheLines`, with `CrashVerdict.MixedFailsExactly` and
  `CrashVerdict.GcFailsOnEveryOverwrite` for two modes. `CrashBound.MixedVerdictCanFail` is a run that
  does, and `CrashBound.EachKillCanCostAPath` has one for any number of kills.
- A worker started after a kill inside a line writes its comment on that line. If the cut was past
  the tab the log then commits a body the database never had, until the path is logged again
  (`CrashTorn.WritesDifferExactly`, `CrashTorn.WritesPassExactly`).
- The soak worker logs the path it is given; the engine files it under its normal form. Worker, log,
  database and judge agree over every run if and only if every path stored fits a line, is canonical
  and holds no tab (`SoakExact.EngineRunsExactly`); `SoakExact.SpaceDoesNotFit` and
  `SoakExact.NewlineDoesNotFit` are paths that do not, and `SoakExact.OneFileTwoNames` is a run that
  shows it.
- A soak worker started after a kill inside a line appends to that line. Memory stays the replay if
  and only if no kill leaves a part of a line (`SoakTears.EngineTearsExactly`); a cut inside a
  character hides everything logged later (`SoakTears.BlindForever`).
- A leaf's count of entries is not compared with its entries: any count but zero reads the same
  (`Formats.LeafCountIsIgnored`).
- `normalize_path` is not idempotent: white space in front of a last slash takes a second call
  (`EnginePath.IdempotentExactly`, `EnginePath.NotIdempotent`).
- `docs/src/api/merge-patch.md` (line 272) says patches of disjoint keys commute. So they do without
  a bound; under a bound they need not (`DepthBoundedPatch.DisjointPatchesCanClash`), and at every
  depth the condition is `DepthBoundedPatch.PatchesCommuteExactly`.
- `diff_checkpoint` is meant to match `load_checkpoint` but cuts paths at a tab; the lines on which
  they match are exactly `SoakLine` (`Checkpoint.SameAsLoadExactly`).
- `docs/src/api/merge-patch.md` (line 347) says patches are not idempotent in general; they are
  (`DepthBoundedPatch.PatchIdempotent`).

## Model

| member | source | states |
|---|---|---|
| `Checkpoint.LoadCheckpoint` | aeordb-cli/src/bin/soak-worker.rs:572-586 | The set loaded is the left-to-right replay of the log's lines; a log that cannot be opened gives the empty set. |
| `Checkpoint.ReadCheckpoint` | aeordb-cli/spec/crash_inject_spec.rs:103-121 | The map read is the replay of the log's lines: comments and blank lines skipped, deletes removed, commits recorded up to the first tab. |
| `Checkpoint.DiffCheckpoint` | aeordb-cli/src/commands/probe.rs:852-912 | The replayed set; `missing` is each replayed path the database lacks, once; `extras` each database path the log does not know outside the engine's own; the counts of lines, adds and deletes are exact, adds and deletes are no more than the lines, and the replayed paths no more than the adds. |
| `Checkpoint.Classify` | aeordb-cli/src/commands/probe.rs:874-890 | Present plus missing is the whole replayed set, each path on the right side. |
| `Checkpoint.Extras` | aeordb-cli/src/commands/probe.rs:892-911 | Exactly the database paths outside the log and outside the system folder, each once. |
| `Checkpoint.UnknownExactly` | aeordb-cli/src/commands/probe.rs:892-911 | A path of the database the log does not know is an extra if and only if it does not start with `/.aeordb-system`; every such path under `/soak` is one. |
| `Checkpoint.LinesOfPrint` | aeordb-cli/src/bin/crash-soak-worker.rs:175-189 | Whatever follows a printed log, its lines are the records' own texts, in order, and then the lines of what follows. |
| `Checkpoint.FinalIsLastWriteWins` | aeordb-cli/spec/crash_inject_spec.rs:103-121 | The map of a list of records has a body at a path if and only if some record commits it and no later record concerns the path. |
| `Checkpoint.ReadWholeLog` | aeordb-cli/spec/crash_inject_spec.rs:103-121 | Reading the bytes of a whole crash-worker log gives exactly the last-write-wins map of its records. |
| `Checkpoint.EveryPrefixIsTorn` | aeordb-cli/src/bin/crash-soak-worker.rs:175-189 | Every byte prefix of a log is some whole lines and the start of the next. |
| `Checkpoint.ReadTornLog` | aeordb-cli/spec/crash_inject_spec.rs:103-121 | What every byte prefix reads as: the whole lines, then a truncated commit, the removal of a prefix of the deleted path, or nothing. |
| `Checkpoint.TornLogDiffersAtOnePath` | aeordb-cli/spec/crash_inject_spec.rs:103-121 | For every byte prefix, the map read and the map of the whole lines differ at one path at most, the torn commit's own or a prefix of the torn delete's; a line that lacks only its newline is read whole. |
| `Checkpoint.DiffIsLoad` | aeordb-cli/src/commands/probe.rs:852-872 | On any lines whose added paths hold no tab, `diff_checkpoint` and `load_checkpoint` compute the same set. |
| `Checkpoint.DiffIsReadKeys` | aeordb-cli/src/commands/probe.rs:852-872 | On any lines whose comments hold no tab and whose added lines have a body, `diff_checkpoint` computes the key set of `read_checkpoint`. |
| `Checkpoint.DiffAgreesWithLoad` | aeordb-cli/src/commands/probe.rs:852-872 | The two agree on every byte prefix of a soak-worker log with tab-free paths. |
| `Checkpoint.DiffAgreesWithRead` | aeordb-cli/src/commands/probe.rs:852-872 | The two agree on every byte prefix of a crash-worker log with tab-free paths and comments. |
| `Checkpoint.SameAsLoadExactly` | aeordb-cli/src/commands/probe.rs:860-872 | Whatever was read before, `diff_checkpoint` and `load_checkpoint` do the same with a line if and only if an added path holds no tab and any other line that is not a delete holds none. |
| `Checkpoint.SameAsReadExactly` | aeordb-cli/src/commands/probe.rs:860-872 | Whatever was read before, `diff_checkpoint` and `read_checkpoint` know the same paths after a line if and only if an added line has a body and a comment holds no tab. |
| `Formats.LineFormats` | aeordb-cli/src/bin/crash-soak-worker.rs:175-189 | The bytes of each kind of line. |
| `Formats.ReturnIsStripped` | aeordb-cli/src/bin/soak-worker.rs:572-586 | A return in front of the newline is no part of the line. |
| `Formats.BannerFormat` | aeordb-cli/src/bin/crash-soak-worker.rs:94 | What a new worker logs first, in each mode. |
| `Formats.PathMarks` | aeordb-lib/src/engine/path_utils.rs:1-28 | The bytes that part and climb paths. |
| `SoakWorker.LoadWholeLog` | aeordb-cli/src/bin/soak-worker.rs:572-586 | Loading the bytes of a soak log, with a part of a line at its end, gives what its records and that part say. |
| `SoakWorker.Worker.Iterate` | aeordb-cli/src/bin/soak-worker.rs:330-438 | One round of the loop is a run of the protocol back to its head, whatever the path and however the engine names files: a write stores, logs and remembers; a delete of a committed path removes, logs and forgets; a failed or demoted action changes nothing. |
| `SoakWorker.Worker.StoreLogRemember` | aeordb-cli/src/bin/soak-worker.rs:346-355 | The file is stored under the engine's name for the path, the path as given is logged and remembered: three steps of the protocol, and the whole new state. |
| `SoakWorker.Worker.DeleteLogForget` | aeordb-cli/src/bin/soak-worker.rs:413-427 | The file the engine finds under the path is deleted, the path as given is logged and forgotten: three steps of the protocol, and the whole new state. |
| `SoakWorker.Worker.Reopen` | aeordb-cli/src/bin/soak-worker.rs:201-207 | A restart reads the log's bytes, a cut line at the end included, into memory and changes nothing else. |
| `SoakWorker.Worker.AppendLine` | aeordb-cli/src/bin/soak-worker.rs:351-352 | An append puts the line behind whatever the log ends with, on the same line if a kill left a part of one. |
| `SoakWorker.LogOnlyGrows` | aeordb-cli/src/bin/soak-worker.rs:351-352 | Every step, kills inside a line included, only adds bytes at the end of the log. |
| `SoakRuns.MemoryNext` | aeordb-cli/src/bin/soak-worker.rs:346-438 | Every step, kills inside a line and restarts included, keeps memory in step with the log but for paths in doubt since a line was cut. |
| `SoakRuns.DatabaseNext` | aeordb-cli/src/bin/soak-worker.rs:346-438 | Every step keeps every difference between log and database blamed on an operation cut off before its line, or on a cut line. |
| `SoakRuns.JudgeNext` | aeordb-cli/src/commands/probe.rs:852-890 | Every step of a run with tab-free paths keeps what the judge replays in step with the log but for paths in doubt. |
| `SoakRuns.MemoryRuns` | aeordb-cli/src/bin/soak-worker.rs:203-438 | Memory is in step with the log after any run. |
| `SoakRuns.DatabaseRuns` | aeordb-cli/src/bin/soak-worker.rs:203-438 | Every difference is blamed after any run. |
| `SoakRuns.EveryRun` | aeordb-cli/src/bin/soak-worker.rs:203-438 | After any run of stores of paths a line can hold and the engine keeps, deletes, kills between lines or inside them, and restarts: memory is the replay of the log's bytes at each loop head but for the paths in doubt; replayed paths the database lacks are no more than the kills between a delete and its line (and the delete in flight) and eight for each line cut; live paths the replay lacks are no more than the kills between a store and its line (and the store in flight) and those eight. |
| `SoakRuns.KillsCounted` | aeordb-cli/src/bin/soak-worker.rs:346-438 | The blamed operations are counted by the kills of the run that fell in their windows. |
| `SoakRuns.FewDoubts` | aeordb-cli/src/bin/soak-worker.rs:351-352 | A line cut in two puts at most eight paths in doubt. |
| `SoakRuns.DiffBlamesKills` | aeordb-cli/src/commands/probe.rs:852-890 | On such a run with tab-free paths the judge's missing paths are no more than the kills between a delete and its line, and eight for each line cut. |
| `SoakExact.ReadsBackExactly` | aeordb-cli/src/bin/soak-worker.rs:572-586 | A logged path is read back, and nothing else with it, if and only if it holds no newline, is UTF-8 and does not end in a return. |
| `SoakExact.MemoryIsReplayExactly` | aeordb-cli/src/bin/soak-worker.rs:203-438 | For every set of paths and every way the engine names files: memory equals the replay at the loop heads of all runs that store paths of the set, kills between lines, if and only if a line can hold each of them that can be stored. |
| `SoakExact.EveryRunExactly` | aeordb-cli/src/bin/soak-worker.rs:203-438 | For every set of paths and every way the engine names files: memory, log, database and judge agree, but for the operations kills cut off, over all runs that store paths of the set, if and only if each that can be stored fits a line, is the name of its file and holds no tab. |
| `SoakExact.EngineRunsExactly` | aeordb-lib/src/engine/path_utils.rs:1-28 | The same with the engine's own `normalize_path`: if and only if each path that can be stored fits a line, is canonical and holds no tab. |
| `SoakExact.SpaceDoesNotFit` | aeordb-lib/src/engine/path_utils.rs:1-28 | A space behind any path that fits makes one that does not: it is the same file and another line. |
| `SoakExact.OneFileTwoNames` | aeordb-lib/src/engine/path_utils.rs:1-28 | Storing two paths of one file and deleting it under one of them leaves the log promising the other, without any kill. |
| `SoakExact.NewlineDoesNotFit` | aeordb-cli/src/bin/soak-worker.rs:493-515 | `/soak/a`, a newline and `b` is a path the engine stores under that very name and a line cannot hold. |
| `SoakExact.EachKillCanCostAPath` | aeordb-cli/src/commands/probe.rs:854-890 | The bound is reached: for any list of paths the engine keeps and a line holds some run over a correct database ends with exactly those paths promised and missing, one kill for each. |
| `SoakTears.TearsExactly` | aeordb-cli/src/bin/soak-worker.rs:203-421 | For every set of cut-off parts: memory is the replay at the loop heads of all runs whose kills leave parts of the set, if and only if no part in it but the empty one starts a line. |
| `SoakTears.EngineTearsExactly` | aeordb-cli/src/bin/soak-worker.rs:203-421 | The same with the engine's own `normalize_path`. |
| `SoakTears.BlindForever` | aeordb-cli/src/bin/soak-worker.rs:572-586 | Once a kill cuts a line inside a character nothing logged later is ever read, whatever the run does. |
| `SoakTears.CutStaysCut` | aeordb-cli/src/bin/soak-worker.rs:572-586 | Text cut inside a character stays invalid UTF-8 whatever starts with an ASCII byte behind it. |
| `EnginePath.NormalizePath` | aeordb-lib/src/engine/path_utils.rs:1-28 | The loop over the pieces of a path computes `Normalize`. |
| `EnginePath.NormalizedShape` | aeordb-lib/src/engine/path_utils.rs:1-28 | The result is the root, or names from the root without empty, `.` or `..` pieces. |
| `EnginePath.CanonicalExactly` | aeordb-lib/src/engine/path_utils.rs:1-28 | A path is its own normal form if and only if it is the root or such names, holds no NUL and does not end in white space. |
| `EnginePath.IdempotentExactly` | aeordb-lib/src/engine/path_utils.rs:1-28 | Normalizing twice is normalizing once if and only if the first result does not end in white space. |
| `EnginePath.NotIdempotent` | aeordb-lib/src/engine/path_utils.rs:1-28 | White space in front of a last slash is trimmed only by a second call. |
| `EnginePathLaws.NormalizeResolves` | aeordb-lib/src/engine/path_utils.rs:1-28 | The normal form of any path is the place its pieces lead to from the root, by the same climbing that relative paths are resolved with (`RelativePath.Resolve`). |
| `EnginePathLaws.ParentUndoes` | aeordb-lib/spec/engine/path_utils_spec.rs:30-33 | Down into a name and up again by two dots leaves the normal form as it is, anywhere in a path. |
| `EnginePathLaws.DotStays` | aeordb-lib/spec/engine/path_utils_spec.rs:18-27 | So does one dot, or nothing, between two slashes. |
| `EnginePathLaws.RootHasNoParent` | aeordb-lib/spec/engine/path_utils_spec.rs:36-41 | At the root two dots stay. |
| `EnginePathLaws.NulIsIgnored` | aeordb-lib/spec/engine/path_utils_spec.rs:61-64 | A zero byte anywhere changes nothing. |
| `EnginePathLaws.WhiteInFront` | aeordb-lib/spec/engine/path_utils_spec.rs:109-112 | White space in front changes nothing. |
| `EnginePathLaws.WhiteBehind` | aeordb-lib/spec/engine/path_utils_spec.rs:49-52 | White space behind changes nothing. |
| `TextEncodings.WhiteExactly` | aeordb-lib/src/engine/path_utils.rs:4 | Of all code points exactly those with the Unicode property White_Space are trimmed. |
| `CrashWorker.Judge` | aeordb-cli/spec/crash_inject_spec.rs:157-180 | The verdict loop: exactly the missing and the corrupted entries, each once; it passes if and only if no logged path differs from the database. |
| `CrashWorker.NextAhead` | aeordb-cli/src/bin/crash-soak-worker.rs:97-172 | Every step keeps the database equal to what the log will say once the lines of the running operation are appended. |
| `CrashWorker.KillLeavesTheBytes` | aeordb-cli/src/bin/crash-soak-worker.rs:91-96 | A kill anywhere inside a line and the restart leave these bytes: the log, the part of the line, and the new worker's comment right behind it on the same line. |
| `CrashWorker.AnyPartMayRemain` | aeordb-cli/src/bin/crash-soak-worker.rs:175-189 | A kill may leave any part of the line being written, all of it included, but no newline; between lines it leaves nothing. |
| `CrashWorker.BatchPathInjective` | aeordb-cli/src/bin/crash-soak-worker.rs:203 | A batch path determines its count and its item. |
| `CrashWorker.DataPathInjective` | aeordb-cli/src/bin/crash-soak-worker.rs:121 | Zero-padded paths of different counts differ, past eight digits too. |
| `Formats.DataPathFormats` | aeordb-cli/src/bin/crash-soak-worker.rs:112-121 | The paths of numbered and of collected files: the text around the number, and the number in zero-padded decimal. |
| `Formats.BatchPathFormat` | aeordb-cli/src/bin/crash-soak-worker.rs:203 | A batch path: its folder by the count modulo 512, the count, and the item. |
| `Formats.DocPathFormats` | aeordb-cli/src/bin/crash-soak-worker.rs:219-229 | The paths of the merged documents, by the count modulo 64, and by count and item modulo 96. |
| `Formats.FilePathFormats` | aeordb-cli/src/bin/crash-soak-worker.rs:239-253 | The paths of overwritten files, by the count modulo 128, and of tiny files. |
| `Formats.DataBodyFormat` | aeordb-cli/src/bin/crash-soak-worker.rs:122 | The text of a numbered file: its count and the hash of it, in decimal. |
| `CrashWorker.RunPrints` | aeordb-cli/src/bin/crash-soak-worker.rs:175-189 | Every record of every run takes one line, its path starting with a slash and free of tabs, the lines a comment ran into included. |
| `CrashWorker.EveryLogReadsBack` | aeordb-cli/spec/crash_inject_spec.rs:103-121 | The log of any run, over kills anywhere inside lines and restarts, read as bytes, gives exactly what its records say. |
| `CrashWorker.CutIsUtf8` | aeordb-cli/spec/crash_inject_spec.rs:103-121 | Wherever a kill cuts a line of the worker, what is left is valid UTF-8, so that the reader does not stop there. |
| `CrashWorker.MergePathsDistinct` | aeordb-cli/src/bin/crash-soak-worker.rs:229 | The eight paths of a batch merge are distinct at every count. |
| `CrashVerdict.NextInv` | aeordb-cli/src/bin/crash-soak-worker.rs:97-172 | Every step of every mode, kills inside a line and restarts included, keeps what the log says true of the database except at the lines to come and at paths some kill is blamed for. |
| `CrashVerdict.RunInv` | aeordb-cli/src/bin/crash-soak-worker.rs:97-172 | That invariant holds after any run. |
| `CrashVerdict.DifferingIsChanged` | aeordb-cli/spec/crash_inject_spec.rs:150-180 | At every point of any run with any kills: apart from the paths earlier kills are blamed for, a logged path differs if and only if a line still to come changes what the log says of it. |
| `CrashVerdict.VerdictIsDecidedByTheLines` | aeordb-cli/spec/crash_inject_spec.rs:150-180 | At every kill point of one run in every mode, batches included, the paths that differ are exactly those the remaining lines change. |
| `CrashVerdict.EveryKillIsBlamed` | aeordb-cli/spec/crash_inject_spec.rs:150-180 | After any number of kills and restarts in any mode and a last kill, inside a line or not, the verdict on the bytes: wrong entries lie within the lines the kills cut off and that were not logged again since; there are at most eight for each kill in stress mode and one in the others. A batch of new files and a numbered file of writes mode are blamed only for a line cut past its tab. |
| `CrashVerdict.FewBlamed` | aeordb-cli/src/bin/crash-soak-worker.rs:97-265 | The blamed paths of a run are at most eight for each kill in stress mode and one in the others. |
| `CrashVerdict.VerdictAtEveryKill` | aeordb-cli/spec/crash_inject_spec.rs:150-180 | The verdict on the log's bytes at any kill point of one run: wrong entries lie within the operation in flight, none in writes mode or in a batch of new files, at most eight in stress, at most one otherwise. |
| `CrashVerdict.MixedFailsExactly` | aeordb-cli/spec/crash_inject_spec.rs:150-180 | In mixed mode the verdict fails at a kill point of one run if and only if a delete is done and its line is not appended. |
| `CrashVerdict.GcFailsExactly` | aeordb-cli/spec/crash_inject_spec.rs:150-180 | In gc mode the verdict fails at a kill point of one run if and only if a file is overwritten, its line is not appended, and the body written 256 rounds before was another. |
| `CrashVerdict.GcFailsOnEveryOverwrite` | aeordb-cli/src/bin/crash-soak-worker.rs:111-120 | With bodies that start with the counter, as the worker's JSON does: if and only if a file is overwritten, from the 257th round on, and its line is not appended. |
| `CrashVerdict.ReadCutLog` | aeordb-cli/spec/crash_inject_spec.rs:103-121 | A log and the start of one more line reads as the log and what the cut line says. |
| `CrashTorn.WritesTornVerdict` | aeordb-cli/spec/crash_inject_spec.rs:150-180 | In writes mode, with a last kill anywhere: the wrong entries are exactly those paths, without the path of the cut line if its body is whole, and with it if only part of the body is there. |
| `CrashTorn.WritesDifferExactly` | aeordb-cli/spec/crash_inject_spec.rs:150-180 | In writes mode, over any number of kills inside lines or between them and restarts, the paths that differ are exactly those whose commit a later worker's comment ran into past the tab and that were not logged again since. |
| `CrashTorn.WritesPassExactly` | aeordb-cli/spec/crash_inject_spec.rs:150-180 | The verdict passes if and only if every such path was logged again, or is whole in the last cut line, and that line is not cut within its body. |
| `CrashTorn.WritesNeverDiffer` | aeordb-cli/src/bin/crash-soak-worker.rs:93-163 | In writes mode nothing ever differs as long as no kill leaves a byte past a tab, over any number of kills and restarts from count zero. |
| `CrashTorn.WritesSpoilt` | aeordb-cli/src/bin/crash-soak-worker.rs:93-189 | In writes mode every such path is logged with the comment in its body. |
| `CrashLoop.Worker.Iterate` | aeordb-cli/src/bin/crash-soak-worker.rs:97-172 | One round of the loop is a run of the protocol without kills to the next loop head, where database and log agree and, in writes, mixed and stress mode, hold exactly the files of the rounds so far. |
| `CrashLoop.Worker.DataIteration` | aeordb-cli/src/bin/crash-soak-worker.rs:120-155 | Storing a numbered file and, in mixed mode, deleting the one five back at every seventh count. |
| `CrashLoop.Worker.GcIteration` | aeordb-cli/src/bin/crash-soak-worker.rs:111-141 | Overwriting one of 256 files and logging it. |
| `CrashLoop.Worker.StressIteration` | aeordb-cli/src/bin/crash-soak-worker.rs:191-265 | One round of stress mode is a run of the protocol; what it leaves is `StressFiles.StressHolds`. |
| `CrashLoop.Worker.StoreAndLog` | aeordb-cli/src/bin/crash-soak-worker.rs:199-217 | The files enter the database together and are then logged one by one, each append a step of the protocol. |
| `CrashLoop.Worker.MergeAndLog` | aeordb-cli/src/bin/crash-soak-worker.rs:218-237 | The patches are merged together and each file's content, read back, is logged; the content is its own merge because the paths differ. |
| `CrashLoop.Worker.DeleteAndLog` | aeordb-cli/src/bin/crash-soak-worker.rs:143-155 | A delete that succeeds is logged and one that fails is not. |
| `CrashLoop.Worker.CheckpointCommitted` | aeordb-cli/src/bin/crash-soak-worker.rs:175-182 | After the append the log, and its bytes when the record fits a line, read as before with this body at this path, and no other path comes to differ. |
| `CrashLoop.Worker.CheckpointDeleted` | aeordb-cli/src/bin/crash-soak-worker.rs:184-189 | After the append the log, and its bytes when the record fits a line, read as before without the path, which no longer differs. |
| `CrashLoop.Worker.CheckpointCurrentJson` | aeordb-cli/src/bin/crash-soak-worker.rs:292-296 | After logging what the file holds now its path no longer differs, and every other path differs as before. |
| `DataFiles.DataHolds` | aeordb-cli/src/bin/crash-soak-worker.rs:120-155 | At every loop head of one run of writes or mixed mode, database and log hold exactly the numbered files of the rounds so far, in mixed mode without those deleted five rounds later. |
| `DataFiles.DataNext` | aeordb-cli/src/bin/crash-soak-worker.rs:97-172 | Every step of those modes keeps it. |
| `StressFiles.StressHolds` | aeordb-cli/src/bin/crash-soak-worker.rs:191-265 | At every loop head of one run of stress mode, database and log hold exactly: all sixteen files of every batch, every tiny file, the last body of each of 128 overwritten slots, and each of 64 and 96 documents as the merges that concern it, in order, have made it. |
| `StressFiles.StressNext` | aeordb-cli/src/bin/crash-soak-worker.rs:191-265 | Every step of stress mode keeps it. |
| `StressFiles.PathsApart` | aeordb-cli/src/bin/crash-soak-worker.rs:203-256 | No two of those files share a path. |
| `CrashBound.EachKillCanCostAPath` | aeordb-cli/spec/crash_inject_spec.rs:150-180 | The bound is reached in mixed mode: for any number of kills some run over a correct database ends with that many logged paths wrong. |
| `CrashBound.MixedVerdictCanFail` | aeordb-cli/spec/crash_inject_spec.rs:150-180 | A run of mixed mode without restarts that the verdict condemns over a correct database: killed after the first delete and before its line. |
| `DirectoryCodec.EntryRoundTrip` | aeordb-lib/src/engine/directory_entry.rs:18-94 | Decoding an encoded entry, whatever follows it, gives the entry back with an empty content type read as none, and leaves what follows. |
| `DirectoryCodec.EntriesRoundTrip` | aeordb-lib/src/engine/directory_entry.rs:97-123 | Lists of entries decode to themselves. |
| `DirectoryCodec.NodeRoundTrip` | aeordb-lib/src/engine/btree.rs:46-149 | Leaf and internal nodes decode to themselves. |
| `DirectoryCodec.TooFewChildren` | aeordb-lib/src/engine/btree.rs:83-149 | A node written with as many keys as children encodes and is then refused as corrupt. |
| `Formats.EntryLayout` | aeordb-lib/src/engine/directory_entry.rs:18-48 | At which offset each field of an encoded entry lies, and how many bytes there are in all. |
| `Formats.EntryEncodesExactly` | aeordb-lib/src/engine/directory_entry.rs:18-28 | An entry is encoded if and only if its name and its content type have at most 65535 bytes each. |
| `Formats.OlderEntryReads` | aeordb-lib/src/engine/directory_entry.rs:80-90 | Entries that end before one or both of the last two numbers are read with zeros there. |
| `Formats.CutEntryIsRefused` | aeordb-lib/src/engine/directory_entry.rs:59-78 | An entry cut anywhere before that is refused as too short. |
| `Formats.LeafLayout` | aeordb-lib/src/engine/btree.rs:46-82 | A leaf is a zero byte, its count of entries in two bytes and the entries. |
| `Formats.InternalLayout` | aeordb-lib/src/engine/btree.rs:46-82 | An internal node is a one, its count of keys in two bytes, the keys and the children's hashes. |
| `Formats.LeafCountIsIgnored` | aeordb-lib/src/engine/btree.rs:91-102 | A leaf is read by its bytes: any nonzero count of entries gives the same leaf, and a zero count an empty one. |
| `Formats.UnknownNodeIsCorrupt` | aeordb-lib/src/engine/btree.rs:91-149 | Bytes that are too short or start with neither marker are refused as corrupt. |
| `Formats.NodeHash` | aeordb-lib/src/engine/btree.rs:152-158 | A node is stored under the hash of `btree:` and its bytes. |
| `Formats.LittleEndianAt` | aeordb-lib/src/engine/directory_entry.rs:36-46 | The byte at index `i` of an encoded number is the number divided by 256 to the `i`, modulo 256. |
| `SortedEntries.UpsertDirectory` | aeordb-lib/src/engine/btree.rs:192-203 | Upsert keeps the entries in strict name order and acts on the directory as a map update. |
| `SortedEntries.RemoveDirectory` | aeordb-lib/src/engine/btree.rs:206-213 | Removal keeps the order and acts on the directory as deletion of a key. |
| `SortedEntries.FindDirectory` | aeordb-lib/src/engine/btree.rs:186-189 | Finding a name gives what the directory maps it to. |
| `SortedEntries.ListingIsDetermined` | aeordb-lib/src/engine/btree.rs:512-528 | Two sorted listings of the same directory are the same sequence. |
| `BTreeStore.LeafNode.Upsert` | aeordb-lib/src/engine/btree.rs:192-203 | The leaf holds the sorted upsert; true is returned exactly when the name was new. |
| `BTreeStore.LeafNode.Remove` | aeordb-lib/src/engine/btree.rs:206-213 | The leaf holds the rest; true is returned exactly when the name was there. |
| `BTreeStore.LeafNode.Split` | aeordb-lib/src/engine/btree.rs:216-223 | Nothing is lost, the halves differ by one at most, and on a sorted leaf the key tells the names left of it from those right of it. |
| `BTreeStore.InternalNode.InsertKey` | aeordb-lib/src/engine/btree.rs:245-252 | Keys stay in order, and of the names the split child had exactly those not below the new key now lead to the right child; every other name leads where it did. |
| `BTreeStore.InternalNode.Split` | aeordb-lib/src/engine/btree.rs:255-267 | The halves; the middle key leaves both. |
| `BTree.ChildIndexSlot` | aeordb-lib/src/engine/btree.rs:229-234 | A name lies right of a separator exactly when it is not smaller: an exact match goes right. |
| `BTree.ValidSorted` | aeordb-lib/spec/engine/btree_spec.rs:222-315 | A tree whose separators bound their subtrees lists its entries in strict name order. |
| `BTree.LookupFinds` | aeordb-lib/src/engine/btree.rs:487-505 | Routing finds exactly what a search of the whole listing finds. |
| `BTree.InsertCorrect` | aeordb-lib/src/engine/btree.rs:330-394 | Insertion below a root, through any splits, keeps the separators valid, and its parts list the upsert of the whole. |
| `BTree.InsertRootCorrect` | aeordb-lib/src/engine/btree.rs:308-328 | Insertion at the root, a new root included, gives a valid tree that lists the upsert. |
| `BTree.DeleteCorrect` | aeordb-lib/src/engine/btree.rs:563-615 | Deletion keeps the tree valid and lists the rest; no tree is left exactly when nothing is. |
| `BTreeSizes.LeafSplitsAtForty` | aeordb-lib/src/engine/btree.rs:338-353 | A sorted leaf of up to 39 entries stays one leaf under an insertion, unless it has 39 and the name is new: then two leaves of twenty, parted by the first name of the right one. |
| `BTreeSizes.NodeSplitsAtSeventySeven` | aeordb-lib/src/engine/btree.rs:354-394 | A node of up to 76 keys stays one node under an insertion, unless it has 76 and its child splits: then two nodes of 38 keys and 39 children each. |
| `BTreeSizes.InsertKeepsSmall` | aeordb-lib/src/engine/btree.rs:330-394 | An insertion leaves no leaf with more than 39 entries and no node with more than 76 keys. |
| `BTreeSizes.DeleteKeepsSmall` | aeordb-lib/src/engine/btree.rs:563-615 | Nor does a deletion. |
| `BTreeSizes.GrownIsSmall` | aeordb-lib/src/engine/btree.rs:308-394 | However many entries were put into an empty directory, in whatever order: all nodes are that small, and the root is a leaf if and only if fewer than forty names were given. |
| `BTreeSizes.DroppedKey` | aeordb-lib/src/engine/btree.rs:593-611 | An emptied child goes with the key to its right, the last child with the key to its left; of two children the other one remains, of one nothing. |
| `BTreeSizes.LeavesPartAtForty` | aeordb-lib/src/engine/btree.rs:338-353 | In the store a leaf is one node below forty entries and two halves from there on, with the hashes and the key returned. |
| `BTreeSizes.NodesPartAtSeventySeven` | aeordb-lib/src/engine/btree.rs:354-394 | The same for a node at 77 keys. |
| `BTreeStore.StorageEngine.StoreNode` | aeordb-lib/src/engine/btree.rs:397-402 | A node the format can hold is loaded back from the hash returned; one it cannot hold changes nothing. |
| `BTreeStore.StorageEngine.InsertNode` | aeordb-lib/src/engine/btree.rs:330-394 | The nodes written and the outcome are those of the insertion step, errors included. |
| `BTreeStore.StorageEngine.InsertWithData` | aeordb-lib/src/engine/btree.rs:308-328 | The same for a root given by its bytes. |
| `BTreeStore.StorageEngine.Insert` | aeordb-lib/src/engine/btree.rs:292-303 | The same for a root given by its hash. |
| `BTreeStore.StorageEngine.InsertNodeBatched` | aeordb-lib/src/engine/btree.rs:652-726 | A successful batched step collects exactly the writes the unbatched one makes, with the same outcome. |
| `BTreeStore.StorageEngine.InsertBatched` | aeordb-lib/src/engine/btree.rs:623-650 | Batched insertion returns the same root and leaves the same store as unbatched insertion, and nothing when it fails. |
| `BTreeStore.StorageEngine.Delete` | aeordb-lib/src/engine/btree.rs:563-615 | The nodes written and the outcome are those of the deletion step, errors included. |
| `BTreeStore.StorageEngine.DropChild` | aeordb-lib/src/engine/btree.rs:593-611 | An emptied child goes with a key beside it; a single child left replaces the node. |
| `BTreeStore.StorageEngine.Lookup` | aeordb-lib/src/engine/btree.rs:487-505 | The stored lookup, errors included. |
| `BTreeStore.StorageEngine.List` | aeordb-lib/src/engine/btree.rs:512-528 | The stored listing, the first error ending it. |
| `BTreeStore.DecodedIsShaped` | aeordb-lib/src/engine/btree.rs:83-149 | Every node that decodes has one child more than keys. |
| `BTreeRefinement.InsertRefines` | aeordb-lib/src/engine/btree.rs:330-394 | Over any store that has its writes, the stored insertion succeeds and its outcome stands for the tree insertion. |
| `BTreeRefinement.DeleteRefines` | aeordb-lib/src/engine/btree.rs:563-615 | The same for deletion. |
| `BTreeRefinement.LookupRefines` | aeordb-lib/src/engine/btree.rs:487-505 | Looking up in a stored tree is looking up in the tree it stands for. |
| `BTreeRefinement.ListRefines` | aeordb-lib/src/engine/btree.rs:512-528 | Listing a stored tree is listing the tree it stands for. |
| `BTreeEntries.InsertSame` | aeordb-lib/src/engine/directory_entry.rs:18-94 | Insertion writes and returns the same for an empty content type as for none. |
| `BTreeEntries.InsertFails` | aeordb-lib/src/engine/btree.rs:330-402 | Insertion of an entry that cannot be written fails, wherever in the tree it leads. |
| `BTreeEntries.BuildSame` | aeordb-lib/src/engine/directory_entry.rs:18-94 | A bulk build writes and returns the same for empty content types as for none. |
| `BTreeEntries.BuildFails` | aeordb-lib/src/engine/btree.rs:406-440 | A bulk build with an entry that cannot be written fails. |
| `BTreeRuns.InsertHolds` | aeordb-lib/spec/engine/btree_spec.rs:423-543 | A stored root for a directory, met by no hash collision: insertion succeeds if and only if the entry's strings fit the format, only adds to the store, and then gives a root for the directory with the entry as it is read back. |
| `BTreeRuns.DeleteHolds` | aeordb-lib/spec/engine/btree_spec.rs:644-721 | The same for deletion; no root is returned exactly when the directory becomes empty. |
| `BTreeRuns.NextInv` | aeordb-lib/spec/engine/btree_spec.rs:607-627 | Every insertion, deletion and build, failing or not, keeps every root ever returned standing for its own directory. |
| `BTreeRuns.RunInv` | aeordb-lib/spec/engine/btree_spec.rs:607-627 | That invariant holds throughout any run. |
| `BTreeRuns.EveryRootForever` | aeordb-lib/spec/engine/btree_spec.rs:607-627 | At any point of any run, failed insertions and builds and empty content types included, every root returned so far lists in name order exactly the directory its own operations built and looks up every name in it; a directory without a root is empty. |
| `BTreeRuns.DirectoriesOnlyGrow` | aeordb-lib/spec/engine/btree_spec.rs:607-627 | The directory of a root is never changed by later operations. |
| `BTreeRuns.Perform` | aeordb-lib/src/engine/btree.rs:292-726 | The engine's insertion, batched insertion, deletion and bulk build take exactly the steps of the run, insertions the way their flag says; one that fails returns no root. |
| `BTreeRuns.BatchedStepIsTheSame` | aeordb-lib/src/engine/btree.rs:623-650 | In every state a run can reach, batched and unbatched insertion leave the same store and the same root; when the entry cannot be written neither gives a root and the batched one stores nothing. |
| `BTreeRuns.BatchedRunsListTheSame` | aeordb-lib/spec/engine/btree_spec.rs:1113-1149 | Two runs of the same operations, batched or not, in stores and under hashes of their own, list the same entries under every root. |
| `BTreeBulk.SortByNameSorts` | aeordb-lib/src/engine/btree.rs:413 | The list sorted by name is in order and holds the same entries as often. |
| `BTreeBulk.SortIsStable` | aeordb-lib/src/engine/btree.rs:413 | Entries of one name stay in the order they were given in. |
| `BTreeRuns.ByNameHasThemAll` | aeordb-lib/src/engine/btree.rs:406-413 | The directory of a list of distinct names has exactly its entries, each under its name. |
| `BTreeRuns.HeldIsGrounded` | aeordb-lib/src/engine/btree.rs:487-528 | Every root that stands for a directory can be walked to the bottom. |
| `BTreeBulk.FromEntries` | aeordb-lib/src/engine/btree.rs:406-440 | The nodes written and the root, level by level, as `FromSorted`; what they are is `BTreeBulkReads.LeavesStored`. |
| `BTreeBulk.BuildInternalLevel` | aeordb-lib/src/engine/btree.rs:442-480 | The loop over groups of children and the recursion to the level above. |
| `BTreeBulkReads.LeavesStored` | aeordb-lib/src/engine/btree.rs:421-432 | The leaves stand for consecutive chunks of 40 entries and the keys are the first names of all but the first. |
| `BTreeBulkReads.FirstGroups` | aeordb-lib/src/engine/btree.rs:459-473 | The first node of a level decodes to what it should be; a second is corrupt. |
| `BTreeBulkReads.GroupsStored` | aeordb-lib/src/engine/btree.rs:454-473 | A level is cut in groups of 78 children: which keys each node of the level above is given, one too many past the first, and which keys part those nodes. |
| `BTreeBulkReads.LevelsCorrupt` | aeordb-lib/src/engine/btree.rs:442-480 | Corruption in the first two nodes of a level reaches the root, through any number of levels. |
| `BTreeBulkReads.FromSortedBuilds` | aeordb-lib/src/engine/btree.rs:406-480 | Up to 3120 entries the root stands for a valid tree of exactly those entries; past that listing it reports corruption. |
| `BTreeRuns.BuildListsExactlyWhenSmall` | aeordb-lib/src/engine/btree.rs:406-480 | A bulk build succeeds if and only if every entry's strings fit the format; the directory then lists its sorted entries, as they are read, if and only if it has at most 3120 of them; otherwise the listing is an error. |
| `BTreeRuns.BuildCanBeWalked` | aeordb-lib/src/engine/btree.rs:406-480 | Every bulk-built root, small or large, can be walked to the bottom. |
| `BTreeRuns.BuildHolds` | aeordb-lib/spec/engine/btree_spec.rs:546-578 | A bulk-built root of at most 3120 entries with distinct names stands for the directory of those entries as they are read and joins any run; a build that fails changes no directory. |
| `Mixers.SplitMix.Next` | aeordb-cli/src/bin/gc-bench.rs:59-65 | One draw mixes the advanced state. |
| `Mixers.SplitMix.NextU32` | aeordb-cli/src/bin/soak-worker.rs:769-777 | The low 32 bits of the same draw from the same state. |
| `Mixers.SplitMix.Draws` | aeordb-cli/src/bin/gc-bench.rs:59-65 | Consecutive draws, pairwise distinct as long as there are at most 2^64. |
| `Mixers.DrawsRepeatExactlyEveryPeriod` | aeordb-cli/src/bin/gc-bench.rs:59-65 | From any seed two draws are equal if and only if they are a multiple of 2^64 apart. |
| `Mixers.DistinctWithinPeriod` | aeordb-cli/src/bin/gc-bench.rs:59-65 | Any 2^64 consecutive draws are pairwise distinct. |
| `Mixers.EveryWordIsDrawn` | aeordb-cli/src/bin/gc-bench.rs:59-65 | Every 64-bit word is drawn within one period. |
| `Mixers.ComputeFastishHash` | aeordb-cli/src/bin/crash-soak-worker.rs:298-305 | The step-by-step mixer computes the hash. |
| `Mixers.FastishHashInjective` | aeordb-cli/src/bin/crash-soak-worker.rs:298-305 | Different counters have different hashes. |
| `Mixers.SimpleRng.NextU64` | aeordb-lib/benches/stress_benchmark.rs:65-72 | One xorshift step, returned and kept. |
| `Mixers.SimpleRng.NextUsize` | aeordb-lib/benches/stress_benchmark.rs:74-76 | The next draw reduced below a positive bound. |
| `Mixers.SimpleRng.constructor` | aeordb-lib/benches/stress_benchmark.rs:61-63 | The state is never zero, however many draws follow, and a nonzero seed is kept. |
| `Mixers.XorshiftInjective` | aeordb-lib/benches/stress_benchmark.rs:65-72 | The xorshift step is injective on 64-bit words. |
| `Mixers.XorshiftIsPermutation` | aeordb-lib/benches/stress_benchmark.rs:65-72 | Every word is the step of exactly one word. |
| `Mixers.XorshiftNeverSticks` | aeordb-lib/benches/stress_benchmark.rs:60-72 | From any seed the state is nonzero after any number of draws. |
| `MixerBits.MixIs` | aeordb-cli/src/bin/gc-bench.rs:59-65 | SplitMix64's output bit by bit: folded right by 30, multiplied by 0xBF58476D1CE4E5B9, folded by 27, multiplied by 0x94D049BB133111EB, folded by 31. |
| `MixerBits.DrawIs` | aeordb-cli/src/bin/gc-bench.rs:59-65 | The draw after `n` others mixes the seed plus `n + 1` times 0x9E3779B97F4A7C15, modulo 2^64. |
| `MixerBits.FastishHashIs` | aeordb-cli/src/bin/crash-soak-worker.rs:298-305 | The payload mixer bit by bit: multiplied, folded right by 33, multiplied, folded by 29. |
| `MixerBits.XorshiftIs` | aeordb-lib/benches/stress_benchmark.rs:65-72 | One step bit by bit: folded left by 13, right by 7, left by 17. |
| `MixerBits.FoldsAreUnique` | aeordb-lib/benches/stress_benchmark.rs:65-72 | Those bits determine the word. |
| `Shuffle.ShuffleArray` | aeordb-lib/benches/stress_benchmark.rs:78-83 | In place, the array becomes the shuffle by the choices the generator draws, and keeps its elements. |
| `Shuffle.DrawnAt` | aeordb-lib/benches/stress_benchmark.rs:78-83 | The choice for an index is its draw modulo one more than the index, the first draw for the last index. |
| `Shuffle.ShuffleKeeps` | aeordb-lib/benches/stress_benchmark.rs:78-83 | A shuffle by any choices is a permutation. |
| `Shuffle.ShuffleInjective` | aeordb-lib/benches/stress_benchmark.rs:78-83 | On distinct elements different choices give different orders. |
| `Shuffle.ShuffleSurjective` | aeordb-lib/benches/stress_benchmark.rs:78-83 | Every order of distinct elements comes from some choices. |
| `Shuffle.ChooseDeletes` | aeordb-lib/benches/stress_benchmark.rs:406-472 | For every count: a tenth of it, rounded down, at most 10000 indices, the first of the order shuffled from seed 999, distinct and in range; as survivors the cells of exactly the others, each once. |
| `Shuffle.CellsArePartitioned` | aeordb-lib/benches/stress_benchmark.rs:423-472 | Every stored cell is either a survivor or the cell of a deleted index, never both. |
| `GcBench.Build` | aeordb-cli/src/bin/gc-bench.rs:94-174 | For every seed and percentage: the list is what the draws from the seed decide round by round (which file, whether one is deleted, which), in its order; `deletes` is the number of rounds whose sixth draw modulo 100 is below the percentage; the bytes are the sum of the sizes drawn. The list holds, once each, exactly the paths written and not deleted, and live plus deleted is written. |
| `GcBench.MaybeDelete` | aeordb-cli/src/bin/gc-bench.rs:133-140 | One draw modulo 100 below the percentage deletes the element at the next draw modulo the length, and the last element takes its place; otherwise nothing changes. An empty list takes no draw. |
| `GcBench.Roll` | aeordb-cli/src/bin/gc-bench.rs:59-65 | The next draw from the seed modulo the bound; the generator is one draw further. |
| `GcBench.PickSize` | aeordb-cli/src/bin/gc-bench.rs:107-114 | The size in one of three bands by one draw and within it by the next. |
| `GcBench.DrawsTaken` | aeordb-cli/src/bin/gc-bench.rs:101-140 | A round starts after six draws for every round before and one more for every one of them that deletes. |
| `GcBench.DeletesAtEnds` | aeordb-cli/src/bin/gc-bench.rs:133-140 | At zero percent no round deletes, from a hundred on every one does. |
| `GcBench.SwapRemovedLists` | aeordb-cli/src/bin/gc-bench.rs:137 | Swap-remove takes exactly the victim from a list without duplicates. |
| `GcBench.FilePathInjective` | aeordb-cli/src/bin/gc-bench.rs:103 | Whatever its folders, a path tells the number of its file. |
| `Formats.BenchPathFormat` | aeordb-cli/src/bin/gc-bench.rs:103 | The path's text around its three numbers. |
| `QueryBuilder.RoundTrip` | aeordb-plugin-sdk/src/query_builder.rs:41-88 | A total decoder undoes the encoding of every node, absent and null second values kept apart. |
| `QueryBuilder.GroupJson` | aeordb-plugin-sdk/src/query_builder.rs:41-88 | Groups are written as the only member `AND`, `OR` or `NOT`, the children in order. |
| `QueryBuilder.SimilarJson` | aeordb-plugin-sdk/src/query_builder.rs:455-457 | A similarity search is written with exactly a field, an operation and a value of a text and a threshold. |
| `QueryBuilder.Builder.Perform` | aeordb-plugin-sdk/src/query_builder.rs:195-228 | Each call appends the nodes it compiles to. |
| `QueryBuilder.Builder.Run` | aeordb-plugin-sdk/src/query_builder.rs:183-310 | A chain of calls appends the nodes of the whole program. |
| `QueryBuilder.Builder.BuildWhereClause` | aeordb-plugin-sdk/src/query_builder.rs:295-304 | The clause holds, whatever the fields say, if and only if all the nodes hold. |
| `QueryBuilder.Builder.ToQueryJson` | aeordb-plugin-sdk/src/query_builder.rs:251-280 | The query says where to look, a clause that holds if and only if all the nodes do, and of page and order exactly what was set. |
| `QueryBuilder.AggregateBuilder.Filter` | aeordb-plugin-sdk/src/query_builder.rs:564-571 | The filter's nodes are those a fresh builder would make of the same closure. |
| `QueryBuilder.AggregateBuilder.BuildWhereClause` | aeordb-plugin-sdk/src/query_builder.rs:600-604 | The same clause a query builder emits for the same nodes; it holds if and only if they all do. |
| `QueryBuilder.CompileCorrect` | aeordb-plugin-sdk/src/query_builder.rs:195-228 | The nodes of a call mean the call: conjunction of a group, disjunction of an or, negation of what a not says first, nothing for an empty group. |
| `QueryBuilder.FirstNodeCorrect` | aeordb-plugin-sdk/src/query_builder.rs:219-228 | The first node of a program means its first call that says anything. |
| `QueryBuilder.WhereClauseMeans` | aeordb-plugin-sdk/src/query_builder.rs:295-304 | For every program the emitted clause means the conjunction of the meanings of its calls. |
| `QueryBuilder.NodesMean` | aeordb-plugin-sdk/src/query_builder.rs:295-304 | For all nodes the emitted clause holds if and only if they all do. |
| `HostQuery.HostAcceptsExactlyDeliverable` | aeordb-lib/src/plugins/wasm_runtime.rs:927-983 | The host accepts a builder's query if and only if it has exactly one condition, at top level, not a similarity and with no literal that is not a finite number; it then reads the path, the field, the operation with its literals as bytes, the page and the sort order. |
| `HostQuery.HostReadsAsIntendedExactly` | aeordb-lib/src/plugins/wasm_runtime.rs:927-983 | For a query of one plain condition: the host searches the index for the bytes the values are filed under if and only if every literal arrives. |
| `HostQuery.ReadAsIntendedExactly` | aeordb-lib/src/engine/query_engine.rs:245-317 | For every condition the host reads: its operation is the intended one if and only if every literal in it arrives. |
| `QueryLiteral.WordsInOrder` | aeordb-lib/src/engine/query_engine.rs:225-243 | The eight bytes of two words are in byte order if and only if the words are in order, and read most significant first they give the word back. |
| `QueryLiteral.UnsignedInOrder` | aeordb-lib/src/engine/json_parser.rs:42-63 | Unsigned numbers are filed in their order. |
| `QueryLiteral.SignedInOrderExactly` | aeordb-lib/src/engine/json_parser.rs:42-63 | Signed numbers are filed in their order if and only if both are negative or neither is. |
| `QueryLiteral.IntegerIsRead` | aeordb-lib/src/engine/query_engine.rs:225-243 | The host makes of an integer the eight bytes that, most significant first, are it modulo 2^64, and refuses exactly the integers out of range. |
| `QueryLiteral.DecimalIsRead` | aeordb-lib/src/engine/query_engine.rs:225-243 | Of a decimal, those of its whole part, or of the nearest word. |
| `QueryLiteral.FlagIsRead` | aeordb-lib/src/engine/query_engine.rs:225-243 | A flag is one byte, one or zero, to the indexer and to the host. |
| `QueryLiteral.ArrivesExactly` | aeordb-lib/src/engine/query_engine.rs:225-243 | A literal written by the builder is searched for under the bytes the indexer files it under if and only if it is no float but plus zero, no number that is not finite and no non-empty raw bytes. |
| `QueryLiteral.ConvertedExactly` | aeordb-lib/src/engine/query_engine.rs:225-243 | The host converts every literal but numbers that are not finite. |
| `QueryLiteral.FiledApart` | aeordb-lib/src/engine/json_parser.rs:42-63 | Two literals of one kind are filed under the same bytes if and only if they are the same. |
| `QueryLiteral.Utf8Injective` | aeordb-lib/src/engine/json_parser.rs:55 | Different texts are different bytes. |
| `QueryLiteral.Base64IsItselfExactly` | aeordb-plugin-sdk/src/query_builder.rs:642-645 | The base64 text of some bytes is those bytes if and only if there are none. |
| `TextEncodings.Utf8Exactly` | aeordb-lib/src/engine/json_parser.rs:55 | Bytes pass as UTF-8 if and only if they are those of a text. |
| `TextEncodings.Base64Alphabet` | aeordb-plugin-sdk/src/query_builder.rs:642-645 | The alphabet of section 4 of RFC 4648. |
| `TextEncodings.Base64Vectors` | aeordb-plugin-sdk/src/query_builder.rs:642-645 | Vectors of section 10 of RFC 4648, with both kinds of padding. |
| `TextEncodings.BitsLayout` | aeordb-lib/src/engine/json_parser.rs:49-50 | The bit pattern of a double is its sign, eleven bits of exponent and fifty-two of fraction. |
| `TextEncodings.DoublesByExample` | aeordb-lib/src/engine/json_parser.rs:49-50 | What one, minus two and a half and the smallest positive number are made of. |
| `Doubles.TruncatedIsBitsExactly` | aeordb-lib/src/engine/query_engine.rs:233 | The cast of a finite double to `u64` is its bit pattern if and only if it is plus zero. |
| `Doubles.NumberKeptExactly` | aeordb-lib/src/engine/query_engine.rs:233 | The cast keeps a number if and only if it is whole, not negative and below 2^64. |
| `HostQuery.ClauseOfOnlyCondition` | aeordb-lib/src/engine/query_engine.rs:245-317 | How the host reads the clause of a single condition; a literal that is not finite is refused as a bad value. |
| `HostQuery.ClauseOfAnythingElse` | aeordb-lib/src/engine/query_engine.rs:320-356 | Every other builder clause, the empty one included, is refused. |
| `HostQuery.SortsRoundTrip` | aeordb-lib/src/plugins/wasm_runtime.rs:942-961 | The builder's sort list is read back unchanged. |
| `HostQuery.HostFormatRoundTrip` | aeordb-lib/src/engine/query_engine.rs:217-356 | A tree in the host's own clause format is read back, literals as bytes, if and only if it nests no deeper than 32 levels. |
| `HostQuery.ThresholdDefault` | aeordb-lib/src/engine/query_engine.rs:283-287 | A similarity search that names no number as its threshold is read with 0.3. |
| `JsonMerge.MergeInto` | aeordb-plugin-sdk/src/json.rs:49-65 | In place and in any order of keys, the result is one pure recursive merge. |
| `JsonMerge.MergeAll` | aeordb-plugin-sdk/src/json.rs:74-79 | Overlays applied left to right. |
| `JsonMerge.MergeAt` | aeordb-plugin-sdk/src/json.rs:44-65 | At every path: an overlay value wins unless both are objects, which merge; where the overlay is silent the base survives exactly when no overlay value on the way replaced it. |
| `JsonMerge.MergeIdempotent` | aeordb-plugin-sdk/src/json.rs:49-65 | Merging the same overlay again changes nothing. |
| `JsonMerge.PremergeExactlyWhenCompatible` | aeordb-plugin-sdk/src/json.rs:74-79 | Two overlays can be merged beforehand, for every base, if and only if the later puts no object where the earlier has something else. |
| `JsonMerge.MergeAllPremerges` | aeordb-plugin-sdk/src/json.rs:74-79 | Pairwise compatible overlays can all be merged beforehand. |
| `JsonMerge.MergeAllPremergesExactly` | aeordb-plugin-sdk/src/json.rs:74-79 | A list of overlays can be merged beforehand, for every base, if and only if their combined change sets no object. |
| `JsonMerge.MergeIsMergePatchExactlyWhenNullFree` | aeordb-plugin-sdk/src/json.rs:44-65 | The merge is the MergePatch function of section 2 of RFC 7396 if and only if the overlay has no null member reachable through objects. |
| `DepthBoundedPatch.ApplyMergePatch` | aeordb-lib/src/engine/merge_patch.rs:77-123 | The engine's patch, for every depth bound and key order. |
| `DepthBoundedPatch.ApplyObjectMerge` | aeordb-lib/src/engine/merge_patch.rs:125-166 | The loop over the patch's members. |
| `DepthBoundedPatch.UnboundedIsMergePatch` | aeordb-lib/src/engine/merge_patch.rs:77-166 | Without a bound it is the MergePatch function of section 2 of RFC 7396. |
| `DepthBoundedPatch.EngineAndSdkAgreeExactlyWhenNullFree` | aeordb-lib/src/engine/merge_patch.rs:77-166 | The engine's patch and the plugin merge agree if and only if the patch is free of nulls. |
| `DepthBoundedPatch.PreserveIsMergePatchOfPruned` | aeordb-lib/src/engine/merge_patch.rs:33-73 | Preserving beyond a depth is patching with the patch pruned there. |
| `DepthBoundedPatch.ReplaceIsMergePatchOfClearedExactlyWhenNullFreeBeyond` | aeordb-lib/src/engine/merge_patch.rs:33-73 | Replacing beyond a depth is patching a target cleared there, if and only if the patch has no null beyond it. |
| `DepthBoundedPatch.ReplaceKeepsBoundaryObjects` | aeordb-lib/src/engine/merge_patch.rs:33-73 | An object of the patch at the bound stands in the result as it is, nulls included. |
| `DepthBoundedPatch.PatchIdempotent` | aeordb-lib/src/engine/merge_patch.rs:77-166 | Applying the same patch again changes nothing, at every depth. |
| `DepthBoundedPatch.PatchesCommuteExactly` | aeordb-lib/src/engine/merge_patch.rs:77-166 | At every depth, two patches give the same document in either order, for every document, if and only if the members they share agree wherever they are not merged or ignored. |
| `DepthBoundedPatch.DisjointPatchesCommute` | docs/src/api/merge-patch.md:272 | Patches that touch disjoint keys give the same document in either order, without a bound and at every bound that preserves what lies beyond it. |
| `DepthBoundedPatch.DisjointPatchesCanClash` | docs/src/api/merge-patch.md:272 | At a bound of one level that replaces, `{"u":{"a":1}}` and `{"u":{"b":2}}` leave the later alone, whatever the document. |
| `RelativePath.RelativePathFrom` | aeordb-lib/build.rs:145-162 | The relative path resolves from the base to the target, and no relative path that does climbs less or is shorter. |
| `RelativePath.CountCommon` | aeordb-lib/build.rs:149-152 | The length of the deepest common ancestor. |
| `RelativePath.RelativeResolves` | aeordb-lib/build.rs:145-162 | For all absolute canonical paths, resolving the result gives the target. |
| `RelativePath.RelativeIsShortest` | aeordb-lib/build.rs:145-162 | Every relative path that leads there has at least as many climbs and at least as many components. |

## Left out

- The write-ahead log, key-value pages, garbage collection, snapshots, replication and query execution: the database is an atomic map and a collection changes no file.
- Authentication, HTTP, configuration, command-line drivers and report printing: plumbing with short local claims.
- Clocks, thread scheduling and signals: a kill is a step that may happen anywhere.
- Failed appends to the checkpoint log: both workers ignore or exit on them, and the model's appends succeed.
- Kills inside the crash worker's own comment line: what a torn line reads as is proved on bytes for every log (`Checkpoint.ReadTornLog`).
- SoakRuns.EveryRun: asks that stored paths fit a line and are the names of their files (`StoresLoggable`, `StoresOwnNames`), because exactly then the parts agree (`SoakExact.EveryRunExactly`), and that no cut falls inside a character (`CleanCuts`), because then nothing later is read (`SoakTears.BlindForever`).
- SoakRuns.DiffBlamesKills: asks the same, and that stored paths hold no tab, which the same lemma shows to be needed.
- Counters past 64 bits: the crash worker's count is unbounded here, where the source would overflow after 2^64 rounds.
- `pick_random`: any committed path may be chosen.
- The lossy comparison of the crash verdict: contents are text, so that comparison is equality.
- The engine's `include_deleted` reads, entry kinds other than directory nodes, and node versions other than the first.
- Binary search: lookups in sorted nodes are modelled by their result, the rank of a name.
- Aggregation members and cursors of queries, and what the indexes do with the bytes searched for.
- JSON number formats: integers and finite decimals are exact.
- File contents and snapshots of the collection benchmark.
