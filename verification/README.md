# DCFuzz seed sharing, scheduling and scoring, modelled in Dafny

DCFuzz runs several directed grey-box fuzzers (AFLGo, DAFL and WindRanger) side by side on
one target. Its core:

- **Watchers** follow each worker's `queue`, `crashes` and `hangs` directories. Each watcher
  keeps an append-only queue of new seed paths. A blacklist keeps files found by the
  initial scan from being queued a second time by live file-creation events.
- **The sync tick** (`sync2`) reads the new queue entries of every watcher. It hashes each
  seed, records the hash in the source worker's ledger, and stages it when the hash is
  globally new. It then delivers every staged seed to every worker whose ledger lacks the
  hash.
  - The *copying* scheme (`sync_seedcopyafter.py`) creates a symlink named
    `<src>_id:NNNNNN` in the destination's `dcfuzz/queue`. It also copies the seed into
    the destination's real queue under the next free id. The model computes that id with
    the corrected copy-name parser recorded under "## Findings".
  - The *link-only* scheme (`sync_seedcopybefore.py`) creates just a symlink named
    `id:NNNNNN`.
- **A Thompson-sampling bandit** chooses the next fuzzer. It is updated by success and
  failure counts and by a tie-grouped reward schedule over scores.
- **Process drivers** start, pause, resume and stop fuzzer processes. They also build each
  tool's command line and parse its `fuzzer_stats` file.
- **The evaluators** (`evaluator.py`, with its predecessor `evaluate_old.py`) snapshot a
  queue, run a scoring tool, parse its CSV-like score file, keep scores per seed id and
  report the best proximity score.
- **The benchmark script** of the DAFL docker image builds fuzzing, slicing and replay
  worklists from static tables and decides whether a replayed crash is the targeted one.

The model is purely functional. Global dictionaries and objects become immutable states
passed in and returned. An exception becomes an `Outcome` that carries the state reached
when it was raised (`Raised(state, exc)`) or a `Result` error. Directory listings, ctimes,
path resolution, file digests, process spawning and the outcomes of the symlinks and copies
the sync tick makes are parameters. The file-system failures listed under "## Left out" are
not modelled.

Modules, in dependency order:

- `Wrappers`: `Option`, `Result`, `Outcome` and the exception kinds.
- `Strings`: the Python string and path helpers the code relies on.
- `Sorting`: a stable sort by key.
- `MyType`: fuzzer and seed kinds, and watcher-config equality.
- `Watcher`: the watcher state machine.
- `Keyed`: dictionaries built by assigning rows in order.
- `SeedId`: the two AFL seed-id regular expressions.
- `Evaluator` and `EvaluateOld`: the two score extractors.
- `Registry`: the watcher cache and `init_watcher`.
- `Naming`: copy and link names.
- `Sync`: the tick for both schemes.
- `Thompson`: the bandit.
- `Process`: the process-table lifecycle.
- `Drivers`: argument vectors, environments, stats parsing and the AFLGo controller.
- `Benchmark`: the worklists and crash triage.

Where the code and its design notes disagree, the model follows the code. The two
exceptions are the defects listed under "## Findings": there the model carries both the
code as written and the corrected definition, and the rest of the model uses the corrected
one. Otherwise:

- Link-only names are a bare `id:NNNNNN` counter per destination. They do not encode
  the origin worker.
- `generate_replay_worklist` passes a single string where a list of names is expected. The
  membership test therefore becomes a substring test (`Benchmark.ReplayCrashVariant`).
- The tick's index window skips the entry at the previous queue length on every later
  tick. This is modelled as written (`Sync.ScanOne`, `Sync.ScanRangeSkipsBefore`).
- The Thompson arm record never initialises `diff`. Updating an arm without one raises
  `AttributeError` (`Thompson.NewArmCannotUpdate`).
- The WindRanger driver reads the `aflgo` configuration entry (`Drivers.WindRangerReadsAflgo`).
- `AFLGOController.start` never keeps the driver it launches in its own list. Each
  controller command is modelled as it runs from the command line: a fresh controller,
  `init`, then the command.
- The `ASAN_OPTIONS` removal in `run` acts on the driver's own dictionary. An inherited
  `ASAN_OPTIONS` therefore reaches the fuzzer (`Drivers.LaunchEnvOfDriver`).
- A symlink that fails in `sync_test_case` raises after the hash was already added to the
  destination's ledger. That seed is never offered to that destination again.
- The tick returns early when a fuzzer has no watchers. Seeds staged so far in that tick
  are then never delivered: they are already in the global set.
- A parse error in `extract_score` propagates before the final clean-up, so the scoring
  artifacts are left behind.
- In the benchmark table, the `nm-2017-8397` entry triages with `check_nm_2017_14940`. The
  slicing table lists the `nm` bug as `2017-14940`. The table is modelled as written.

## Model

| member | source | states |
|---|---|---|
| MyType.FuzzerTypeOf | dcfuzz/mytype.py:8-11 | a fuzzer-type string is accepted iff it is `aflgo`, `dafl` or `windranger`, and the accepted member's value is the string itself |
| MyType.FuzzerTypeRoundTrip | dcfuzz/mytype.py:8-11 | looking up a fuzzer type's value yields that type again |
| MyType.ConfigEqIffSameHashKey | dcfuzz/mytype.py:25-30 | two watcher configs are equal iff the strings they hash agree (for a resolver yielding absolute paths), so equal configs have equal hashes |
| Watcher.TargetDirs | dcfuzz/watcher.py:174-178 | a watcher follows exactly `queue`, `crashes` and `hangs` under the output directory, in that order |
| Watcher.SeedTypeOf | dcfuzz/watcher.py:198-208 | the seed kind is CRASH, HANG or NORMAL for a parent directory named `crashes`, `hangs` or `queue`; any other parent raises `ValueError`, and a path with fewer than two parts raises `IndexError` |
| Watcher.WatchedFilesClassify | dcfuzz/watcher.py:174-208 | every file in a watched directory is classified by the kind of that directory and never raises |
| Watcher.ScanFilesAreListedFiles | dcfuzz/watcher.py:87-99 | everything the initial scan finds is a regular file listed in one of the watched directories |
| Watcher.ListedFilesAreScanned | dcfuzz/watcher.py:87-99 | every regular file listed in a watched directory is found by the initial scan |
| Watcher.ScanTargetFolders | dcfuzz/watcher.py:87-99 | the scan appends the found files sorted by ctime and keeps the previous queue as a prefix; the blacklist grows by exactly the appended paths |
| Watcher.ScanIsStable | dcfuzz/watcher.py:95 | files with equal ctime keep their listing order in the queue |
| Watcher.Start | dcfuzz/watcher.py:101-126 | starting an alive watcher changes nothing; otherwise it becomes alive after one initial scan |
| Watcher.OnCreated | dcfuzz/watcher.py:39-48 | an event appends at most one path, exactly when it is a file creation of a path outside the blacklist, and never changes the blacklist |
| Watcher.ApplyEventsAppends | dcfuzz/watcher.py:39-48 | a run of live events appends exactly the non-blacklisted file creations, in order, to an unchanged prefix |
| Watcher.LiveAppendsAvoidBlacklist | dcfuzz/watcher.py:39-48 | no blacklisted path is appended by a live event |
| Watcher.ScanPrecedesLiveEvents | dcfuzz/watcher.py:114-126 | after `start` and a run of events the queue is the old queue, then every scanned file, then the live appends, and no scanned file reappears among the live appends |
| Sorting.SortBy | dcfuzz/watcher.py:95 | the sort result is ordered by key and is a permutation of its input |
| Sorting.InsertSorted | dcfuzz/watcher.py:95 | inserting an element into a key-ordered sequence keeps it ordered by key |
| Sorting.SortByStable | dcfuzz/watcher.py:95 | for every key, the elements with that key keep their relative order |
| Registry.Lookup | dcfuzz/watcher.py:299-305 | a cached watcher is found iff some cached config equals the requested one, and the one returned belongs to such a config |
| Registry.LookupRespectsEq | dcfuzz/watcher.py:299-305 | equal configs find the same cached watcher |
| Registry.GetWatcher | dcfuzz/watcher.py:299-317 | a cached config returns its watcher unchanged; otherwise one new watcher for the config's output directory is created and cached |
| Registry.GetWatcherSameInstance | dcfuzz/watcher.py:299-317 | asking again for an equal config returns the same instance and changes nothing |
| Registry.RegisterWatcher | dcfuzz/watcher.py:327-334 | registering adds exactly one alive watcher to the fuzzer's list and leaves existing watchers alone |
| Registry.InitWatcher | dcfuzz/watcher.py:319-334 | an already-processed output is a no-op; an unknown fuzzer name raises `ValueError` after creating the fuzzer's list; otherwise one watcher is appended and the output is recorded |
| Registry.InitWatcherIdempotent | dcfuzz/watcher.py:324-325 | a second `init_watcher` for the same output changes nothing |
| Naming.MaxId | dcfuzz/sync_seedcopyafter.py:42-54 | the maximum is -1 iff no name carries an id; otherwise it is some name's id and bounds every id |
| Naming.NextCopyAbove | dcfuzz/sync_seedcopyafter.py:42-54 | under any id parser, the proposed copy name is `<src>_id:` followed by digits whose value exceeds every id the parser reads in the directory, and is `<src>_id:000000` when it reads none |
| Naming.NextCopyFresh | dcfuzz/sync_seedcopyafter.py:42-54 | under an id parser that reads back the number of every copy name, the proposed copy name is not already in the directory |
| Naming.NextIdInDirFresh | dcfuzz/sync_seedcopyafter.py:42-54 | the proposed copy name is not already in the directory |
| Naming.NextIdInDirAsWrittenReuses | dcfuzz/sync_seedcopyafter.py:40-54 | with the six-digit capture, a directory holding `id:999999` and `aflgo_id:1000000` is offered `aflgo_id:1000000` again |
| Naming.IdOfCopyName | dcfuzz/sync_seedcopyafter.py:111-118 | a tagged name `<src>_id:NNNNNN` carries id N |
| Naming.CopyNameIgnored | dcfuzz/watcher.py:188-196 | a copy named `<src>_id:…` after an alphanumeric worker name is never taken for a seed by a watcher |
| Naming.NextIdInDirIgnored | dcfuzz/sync_seedcopyafter.py:136-140 | the real-queue copy made by a delivery is ignored by the destination's watcher |
| Naming.NewAflFilename | dcfuzz/sync_seedcopyafter.py:111-118 | the destination's counter starts at 0 and grows by one per call, other counters stay; the name carries the counter value as its id |
| Naming.IdOfPlainName | dcfuzz/sync_seedcopybefore.py:87-94 | a link-only name `id:NNNNNN` carries id N and is not ignored by a watcher |
| Naming.NewAflFilenameIncreasing | dcfuzz/sync_seedcopybefore.py:87-94 | two successive names for one destination carry ids n and n+1 and differ |
| Sync.InitLedgers | dcfuzz/sync_seedcopyafter.py:102-109 | `init` gives an empty ledger to exactly the workers that have none and keeps every existing ledger |
| Sync.Checksum | dcfuzz/sync_seedcopyafter.py:57-73 | a cached path returns its cached digest; a new path is digested and cached, and an unreadable one raises `FileNotFoundError`; the cache only grows |
| Sync.ChecksumMemo | dcfuzz/sync_seedcopyafter.py:57-73 | asking again for a path returns the same digest and leaves the cache alone, whatever the file now holds |
| Sync.Examine | dcfuzz/sync_seedcopyafter.py:189-197 | an ignored name changes nothing; an undigestable one raises; otherwise its hash joins the source's ledger and is staged iff globally new |
| Sync.ExamineGrew | dcfuzz/sync_seedcopyafter.py:192-197 | after examining a seed its hash is in the source's ledger, and one item is staged iff the hash was not yet seen |
| Sync.ScanRange | dcfuzz/sync_seedcopyafter.py:187-197 | scanning a window changes no ledger key, registry or index, and an empty window changes nothing |
| Sync.ScanRangeGrew | dcfuzz/sync_seedcopyafter.py:187-197 | a window stages only globally new hashes from its own worker, and ledgers, the seen set and the digest cache only grow |
| Sync.ScanRangeRecords | dcfuzz/sync_seedcopyafter.py:187-197 | after a completed window every non-ignored entry's hash is in the source's ledger |
| Sync.ScanOne | dcfuzz/sync_seedcopyafter.py:184-198 | a watcher's seeds are those of the window starting one past its stored index (-1 when it has none); a completed scan then stores the queue length, a raised one leaves the indices alone |
| Sync.Phase1Step | dcfuzz/sync_seedcopyafter.py:168-198 | a fuzzer's phase-one step keeps every watcher alive and every ledger key, and only appends watchers |
| Sync.Phase1RunAlive | dcfuzz/sync_seedcopyafter.py:168-198 | after phase one every registered watcher is alive and earlier watchers are unchanged |
| Sync.CopyInto | dcfuzz/sync_seedcopyafter.py:134-147 | the copy goes to a fresh name that watchers ignore; a failed copy changes nothing and raises nothing |
| Sync.SyncTestCase | dcfuzz/sync_seedcopyafter.py:120-147 | a delivery uses the destination's next link name and adds a copy iff the scheme copies; a failing symlink raises `OSError` after the counter advanced; the link-only scheme raises `KeyError` for an unconfigured worker |
| Sync.LinksUnwatched | dcfuzz/sync_seedcopyafter.py:120-131 | the `dcfuzz/queue` directory holding the links is not one a watcher follows |
| Sync.DeliverOne | dcfuzz/sync_seedcopyafter.py:205-209 | the hash joins the destination's ledger before delivering; a hash the destination holds is not delivered |
| Sync.DeliverItemsComplete | dcfuzz/sync_seedcopyafter.py:203-209 | when phase two finishes for a destination, its ledger gains every staged hash and it was sent exactly the staged hashes it lacked |
| Sync.Phase2Delivered | dcfuzz/sync_seedcopyafter.py:203-209 | every phase-two delivery goes to a destination that lacked the hash and each link name is fresh |
| Sync.Phase2Complete | dcfuzz/sync_seedcopyafter.py:203-209 | when phase two finishes, every worker's ledger holds all staged hashes and each was sent exactly the staged hashes it lacked |
| Sync.Begin | dcfuzz/sync_seedcopyafter.py:158 | a tick begins with a ledger for every named worker and changes nothing else |
| Sync.Tick | dcfuzz/sync_seedcopyafter.py:150-209 | an unknown target raises `KeyError` straight after `init`; an early return (a fuzzer without watchers) delivers nothing |
| Sync.TickStaged | dcfuzz/sync_seedcopyafter.py:168-198 | a tick stages only globally new hashes, each at most once, from the named workers, and records each in its source's ledger |
| Sync.TickDelivered | dcfuzz/sync_seedcopyafter.py:150-209 | ledgers only grow; each delivery goes to a named worker that lacked the hash, and no (destination, hash) pair is delivered twice |
| Sync.NoSelfDelivery | dcfuzz/sync_seedcopyafter.py:194-209 | no seed is delivered back to the worker it came from |
| Sync.TickLinksFresh | dcfuzz/sync_seedcopyafter.py:111-131 | every link name a tick creates carries a counter value the destination never used before |
| Sync.TickComplete | dcfuzz/sync_seedcopyafter.py:199-209 | after a full tick every worker holds every staged hash and was sent exactly those it lacked after phase one |
| Sync.TickQuiet | dcfuzz/sync_seedcopyafter.py:163-209 | a tick where no watcher grew stages nothing, delivers nothing and changes nothing |
| Sync.TickSettles | dcfuzz/sync_seedcopyafter.py:184-198 | after a full tick every watcher of every named worker has its last index at its queue length |
| Sync.TickAlive | dcfuzz/sync_seedcopyafter.py:175 | every registered watcher stays alive through a tick |
| Sync.TickKnown | dcfuzz/sync_seedcopyafter.py:159-175 | a full tick implies the target is configured and every named worker is a configured fuzzer with a ledger |
| Sync.TickIdempotent | dcfuzz/sync_seedcopyafter.py:163-209 | a tick right after a tick, with no queue growth, is quiet |
| Sync.TwoTicks | dcfuzz/sync_seedcopyafter.py:150-209 | across two ticks no (destination, hash) pair is delivered twice and no hash is staged twice |
| Sync.ScanRangeSkipsBefore | dcfuzz/sync_seedcopyafter.py:187-190 | queue entries before the window's start have no influence on the scan |
| Thompson.FirstMax | dcfuzz/thompson.py:21 | the chosen index has maximal probability and every earlier one is strictly smaller |
| Thompson.SelectFuzzer | dcfuzz/thompson.py:15-24 | each arm's probability becomes its draw, nothing else changes, and the arm chosen has the largest draw, the first one on ties; no arms raise `ValueError` |
| Thompson.SelectFuzzerFirst | dcfuzz/thompson.py:21 | the chosen arm is no later than any arm with the largest draw |
| Thompson.Step | dcfuzz/thompson.py:29-36 | one update changes only S or F and `diff`, and the arm keeps a `diff` |
| Thompson.UpdateCount | dcfuzz/thompson.py:26-36 | only the selected arms change, and only their S, F and `diff` |
| Thompson.UpdateCountRepeats | dcfuzz/thompson.py:26-36 | an arm named n times receives n successive updates |
| Thompson.NewArmCannotUpdate | dcfuzz/thompson.py:6-12 | updating an arm that never got a `diff` raises `AttributeError` and changes nothing |
| Thompson.RepeatMonotone | dcfuzz/thompson.py:26-36 | with a positive `diff`, it stays positive and S and F never decrease |
| Thompson.RepeatSuccess | dcfuzz/thompson.py:29-31 | n successes add 2·diff·(1 − 2⁻ⁿ) to S and leave diff·2⁻ⁿ |
| Thompson.RepeatFailure | dcfuzz/thompson.py:33-35 | n failures add n·diff + n(n−1)/2 to F and leave diff + n |
| Thompson.ThreeSuccesses | dcfuzz/thompson.py:29-31 | from S = 1 and diff = 1, three successes give S = 2, 2.5, 2.75 and diff = 0.5, 0.25, 0.125 |
| Thompson.UpdateCountPrep | dcfuzz/thompson.py:38-45 | S grows by exactly 1 on success and F by exactly 1 otherwise, and nothing else changes; an unknown arm raises `KeyError` |
| Thompson.PrepIsUnitStep | dcfuzz/thompson.py:29-45 | the preparation update of an arm is the ordinary update taken with a `diff` of 1, with the arm's own `diff` kept |
| Thompson.Groups | dcfuzz/thompson.py:55-63 | the groups concatenate back to the ranking and the first group is non-empty |
| Thompson.GroupsRuns | dcfuzz/thompson.py:55-63 | every group is non-empty, the scores within a group are equal, and adjacent groups differ in score at their boundary |
| Thompson.RankFuzzer | dcfuzz/thompson.py:47-70 | ranking keeps the arms and their order; no arms raise `IndexError` |
| Thompson.RankFuzzerRewards | dcfuzz/thompson.py:47-70 | each arm receives the reward of its dense score rank: (+19, +1), (+10, +10), (+1, +19) for ranks 0 to 2 and nothing after |
| Thompson.RankFuzzerEqualScores | dcfuzz/thompson.py:55-70 | arms with equal scores receive equal rewards |
| Thompson.RankFuzzerTwenty | dcfuzz/thompson.py:64-70 | scores are unchanged, S + F grows by exactly 20 for the top three ranks, and the best-scoring arm gets (+19, +1) |
| Process.Tracked | dcfuzz/fuzzer_driver/fuzzer.py:52-68 | no process is tracked iff the pid is unset, zero, or not in the process table |
| Process.LaunchEnv | dcfuzz/fuzzer_driver/fuzzer.py:90 | the launch environment is the inherited one overridden key by key by the driver's variables |
| Process.Run | dcfuzz/fuzzer_driver/fuzzer.py:84-113 | a tracked process makes `run` a no-op; otherwise a failing argument build, a debug run without a debug file, or a failed spawn raises, and a spawn tracks the new pid |
| Process.Start | dcfuzz/fuzzer_driver/fuzzer.py:116-121 | `start` is a no-op while a process is tracked, and after it succeeds a process is tracked |
| Process.StartIdempotent | dcfuzz/fuzzer_driver/fuzzer.py:116-121 | a second `start` changes nothing |
| Process.Pause | dcfuzz/fuzzer_driver/fuzzer.py:123-132 | with no process it raises `FuzzerDriverException`; otherwise the root and its live descendants are suspended and nothing else changes |
| Process.Resume | dcfuzz/fuzzer_driver/fuzzer.py:134-142 | with no process it raises `FuzzerDriverException`; otherwise the root and its live descendants run and nothing else changes |
| Process.Stop | dcfuzz/fuzzer_driver/fuzzer.py:144-153 | with no process it is a no-op; otherwise the root and its descendants leave the table and nothing else changes |
| Process.PauseResume | dcfuzz/fuzzer_driver/fuzzer.py:123-142 | resuming a group that was running before the pause restores the table |
| Process.ResumePause | dcfuzz/fuzzer_driver/fuzzer.py:123-142 | pausing a group that was suspended before the resume restores the table |
| Process.PauseIdempotent | dcfuzz/fuzzer_driver/fuzzer.py:123-132 | pausing twice is pausing once |
| Process.StopForgets | dcfuzz/fuzzer_driver/fuzzer.py:123-153 | after `stop` no process is tracked, `pause` and `resume` raise, and `stop` is a no-op |
| Process.StartThenPause | dcfuzz/fuzzer_driver/fuzzer.py:116-132 | a freshly started process can be paused, and only it is suspended |
| Drivers.Target | dcfuzz/fuzzer_driver/aflgo.py:74-78 | the target is the program under the configured target root; a missing config entry raises `KeyError` |
| Drivers.GenRunArgs | dcfuzz/fuzzer_driver/aflgo.py:95-99 | building the vector raises `FuzzerDriverException` iff the target is not on disk |
| Drivers.GenRunArgsLayout | dcfuzz/fuzzer_driver/aflgo.py:125-138 | the vector is the `cgexec` prefix iff a cgroup is given, the fixed options, the tool's flags, `--`, the target, and words that join back to the argument string |
| Drivers.EmptyArgument | dcfuzz/fuzzer_driver/aflgo.py:134-136 | an empty argument string contributes one empty word after the target |
| Drivers.WindRangerReadsAflgo | dcfuzz/fuzzer_driver/windranger.py:71-75 | the WindRanger driver has the AFLGo target and command |
| Drivers.LaunchEnvOfDriver | dcfuzz/fuzzer_driver/dafl.py:80-90 | the launch environment holds the six fixed variables, and an inherited `ASAN_OPTIONS` survives |
| Drivers.StatsLine | dcfuzz/fuzzer_driver/aflgo.py:25-28 | a stats line without `:` raises `IndexError` |
| Drivers.ParseFuzzerStats | dcfuzz/fuzzer_driver/aflgo.py:20-31 | an absent stats file gives `None`, and a parsed map is never empty |
| Drivers.ParseFuzzerStatsSpec | dcfuzz/fuzzer_driver/aflgo.py:20-31 | parsing raises `IndexError` iff some line lacks `:`, fails its assertion iff the file is empty, and otherwise maps each key to the stripped value of its last line |
| Drivers.Init | dcfuzz/fuzzer_driver/aflgo.py:161-176 | `init` adds one driver per persisted record, in order, carrying the recorded pid |
| Drivers.StartController | dcfuzz/fuzzer_driver/aflgo.py:179-189 | `start` is a no-op when drivers exist; otherwise it launches one worker and persists one running record with its pid (the corrected start, which fills `thread`) |
| Drivers.StartControllerAsWritten | dcfuzz/fuzzer_driver/aflgo.py:179-189 | as written, a `start` that spawns a worker then raises `IntegrityError`: the worker stays running, and no record, scale row or `ready` marker is written |
| Drivers.StartAsWrittenVsCorrected | dcfuzz/fuzzer_driver/aflgo.py:184-189 | the written and corrected starts spawn the same worker and fail alike; the written one raises where the corrected one records |
| Drivers.SignalAllSpec | dcfuzz/fuzzer_driver/aflgo.py:195-207 | pausing or resuming every driver raises iff some driver has no process, and otherwise sets every tracked group's status |
| Drivers.StopAllForgets | dcfuzz/fuzzer_driver/aflgo.py:209-213 | after stopping all drivers none tracks a process |
| Drivers.Drive | dcfuzz/fuzzer_driver/aflgo.py:141-213 | `scale` does nothing and `stop` drops every persisted record |
| Drivers.DriveStartIdempotent | dcfuzz/fuzzer_driver/aflgo.py:179-189 | a second `start` command changes nothing |
| Drivers.DriveStartThenPause | dcfuzz/fuzzer_driver/aflgo.py:179-198 | after `start`, a `pause` command suspends the launched worker |
| Drivers.DriveAsWritten | dcfuzz/fuzzer_driver/aflgo.py:179-189 | with `start` as written, a start on an empty database raises and leaves it empty; the other commands are unchanged |
| Drivers.DriveStartAsWrittenSpawnsAgain | dcfuzz/fuzzer_driver/aflgo.py:179-198 | as written, two `start` commands on an empty database spawn two workers, record neither, and a `pause` suspends neither |
| Drivers.DriveStopForgets | dcfuzz/fuzzer_driver/aflgo.py:209-213 | after `stop`, no process from a persisted record is tracked |
| Keyed.CollectFails | dcfuzz/evaluator.py:72-82 | building a dictionary from rows fails iff some row fails, with the error of the first failing row |
| Keyed.CollectSpec | dcfuzz/evaluator.py:72-82 | a key is present iff some row sets it, its value is the one set last, and a non-empty row list gives a non-empty dictionary |
| SeedId.LeadingId | dcfuzz/evaluator.py:45-55 | the id is `id:` and the whole digit run at the start of the name, and a name not starting with `id:<digit>` raises `ValueError` |
| SeedId.Search | dcfuzz/evaluator.py:61 | the search finds the first position holding a word-bounded `id:<digits>` |
| SeedId.FirstId | dcfuzz/evaluator.py:57-63 | the id found is the first word-bounded `id:<digits>`, and a name without one raises `ValueError` |
| SeedId.AfterComma | dcfuzz/evaluator.py:59 | the text after the first comma, absent iff the line has no comma |
| SeedId.ExtractAfterField | dcfuzz/evaluator.py:57-63 | for `field,path` with a comma-free field, the id is the first id in the path's basename |
| SeedId.ExtractAgreesWithNormalize | dcfuzz/evaluator.py:45-63 | a score line names a seed by the same id the snapshot stored it under |
| Evaluator.GenRunArgs | dcfuzz/evaluator.py:23-43 | an unconfigured program raises `KeyError` |
| Evaluator.GenRunArgsLayout | dcfuzz/evaluator.py:36-43 | the vector is the twelve fixed words ending in the target root, followed by words that join back to the program's arguments, present iff those are non-empty |
| Evaluator.ScoreRowsParse | dcfuzz/evaluator.py:70-71 | the header line yields no row and row `i` is line `i + 1` parsed on its own |
| Evaluator.ParseScoreFileFails | dcfuzz/evaluator.py:65-82 | parsing fails iff some line after the header fails, with the first failing line's error |
| Evaluator.ParseScoreFileContents | dcfuzz/evaluator.py:65-82 | a seed id is present iff some line names it, with the scores of the last such line |
| Evaluator.ParseScoreFileHeader | dcfuzz/evaluator.py:72-74 | the first line is skipped whatever it holds |
| Evaluator.SeedModel | dcfuzz/evaluator.py:116-124 | a fuzzer name selects a table iff its lower-case form is `aflgo`, `windranger` or `dafl`; otherwise it raises `ValueError` |
| Evaluator.Upsert | dcfuzz/evaluator.py:229-242 | storing a row keeps ids unique, adds the id, sets its row and leaves other rows alone |
| Evaluator.StoreSets | dcfuzz/evaluator.py:229-242 | every staged id gets a row with its parsed scores, or (-1, -1) when the score file lacks it |
| Evaluator.StoreKeeps | dcfuzz/evaluator.py:229-242 | rows of ids that were not staged are unchanged |
| Evaluator.MaxProx | dcfuzz/evaluator.py:162-167 | the best proximity is -1 for no rows, and otherwise some row's proximity that bounds every row's |
| Evaluator.SnapshotFails | dcfuzz/evaluator.py:144-156 | the snapshot raises iff an eligible file's name has no leading id |
| Evaluator.SnapshotStages | dcfuzz/evaluator.py:144-159 | an id is staged iff it belongs to a regular file not starting with `.` and not `README.txt`, and is not yet stored |
| Evaluator.SnapshotFresh | dcfuzz/evaluator.py:144-159 | no staged id is already stored |
| Evaluator.CleanupIdempotent | dcfuzz/evaluator.py:95-113 | cleaning up twice is cleaning up once |
| Evaluator.ExtractScoreCached | dcfuzz/evaluator.py:199-227 | with nothing staged, or no score file produced, the cached best (-1 for none) is returned and no row changes; the scorer runs iff something was staged |
| Evaluator.ExtractScoreUnknownProgram | dcfuzz/evaluator.py:205 | staged seeds for an unconfigured program raise `KeyError` |
| Evaluator.ExtractScoreStores | dcfuzz/evaluator.py:229-249 | after scoring, other fuzzers' tables are unchanged, old rows are kept, and every staged id has a row |
| Evaluator.ExtractScoreLeavesNoArtifacts | dcfuzz/evaluator.py:190-249 | a successful extraction leaves no scoring artifact behind |
| EvaluateOld.OldScoreFields | dcfuzz/evaluate_old.py:49-68 | the comma-separated fields of a line parse iff the first, third-from-last, second-from-last and last fields are integers and it has at least three fields; the row is keyed by the first field with the middle fields as file name |
| EvaluateOld.OldScoreRowsParse | dcfuzz/evaluate_old.py:48-49 | the header line yields no row and row `i` is line `i + 1` parsed on its own |
| EvaluateOld.ParseScoreFileOldFails | dcfuzz/evaluate_old.py:44-69 | parsing fails iff some line after the header fails, with the first failing line's error |
| EvaluateOld.ParseScoreFileOldContents | dcfuzz/evaluate_old.py:44-69 | a key is present iff some line sets it, with the row of the last such line |
| EvaluateOld.MaxScore | dcfuzz/evaluate_old.py:138 | the maximum is some row's proximity and bounds every row's; no rows raise `ValueError` |
| EvaluateOld.RemoveItemsSpec | dcfuzz/evaluate_old.py:88-94 | exactly the listed regular files, links and directories leave the score directory |
| EvaluateOld.CleanupLeavesSpecials | dcfuzz/evaluate_old.py:81-94 | clean-up keeps the directory and only its special files; a second clean-up changes nothing |
| EvaluateOld.SnapshotAll | dcfuzz/evaluate_old.py:96-106 | the snapshot copies exactly the regular files of the queue |
| EvaluateOld.IncrementalWithinFull | dcfuzz/evaluator.py:144-159 | every id the incremental snapshot stages belongs to a file the full snapshot copies |
| EvaluateOld.ExtractScoreOld | dcfuzz/evaluate_old.py:109-143 | a successful extraction copied the whole queue, for a configured program that produced a score file |
| EvaluateOld.ExtractScoreOldBest | dcfuzz/evaluate_old.py:109-143 | no score file raises `FileNotFoundError`; a file that parses succeeds iff it has a line after its header, and then gives the largest proximity among the rows kept |
| Benchmark.Matches | docker/benchmark/dafl/script/benchmark.py:243-244 | a target is selected iff its program is listed |
| Benchmark.MatchesAppend | docker/benchmark/dafl/script/benchmark.py:243-244 | the selection of two concatenated tables is the concatenation of their selections, so the table order is kept |
| Benchmark.MatchesOne | docker/benchmark/dafl/script/benchmark.py:243-244 | a single target is kept iff its program is listed |
| Benchmark.FuzzingWorklist | docker/benchmark/dafl/script/benchmark.py:241-251 | the worklist exits with status 1 iff some listed target's source is neither `stdin` nor `file` |
| Benchmark.FuzzingWorklistJobs | docker/benchmark/dafl/script/benchmark.py:241-251 | the worklist is every listed target once per iteration, so its length is the number of matches times the iterations |
| Benchmark.FuzzingWorklistItem | docker/benchmark/dafl/script/benchmark.py:248-250 | job j·n + i is iteration `iter-i` of the j-th listed target |
| Benchmark.FuzzTargetsWorklist | docker/benchmark/dafl/script/benchmark.py:5-106 | every target of the fuzzing table has a valid source, so its worklists never exit |
| Benchmark.ReplayWorklist | docker/benchmark/dafl/script/benchmark.py:265-266 | the replay worklist is the fuzzing worklist of the table, with targets selected by substring |
| Benchmark.ReplayCrashVariant | docker/benchmark/dafl/script/benchmark.py:265-266 | replaying `cxxfilt-2016-4489-crash` selects `cxxfilt-2016-4489`, which a list of names would not |
| Benchmark.SlicingWorklist | docker/benchmark/dafl/script/benchmark.py:254-262 | the worklist exits with status 1 iff the name is neither `all` nor a slice key; `all` gives every key in table order, and a key gives itself alone |
| Benchmark.SlicingAllPrograms | docker/benchmark/dafl/script/benchmark.py:108-144 | `all` gives the six slice keys in table order |
| Benchmark.CheckTargetedCrashAsan | docker/benchmark/dafl/script/benchmark.py:269-278 | triage succeeds iff the first target with that name has a checker for the version, and then it runs that checker; otherwise it exits with status 1 |
| Benchmark.AsanTriagesAll | docker/benchmark/dafl/script/benchmark.py:5-106 | every table target can be triaged with `asan` |
| Benchmark.AsanVariantsOnlyOne | docker/benchmark/dafl/script/benchmark.py:60-65 | a version other than `asan` triages only `swftophp-2016-9831` |
| Benchmark.AsanVariantA | docker/benchmark/dafl/script/benchmark.py:60-65 | `swftophp-2016-9831` under `asan-a` runs `check_swftophp_2016_9831_v1` |
| Benchmark.CheckTargetedCrashPatch | docker/benchmark/dafl/script/benchmark.py:281-305 | a patched replay counts iff neither trace mentions `d_find_pack`, the patched one has no `TIMEOUT`, the crash functions differ, the patched binary exists, and the traces do not both overflow the stack through a shared function |
| Benchmark.PatchNeverCounts | docker/benchmark/dafl/script/benchmark.py:283-305 | a timed-out patched run, or one crashing in the same function, never counts |
| Benchmark.PatchMarkerPersists | docker/benchmark/dafl/script/benchmark.py:283-287 | a patched trace rejected for `TIMEOUT` or `d_find_pack` stays rejected whatever follows |
| Benchmark.PatchSharedOverflow | docker/benchmark/dafl/script/benchmark.py:294-303 | two stack overflows whose traces share a function never count as a removed crash |
| Benchmark.PatchCountsWithoutOverflow | docker/benchmark/dafl/script/benchmark.py:283-304 | with none of the markers and different crash functions, a replay that is not a double stack overflow counts, whatever its stack traces hold |
| Benchmark.PatchIgnoresTarget | docker/benchmark/dafl/script/benchmark.py:281-292 | the target name never changes the verdict |

## Left out

- Threads, locks, conditions and events: the watchdog observer and the locked region of
  `Watcher.start` are one atomic step. `_wait_for_dir`, `wait_for_file` polling and
  `time.sleep` are timing only.
- File system effects: `os.symlink`, `shutil.copy2`, `rmtree`, listings, ctimes,
  `Path.resolve` and `realpath`. Their results are parameters of the model; of their
  failures, only a failing symlink or copy in the sync tick and a missing file or directory
  are modelled.
- File-system failures that are not modelled, so the model never raises them: `os.makedirs`
  in the sync engine's `init` and `sync_test_case`; `os.listdir` errors other than a missing
  directory in `next_id_in_dir`; in `extract_score`, the `os.makedirs`, the snapshot's
  `shutil.rmtree`, `mkdir` and `shutil.copy2`, and `subprocess.run` when the scorer binary is
  missing. `Sync.Env` has inputs only for the symlink and copy outcomes, and `Evaluator.World`
  has no failure input.
- MD5 is an abstract digest function over paths.
- numpy's Beta sampling: the draws are an input of `Thompson.SelectFuzzer`.
- psutil and subprocess: processes are a table from pid to status and descendants. The
  spawned pid is an input. Log files, `cwd` and `Popen` options are not modelled. A killed
  process leaves the table at once; zombies (a driver never waits on its `Popen`) and
  delayed kills are not modelled.
- Process.StopForgets: holds for the table model only. In the code the killed root stays an
  unreaped zombie, `psutil.pid_exists` still reports it, so on the same driver object a later
  `pause` does not raise and `start` reports "already started". The command-line controller
  is unaffected, because `stop` deletes every record.
- SQLite and peewee persistence: the evaluator's seed tables and the AFLGo worker records
  are plain in-memory sequences. Database files are not modelled. The schema's `thread`
  column is modelled only through the `IntegrityError` its absence causes in `start`.
- Regular expressions are modelled for ASCII: `\d` and `\w` are ASCII digits and word
  characters. `Strings.ParseInt` strips ASCII whitespace and accepts a `+` or `-` sign,
  but not the digit-group underscores `int()` allows. `Strings.IsSpace` leaves out the
  separators `\x1c`-`\x1f` and non-ASCII whitespace, which `str.strip` and `int()` treat
  as whitespace.
- Floating point: the bandit's S, F, `diff` and `score` are Python floats but are modelled
  as exact reals, so IEEE-754 rounding is not modelled. The closed forms of
  `Thompson.RepeatSuccess` and `Thompson.RepeatFailure`, and the score equality that
  groups ties in `rankFuzzer`, are exact only under that reading.
- The controller classes of `dafl.py` and `windranger.py` do not compile (mixed
  indentation, missing imports). Only their pure helpers are modelled.
- `config.py` is only a parameter table; configuration is an input.
- `cli.py`, `main.py`, `coverage.py`, the `sync.py` stub and the argparse dispatch of
  `fuzzer_driver/main.py` are glue and not part of this model. The triage helpers the
  benchmark script imports are not part of this model either; they are parameters.
- `Watcher._process_test_case` reads file bytes and is not used by the sync engine.
- `SeedId.NormalizeSeedId` has no contract of its own; its contract is the one of
  `SeedId.LeadingId` on the basename.
- Benchmark.Checker states that the checker it finds is one listed for the version, not
  that it is the first listed; every table entry lists each version at most once.
- Logging and `EXP_ENV` are not modelled.
- Sync.CopyInto: the copy name is computed with the corrected copy-name parser
  (`Naming.NextIdInDir`), not with the six-digit `_id_re` the code uses; its freshness
  ensures holds for that correction only (see "## Findings").
- Sync.SyncTestCase: inherits the corrected copy name from `Sync.CopyInto`; the code as
  written can overwrite an earlier copy once an id reaches seven digits.
- Drivers.StartController: models the corrected `start`, whose insert supplies `thread`;
  the code as written raises `IntegrityError` after the spawn (`Drivers.StartControllerAsWritten`).
- Drivers.DriveStartIdempotent: holds for the corrected `start` only; as written, a second
  `start` finds no record and spawns again (`Drivers.DriveStartAsWrittenSpawnsAgain`).
- Drivers.DriveStartThenPause: holds for the corrected `start` only; as written, `pause`
  finds no driver and suspends nothing (`Drivers.DriveStartAsWrittenSpawnsAgain`).

## Findings

| source | as written | input that shows it | evidently intended | confidence | as-written member | corrected member |
|---|---|---|---|---|---|---|
| dcfuzz/sync_seedcopyafter.py:40-54 | `_id_re` captures exactly six digits after `id:`, so `id:1000000` reads as id 100000 | a real queue holding `id:999999` and `aflgo_id:1000000` is offered `aflgo_id:1000000` again, and the next copy overwrites the previous one | read the whole digit run, so that the proposed id exceeds every id present and the copy name is fresh | not executed | Naming.NextIdInDirAsWrittenReuses | Naming.NextIdInDirFresh |
| dcfuzz/fuzzer_driver/aflgo.py:184-187 | `AFLGoModel.create` leaves out the `thread` column, which `dcfuzz/fuzzer_driver/db.py:16` declares not null, so the insert raises `IntegrityError` after `aflgo.start()` has spawned the worker | `start` on an empty database: the worker runs, nothing is recorded, a second `start` spawns another worker and `pause` suspends neither | supply `thread` (the job count the command line receives), so that the worker is recorded and later commands find it | not executed | Drivers.DriveStartAsWrittenSpawnsAgain | Drivers.DriveStartIdempotent |
