/**
 * The seed evaluator: the scoring run's argument vector, AFL seed ids, the score file, the
 * incremental snapshot of a queue, and the per-tool table of seed scores that `extract_score`
 * maintains. The scoring run itself and the wait for its file are inputs: the score file's
 * lines, or `None` when no file appeared.
 */
module Evaluator {
  import opened Wrappers
  import opened Strings
  import opened Keyed
  import opened Watcher
  import opened SeedId

  // ----- the scoring run -----

  /** The scorer's command, the DAFL target root, and each program's default arguments. */
  datatype ScoreConfig = ScoreConfig(command: string, targetRoot: string, targets: map<string, string>)

  /** The fixed part of the scoring run's vector. */
  function ScoreCore(command: string, seed: string, output: string, target: string): seq<string> {
    [command, "-i", seed, "-o", output, "-m", "none", "-t", "10000+", "-d", "--", target]
  }

  /**
   * `gen_run_args`: the fixed vector on the program under the DAFL target root, then the
   * program's default arguments split on spaces, only when they are not empty; a program
   * without a target entry raises `KeyError`.
   */
  function GenRunArgs(cfg: ScoreConfig, seed: string, output: string, program: string): (r: Result<seq<string>>)
    ensures r.Err? <==> program !in cfg.targets
    ensures r.Err? ==> r.error == KeyError
  {
    if program !in cfg.targets then Err(KeyError)
    else
      var targetArgs := cfg.targets[program];
      Ok(ScoreCore(cfg.command, seed, output, PathJoin(cfg.targetRoot, program))
         + (if targetArgs != "" then SplitOn(targetArgs, ' ') else []))
  }

  /**
   * The vector is the twelve fixed words followed by words that join back to the program's
   * default arguments; it has no extra word exactly when those are empty.
   */
  lemma GenRunArgsLayout(cfg: ScoreConfig, seed: string, output: string, program: string)
    requires program in cfg.targets
    ensures var args := GenRunArgs(cfg, seed, output, program).value;
      && |args| >= 12
      && args[..12] == ScoreCore(cfg.command, seed, output, PathJoin(cfg.targetRoot, program))
      && Join(args[12..], ' ') == cfg.targets[program]
      && (|args| == 12 <==> cfg.targets[program] == "")
  {
    var args := GenRunArgs(cfg, seed, output, program).value;
    var core := ScoreCore(cfg.command, seed, output, PathJoin(cfg.targetRoot, program));
    var targetArgs := cfg.targets[program];
    if targetArgs != "" {
      assert args[12..] == SplitOn(targetArgs, ' ');
      JoinSplitOn(targetArgs, ' ');
      assert |SplitOn(targetArgs, ' ')| >= 1;
    } else {
      assert args == core;
    }
  }

  // ----- the score file -----

  /**
   * One line of the score file: the third-from-last and the last comma-separated fields as
   * integers, under the line's seed id.
   */
  function ScoreLine(line: string): (r: Result<(string, (int, int))>)
    ensures r.Err? ==> r.error == IndexError || r.error == ValueError
  {
    var parts := SplitOn(line, ',');
    if |parts| < 3 then Err(IndexError)
    else
      match (ParseInt(parts[|parts| - 3]), ParseInt(parts[|parts| - 1]))
      case (Some(prox), Some(bitmap)) =>
        var id :- ExtractSeedId(line);
        Ok((id, (prox, bitmap)))
      case _ => Err(ValueError)
  }

  /** The lines after the header, each parsed on its own. */
  function ScoreRows(lines: seq<string>): (rows: seq<Result<(string, (int, int))>>)
    ensures |rows| == if |lines| == 0 then 0 else |lines| - 1
  {
    if |lines| == 0 then [] else ParseEach(lines[1..], ScoreLine)
  }

  /** The header takes no row: row `i` is line `i + 1` parsed. */
  lemma ScoreRowsParse(lines: seq<string>)
    ensures forall i :: 0 <= i < |ScoreRows(lines)| ==> ScoreRows(lines)[i] == ScoreLine(lines[i + 1])
  {
    if |lines| > 0 {
      ParseEachAt(lines[1..], ScoreLine);
    }
  }

  /** `parse_score_file` over the stripped file's lines: the header is skipped and a later line for an id overwrites an earlier one. */
  function ParseScoreFile(lines: seq<string>): (r: Result<map<string, (int, int)>>)
  {
    Collect(ScoreRows(lines))
  }

  /**
   * The parse fails iff some line after the header fails, and then with the error of the first
   * such line.
   */
  lemma ParseScoreFileFails(lines: seq<string>)
    ensures var r := ParseScoreFile(lines);
      var rows := ScoreRows(lines);
      && (r.Err? <==> exists i :: 0 <= i < |rows| && rows[i].Err?)
      && (r.Err? ==> exists i :: FirstFailure(rows, i) && r.error == rows[i].error)
  {
    CollectFails(ScoreRows(lines));
  }

  /**
   * A successful parse holds exactly the ids of the lines after the header, each with the
   * scores of the last line naming it.
   */
  lemma ParseScoreFileContents(lines: seq<string>)
    requires ParseScoreFile(lines).Ok?
    ensures var m := ParseScoreFile(lines).value;
      var rows := ScoreRows(lines);
      && (forall x :: x in m <==> exists i :: LastSetter(rows, i, x))
      && (forall i, x :: LastSetter(rows, i, x) ==> x in m && m[x] == rows[i].value.1)
  {
    CollectSpecOf(ScoreRows(lines), ParseScoreFile(lines).value);
  }

  /** The header line takes no part in the parse. */
  lemma ParseScoreFileHeader(lines: seq<string>, h: string)
    requires |lines| > 0
    ensures ParseScoreFile([h] + lines[1..]) == ParseScoreFile(lines)
  {
    assert ([h] + lines[1..])[1..] == lines[1..];
  }

  // ----- the seed tables -----

  /** A row of a seed table: `name` is unique. */
  datatype SeedRow = SeedRow(name: string, prox: int, bitmap: int)

  /** The three tools' seed tables. */
  datatype SeedTable = AFLGoSeeds | WindRangerSeeds | DAFLSeeds

  /** `get_seed_model`: the table of a tool name, case-insensitively; an unknown tool raises `ValueError`. */
  function SeedModel(fuzzer: string): (r: Result<SeedTable>)
    ensures r.Err? <==> Lower(fuzzer) !in {"aflgo", "windranger", "dafl"}
    ensures r.Err? ==> r.error == ValueError
  {
    var f := Lower(fuzzer);
    if f == "aflgo" then Ok(AFLGoSeeds)
    else if f == "windranger" then Ok(WindRangerSeeds)
    else if f == "dafl" then Ok(DAFLSeeds)
    else Err(ValueError)
  }

  ghost predicate UniqueNames(db: seq<SeedRow>) {
    forall i, j :: 0 <= i < j < |db| ==> db[i].name != db[j].name
  }

  function Names(db: seq<SeedRow>): set<string> {
    set i | 0 <= i < |db| :: db[i].name
  }

  /** The row holding `name`, if any. */
  function Find(db: seq<SeedRow>, name: string): (r: Option<nat>)
    ensures r.Some? ==> r.value < |db| && db[r.value].name == name
    ensures r.None? <==> name !in Names(db)
    decreases |db|
  {
    if |db| == 0 then None
    else if db[0].name == name then Some(0)
    else
      match Find(db[1..], name)
      case None =>
        assert Names(db) == {db[0].name} + Names(db[1..]) by {
          assert forall i :: 1 <= i < |db| ==> db[i] == db[1..][i - 1];
        }
        None
      case Some(i) => Some(i + 1)
  }

  /** `get_or_create(name=...)` followed by setting both scores and `save()`. */
  function Upsert(db: seq<SeedRow>, name: string, prox: int, bitmap: int): (r: seq<SeedRow>)
    requires UniqueNames(db)
    ensures UniqueNames(r)
    ensures Names(r) == Names(db) + {name}
    ensures |db| <= |r| && forall i :: 0 <= i < |db| && db[i].name != name ==> r[i] == db[i]
    ensures Find(r, name).Some? && r[Find(r, name).value] == SeedRow(name, prox, bitmap)
  {
    match Find(db, name)
    case Some(i) =>
      var r := db[i := SeedRow(name, prox, bitmap)];
      assert forall j :: 0 <= j < |db| ==> r[j].name == db[j].name;
      assert Names(r) == Names(db);
      UniqueFind(r, name, i);
      r
    case None =>
      var r := db + [SeedRow(name, prox, bitmap)];
      assert forall j :: 0 <= j < |db| ==> r[j] == db[j];
      assert r[|db|].name == name;
      assert forall j :: 0 <= j < |db| ==> db[j].name in Names(db);
      assert Names(r) == Names(db) + {name};
      UniqueFind(r, name, |db|);
      r
  }

  lemma UniqueFind(db: seq<SeedRow>, name: string, i: nat)
    requires UniqueNames(db) && i < |db| && db[i].name == name
    ensures Find(db, name) == Some(i)
  {
    var f := Find(db, name);
    assert f.Some?;
  }

  /** The scores a staged id gets: its scores from the file, or `(-1, -1)`. */
  function ScoreOr(scores: map<string, (int, int)>, name: string): (int, int) {
    if name in scores then scores[name] else (-1, -1)
  }

  /**
   * The loop of `extract_score` over the staged ids, inside one transaction: the table gains
   * exactly the staged names and never shrinks.
   */
  function Store(db: seq<SeedRow>, staged: seq<string>, scores: map<string, (int, int)>): (r: seq<SeedRow>)
    requires UniqueNames(db)
    ensures UniqueNames(r)
    ensures |db| <= |r|
    ensures Names(r) == Names(db) + set x | x in staged
    decreases |staged|
  {
    if |staged| == 0 then db
    else
      var x := staged[0];
      var r := Store(Upsert(db, x, ScoreOr(scores, x).0, ScoreOr(scores, x).1), staged[1..], scores);
      assert forall y :: y in staged <==> y == x || y in staged[1..];
      r
  }

  /** A row whose name is not staged survives the loop in place. */
  lemma {:induction false} StoreKeeps(db: seq<SeedRow>, staged: seq<string>, scores: map<string, (int, int)>, i: nat)
    requires UniqueNames(db) && i < |db| && db[i].name !in staged
    ensures Store(db, staged, scores)[i] == db[i]
    decreases |staged|
  {
    if |staged| > 0 {
      var x := staged[0];
      StoreKeeps(Upsert(db, x, ScoreOr(scores, x).0, ScoreOr(scores, x).1), staged[1..], scores, i);
    }
  }

  /** After the loop every staged id has a row carrying its scores from the file, or `(-1, -1)`. */
  lemma {:induction false} StoreSets(db: seq<SeedRow>, staged: seq<string>, scores: map<string, (int, int)>, x: string)
    requires UniqueNames(db) && x in staged
    ensures var r := Store(db, staged, scores);
      Find(r, x).Some? && r[Find(r, x).value] == SeedRow(x, ScoreOr(scores, x).0, ScoreOr(scores, x).1)
    decreases |staged|
  {
    var y := staged[0];
    var db1 := Upsert(db, y, ScoreOr(scores, y).0, ScoreOr(scores, y).1);
    var r := Store(db1, staged[1..], scores);
    if x in staged[1..] {
      StoreSets(db1, staged[1..], scores, x);
    } else {
      var j := Find(db1, x).value;
      StoreKeeps(db1, staged[1..], scores, j);
      UniqueFind(r, x, j);
    }
  }

  /** `max_prox_from_db`: `COALESCE(MAX(prox_score), -1)`. */
  function MaxProx(db: seq<SeedRow>): (m: int)
    ensures |db| == 0 ==> m == -1
    ensures |db| > 0 ==> (exists i :: 0 <= i < |db| && db[i].prox == m) && forall i :: 0 <= i < |db| ==> db[i].prox <= m
    decreases |db|
  {
    if |db| == 0 then -1
    else if |db| == 1 then db[0].prox
    else
      var m := MaxProx(db[1..]);
      assert forall i :: 1 <= i < |db| ==> db[i] == db[1..][i - 1];
      if db[0].prox >= m then db[0].prox else m
  }

  // ----- the incremental snapshot -----

  /** A queue entry the snapshot considers: a regular file, not hidden, not `README.txt`. */
  predicate Eligible(e: Entry) {
    e.isFile && !StartsWith(e.name, ".") && e.name != "README.txt"
  }

  /**
   * `snapshot_dir_incremental` over the queue listing, with `idOf` the id normalisation: the
   * ids of the eligible entries not yet stored, in listing order (each such file is copied); the
   * first eligible entry whose name has no id raises.
   */
  function Snapshot(entries: seq<Entry>, stored: set<string>, idOf: string -> Result<string>): (r: Result<seq<string>>)
    decreases |entries|
  {
    if |entries| == 0 then Ok([])
    else
      var e := entries[0];
      if !Eligible(e) then Snapshot(entries[1..], stored, idOf)
      else
        var id :- idOf(e.name);
        var rest :- Snapshot(entries[1..], stored, idOf);
        Ok(if id in stored then rest else [id] + rest)
  }

  /** The snapshot fails iff some eligible entry's name has no id, and then with the first such entry's error. */
  lemma {:induction false} SnapshotFails(entries: seq<Entry>, stored: set<string>, idOf: string -> Result<string>)
    ensures Snapshot(entries, stored, idOf).Err? <==>
      exists i :: 0 <= i < |entries| && Eligible(entries[i]) && idOf(entries[i].name).Err?
    ensures Snapshot(entries, stored, idOf).Err? ==> exists i ::
      && 0 <= i < |entries| && Eligible(entries[i]) && idOf(entries[i].name) == Err(Snapshot(entries, stored, idOf).error)
      && forall j :: 0 <= j < i && Eligible(entries[j]) ==> idOf(entries[j].name).Ok?
    decreases |entries|
  {
    if |entries| > 0 {
      SnapshotFails(entries[1..], stored, idOf);
      assert forall i :: 1 <= i < |entries| ==> entries[i] == entries[1..][i - 1];
      var e := entries[0];
      if Eligible(e) && idOf(e.name).Err? {
        assert Snapshot(entries, stored, idOf).error == idOf(e.name).error;
      } else if Snapshot(entries, stored, idOf).Err? {
        var i :| && 0 <= i < |entries| - 1 && Eligible(entries[1..][i])
                 && idOf(entries[1..][i].name) == Err(Snapshot(entries[1..], stored, idOf).error)
                 && forall j :: 0 <= j < i && Eligible(entries[1..][j]) ==> idOf(entries[1..][j].name).Ok?;
        assert Eligible(entries[i + 1]) && idOf(entries[i + 1].name) == Err(Snapshot(entries, stored, idOf).error);
      }
    }
  }

  /** A successful snapshot stages exactly the ids of the eligible entries that are not stored yet. */
  lemma {:induction false} SnapshotStages(entries: seq<Entry>, stored: set<string>, idOf: string -> Result<string>, x: string)
    requires Snapshot(entries, stored, idOf).Ok?
    ensures x in Snapshot(entries, stored, idOf).value <==>
      x !in stored && exists i :: 0 <= i < |entries| && Eligible(entries[i]) && idOf(entries[i].name) == Ok(x)
    decreases |entries|
  {
    if |entries| > 0 {
      SnapshotStages(entries[1..], stored, idOf, x);
      assert forall i :: 1 <= i < |entries| ==> entries[i] == entries[1..][i - 1];
    }
  }

  // ----- leftover artifacts -----

  /** `p` is `dir` or lies below it. */
  predicate Under(p: string, dir: string) {
    p == dir || StartsWith(p, dir + "/")
  }

  /** The paths one evaluation may leave behind: the score file, the snapshot and the scorer's work directory. */
  datatype Artifacts = Artifacts(scoreFile: string, snapshot: string, workdir: string)

  predicate IsArtifact(a: Artifacts, p: string) {
    p == a.scoreFile || Under(p, a.snapshot) || Under(p, a.workdir)
  }

  /**
   * `cleanup_score_artifacts` on the set of existing paths: the score file and both trees go,
   * every other path stays. Errors while removing are ignored, as `cleanup_score_artifacts`
   * does (`rmtree(…, ignore_errors=True)`).
   */
  function CleanupArtifacts(fs: set<string>, a: Artifacts): (r: set<string>)
    ensures r <= fs
    ensures forall p :: p in fs ==> (p in r <==> !IsArtifact(a, p))
  {
    set p | p in fs && !IsArtifact(a, p)
  }

  /** Cleaning up twice is cleaning up once. */
  lemma CleanupIdempotent(fs: set<string>, a: Artifacts)
    ensures CleanupArtifacts(CleanupArtifacts(fs, a), a) == CleanupArtifacts(fs, a)
  {
  }

  // ----- extract_score -----

  /** The three seed tables of a tool's database file. */
  datatype Tables = Tables(aflgo: seq<SeedRow>, windranger: seq<SeedRow>, dafl: seq<SeedRow>)

  function Rows(db: Tables, t: SeedTable): seq<SeedRow> {
    match t
    case AFLGoSeeds => db.aflgo
    case WindRangerSeeds => db.windranger
    case DAFLSeeds => db.dafl
  }

  function WithRows(db: Tables, t: SeedTable, rows: seq<SeedRow>): Tables {
    match t
    case AFLGoSeeds => db.(aflgo := rows)
    case WindRangerSeeds => db.(windranger := rows)
    case DAFLSeeds => db.(dafl := rows)
  }

  ghost predicate ValidTables(db: Tables) {
    UniqueNames(db.aflgo) && UniqueNames(db.windranger) && UniqueNames(db.dafl)
  }

  /** Where the scorer writes its score file. */
  const ScorePath := "/home/dcfuzz/initial_seed_scores.txt"

  /** The artifacts of one evaluation of `program`'s queue for `fuzzer` under `output`. */
  function ArtifactsOf(fuzzer: string, program: string, output: string): Artifacts {
    Artifacts(ScorePath, PathJoin(output, "input_snapshot"), PathJoin(output, "_score_run_" + fuzzer + "_" + program))
  }

  /**
   * What the world does during one evaluation: the queue's listing, the score file's lines
   * (`None` when it never appears), and the paths the copies and the scorer create.
   */
  datatype World = World(queue: seq<Entry>, scoreFile: Option<seq<string>>, produced: set<string>)

  /** The outcome of `extract_score`: the answer, the tables, the paths left, and the scorer's vector when it ran. */
  datatype Scored = Scored(best: int, db: Tables, fs: set<string>, run: Option<seq<string>>)

  /**
   * `extract_score`: clean up, stage the new seeds of the queue; with none, answer the stored
   * maximum; otherwise run the scorer, and without a score file answer the stored maximum;
   * otherwise store every staged id's scores, clean up and answer the new maximum. An
   * exception leaves the tables as they were.
   */
  function ExtractScore(cfg: ScoreConfig, fuzzer: string, program: string, output: string,
                        db: Tables, fs: set<string>, w: World): (r: Result<Scored>)
    requires ValidTables(db)
    ensures r.Ok? ==> ValidTables(r.value.db)
  {
    var a := ArtifactsOf(fuzzer, program, output);
    var fs0 := CleanupArtifacts(fs, a) + {a.workdir};
    var t :- SeedModel(fuzzer);
    var rows := Rows(db, t);
    var staged :- Snapshot(w.queue, Names(rows), NormalizeSeedId);
    var fs1 := fs0 + {a.snapshot} + w.produced;
    if |staged| == 0 then Ok(Scored(MaxProx(rows), db, CleanupArtifacts(fs1, a), None))
    else
      var args :- GenRunArgs(cfg, a.snapshot, a.workdir, program);
      match w.scoreFile
      case None => Ok(Scored(MaxProx(rows), db, CleanupArtifacts(fs1, a), Some(args)))
      case Some(lines) =>
        var scores :- ParseScoreFile(lines);
        var rows' := Store(rows, staged, scores);
        Ok(Scored(MaxProx(rows'), WithRows(db, t, rows'), CleanupArtifacts(fs1 + {a.scoreFile}, a), Some(args)))
  }

  /**
   * Without new seeds, or without a score file, nothing is stored and the answer is the cached
   * maximum (-1 for an empty table); the scorer runs only when there are new seeds.
   */
  lemma ExtractScoreCached(cfg: ScoreConfig, fuzzer: string, program: string, output: string,
                           db: Tables, fs: set<string>, w: World, t: SeedTable, staged: seq<string>)
    requires ValidTables(db) && SeedModel(fuzzer) == Ok(t)
    requires Snapshot(w.queue, Names(Rows(db, t)), NormalizeSeedId) == Ok(staged)
    requires staged == [] || (program in cfg.targets && w.scoreFile.None?)
    ensures var r := ExtractScore(cfg, fuzzer, program, output, db, fs, w);
      && r.Ok? && r.value.best == MaxProx(Rows(db, t)) && r.value.db == db
      && (Rows(db, t) == [] ==> r.value.best == -1)
      && (r.value.run.Some? <==> staged != [])
  {
  }

  /** With new seeds, a program without a target entry raises `KeyError` before the scorer runs. */
  lemma ExtractScoreUnknownProgram(cfg: ScoreConfig, fuzzer: string, program: string, output: string,
                                   db: Tables, fs: set<string>, w: World, t: SeedTable, staged: seq<string>)
    requires ValidTables(db) && SeedModel(fuzzer) == Ok(t)
    requires Snapshot(w.queue, Names(Rows(db, t)), NormalizeSeedId) == Ok(staged) && staged != []
    requires program !in cfg.targets
    ensures ExtractScore(cfg, fuzzer, program, output, db, fs, w) == Err(KeyError)
  {
  }

  /** With new seeds and a well-formed score file, the table gains the loop's rows. */
  lemma ExtractScoreResult(cfg: ScoreConfig, fuzzer: string, program: string, output: string,
                           db: Tables, fs: set<string>, w: World, t: SeedTable, staged: seq<string>,
                           lines: seq<string>, scores: map<string, (int, int)>)
    requires ValidTables(db) && SeedModel(fuzzer) == Ok(t)
    requires Snapshot(w.queue, Names(Rows(db, t)), NormalizeSeedId) == Ok(staged) && staged != []
    requires program in cfg.targets && w.scoreFile == Some(lines) && ParseScoreFile(lines) == Ok(scores)
    ensures var rows' := Store(Rows(db, t), staged, scores);
      var r := ExtractScore(cfg, fuzzer, program, output, db, fs, w);
      r.Ok? && r.value.best == MaxProx(rows') && r.value.db == WithRows(db, t, rows')
  {
  }

  /**
   * Storing ids none of which is in the table yet: every old row stays in place, every staged
   * id gets its row, and the new maximum bounds every row and is one of them.
   */
  lemma StoreNew(rows: seq<SeedRow>, staged: seq<string>, scores: map<string, (int, int)>)
    requires UniqueNames(rows) && staged != []
    requires forall x :: x in staged ==> x !in Names(rows)
    ensures var r := Store(rows, staged, scores);
      && (forall i :: 0 <= i < |rows| ==> r[i] == rows[i])
      && (forall x :: x in staged ==>
            (Find(r, x).Some? && r[Find(r, x).value] == SeedRow(x, ScoreOr(scores, x).0, ScoreOr(scores, x).1)))
      && (forall i :: 0 <= i < |r| ==> r[i].prox <= MaxProx(r))
      && (exists i :: 0 <= i < |r| && r[i].prox == MaxProx(r))
  {
    var r := Store(rows, staged, scores);
    forall i | 0 <= i < |rows| ensures r[i] == rows[i] {
      assert rows[i].name in Names(rows);
      StoreKeeps(rows, staged, scores, i);
    }
    forall x | x in staged ensures Find(r, x).Some? && r[Find(r, x).value] == SeedRow(x, ScoreOr(scores, x).0, ScoreOr(scores, x).1) {
      StoreSets(rows, staged, scores, x);
    }
    assert staged[0] in Names(r);
  }

  /** A successful snapshot stages only ids that are not stored. */
  lemma SnapshotFresh(entries: seq<Entry>, stored: set<string>, idOf: string -> Result<string>)
    requires Snapshot(entries, stored, idOf).Ok?
    ensures forall x :: x in Snapshot(entries, stored, idOf).value ==> x !in stored
  {
    forall x | x in Snapshot(entries, stored, idOf).value ensures x !in stored {
      SnapshotStages(entries, stored, idOf, x);
    }
  }

  /**
   * With new seeds and a well-formed score file: every row already stored stays in place, every
   * new seed's row carries its scores from the file, or `(-1, -1)` when the file lacks it; the
   * other tools' tables are untouched; and the answer bounds every stored score and is one of
   * them. `t`, `staged` and `scores` name the tool's table, the staged ids and the parsed file.
   */
  lemma ExtractScoreStores(cfg: ScoreConfig, fuzzer: string, program: string, output: string,
                           db: Tables, fs: set<string>, w: World, t: SeedTable, staged: seq<string>,
                           lines: seq<string>, scores: map<string, (int, int)>)
    requires ValidTables(db) && SeedModel(fuzzer) == Ok(t)
    requires Snapshot(w.queue, Names(Rows(db, t)), NormalizeSeedId) == Ok(staged) && staged != []
    requires program in cfg.targets && w.scoreFile == Some(lines) && ParseScoreFile(lines) == Ok(scores)
    ensures var r := ExtractScore(cfg, fuzzer, program, output, db, fs, w);
      var rows := Rows(db, t);
      && r.Ok?
      && (forall t' :: t' != t ==> Rows(r.value.db, t') == Rows(db, t'))
      && |rows| <= |Rows(r.value.db, t)|
      && (forall i :: 0 <= i < |rows| ==> Rows(r.value.db, t)[i] == rows[i])
      && (forall x :: x in staged ==>
            (Find(Rows(r.value.db, t), x).Some? &&
             Rows(r.value.db, t)[Find(Rows(r.value.db, t), x).value] == SeedRow(x, ScoreOr(scores, x).0, ScoreOr(scores, x).1)))
      && (forall i :: 0 <= i < |Rows(r.value.db, t)| ==> Rows(r.value.db, t)[i].prox <= r.value.best)
      && (exists i :: 0 <= i < |Rows(r.value.db, t)| && Rows(r.value.db, t)[i].prox == r.value.best)
  {
    ExtractScoreResult(cfg, fuzzer, program, output, db, fs, w, t, staged, lines, scores);
    SnapshotFresh(w.queue, Names(Rows(db, t)), NormalizeSeedId);
    StoreNew(Rows(db, t), staged, scores);
    WithRowsRows(db, t, Store(Rows(db, t), staged, scores));
  }

  /** Replacing one table's rows leaves the other tables alone. */
  lemma WithRowsRows(db: Tables, t: SeedTable, rows: seq<SeedRow>)
    ensures Rows(WithRows(db, t, rows), t) == rows
    ensures forall t' :: t' != t ==> Rows(WithRows(db, t, rows), t') == Rows(db, t')
  {
  }

  /**
   * Whenever `extract_score` returns, it leaves the paths as its first cleanup left them:
   * nothing of the snapshot, the work directory or the score file remains, and every other path
   * is as before — provided the copies and the scorer write only below the snapshot and the
   * work directory.
   */
  lemma ExtractScoreLeavesNoArtifacts(cfg: ScoreConfig, fuzzer: string, program: string, output: string,
                                      db: Tables, fs: set<string>, w: World)
    requires ValidTables(db)
    requires var a := ArtifactsOf(fuzzer, program, output);
      forall p :: p in w.produced ==> Under(p, a.snapshot) || Under(p, a.workdir)
    ensures var r := ExtractScore(cfg, fuzzer, program, output, db, fs, w);
      var a := ArtifactsOf(fuzzer, program, output);
      r.Ok? ==> r.value.fs == CleanupArtifacts(fs, a) && forall p :: p in r.value.fs ==> !IsArtifact(a, p)
  {
    var a := ArtifactsOf(fuzzer, program, output);
    var r := ExtractScore(cfg, fuzzer, program, output, db, fs, w);
    if r.Ok? {
      var fs1 := CleanupArtifacts(fs, a) + {a.workdir} + {a.snapshot} + w.produced;
      assert r.value.fs == CleanupArtifacts(fs1, a) || r.value.fs == CleanupArtifacts(fs1 + {a.scoreFile}, a);
      assert Under(a.workdir, a.workdir) && Under(a.snapshot, a.snapshot);
    }
  }
}
