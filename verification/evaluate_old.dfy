/**
 * The earlier evaluator: it copies the whole queue, scores it, and answers the best
 * proximity score of the file without keeping anything; its score file is keyed by the
 * numeric seed id in the first column.
 */
module EvaluateOld {
  import opened Wrappers
  import opened Strings
  import opened Keyed
  import opened Watcher
  import Evaluator

  // ----- the score file -----

  /** One line's record: the file-name fields between the id and the three scores, and two of the scores. */
  datatype OldScore = OldScore(filename: seq<string>, prox: int, bitmap: int)

  /** `parts[1:-3]`, empty when there are fewer than four parts. */
  function FilenameParts(parts: seq<string>): (r: seq<string>)
    ensures |parts| >= 4 ==> r == parts[1..|parts| - 3]
    ensures |parts| < 4 ==> r == []
  {
    if |parts| >= 4 then parts[1..|parts| - 3] else []
  }

  /** One line of the old score file, split at every comma. */
  function OldScoreLine(line: string): Result<(int, OldScore)> {
    OldScoreFields(SplitOn(line, ','))
  }

  /**
   * The fields of one line of the old score file: the first as the key, then the third-from-last,
   * the second-from-last (execution time, checked and dropped) and the last, each an integer.
   */
  function OldScoreFields(parts: seq<string>): (r: Result<(int, OldScore)>)
    requires |parts| >= 1
    ensures r.Err? <==> (ParseInt(parts[0]).None? || |parts| < 3 ||
                         ParseInt(parts[|parts| - 3]).None? || ParseInt(parts[|parts| - 2]).None? || ParseInt(parts[|parts| - 1]).None?)
    ensures r.Err? ==> r.error == (if ParseInt(parts[0]).Some? && |parts| < 3 then IndexError else ValueError)
    ensures r.Ok? ==>
      && r.value.0 == ParseInt(parts[0]).value
      && r.value.1 == OldScore(FilenameParts(parts), ParseInt(parts[|parts| - 3]).value, ParseInt(parts[|parts| - 1]).value)
  {
    match ParseInt(parts[0])
    case None => Err(ValueError)
    case Some(id) =>
      if |parts| < 3 then Err(IndexError)
      else
        match (ParseInt(parts[|parts| - 3]), ParseInt(parts[|parts| - 2]), ParseInt(parts[|parts| - 1]))
        case (Some(prox), Some(_), Some(bitmap)) => Ok((id, OldScore(FilenameParts(parts), prox, bitmap)))
        case _ => Err(ValueError)
  }

  /** The lines after the header, each parsed on its own. */
  function OldScoreRows(lines: seq<string>): (rows: seq<Result<(int, OldScore)>>)
    ensures |rows| == if |lines| == 0 then 0 else |lines| - 1
  {
    if |lines| == 0 then [] else ParseEach(lines[1..], OldScoreLine)
  }

  /** The header takes no row: row `i` is line `i + 1` parsed. */
  lemma OldScoreRowsParse(lines: seq<string>)
    ensures forall i :: 0 <= i < |OldScoreRows(lines)| ==> OldScoreRows(lines)[i] == OldScoreLine(lines[i + 1])
  {
    if |lines| > 0 {
      ParseEachAt(lines[1..], OldScoreLine);
    }
  }

  /** `parse_score_file` of the old evaluator over the stripped file's lines. */
  function ParseScoreFileOld(lines: seq<string>): Result<map<int, OldScore>> {
    Collect(OldScoreRows(lines))
  }

  /** The old parse fails iff some line after the header fails, and then with the first such line's error. */
  lemma ParseScoreFileOldFails(lines: seq<string>)
    ensures var r := ParseScoreFileOld(lines);
      var rows := OldScoreRows(lines);
      && (r.Err? <==> exists i :: 0 <= i < |rows| && rows[i].Err?)
      && (r.Err? ==> exists i :: FirstFailure(rows, i) && r.error == rows[i].error)
  {
    CollectFails(OldScoreRows(lines));
  }

  /**
   * A successful old parse holds exactly the seed numbers of the lines after the header, each
   * with the record of the last line carrying it; a file with a line after its header gives a
   * non-empty dictionary.
   */
  lemma ParseScoreFileOldContents(lines: seq<string>)
    requires ParseScoreFileOld(lines).Ok?
    ensures var m := ParseScoreFileOld(lines).value;
      var rows := OldScoreRows(lines);
      && (forall k :: k in m <==> exists i :: LastSetter(rows, i, k))
      && (forall i, k :: LastSetter(rows, i, k) ==> k in m && m[k] == rows[i].value.1)
  {
    CollectSpecOf(OldScoreRows(lines), ParseScoreFileOld(lines).value);
  }

  // ----- the best score -----

  /** The largest element of a non-empty finite set. */
  function SetMax(s: set<int>): (m: int)
    requires |s| > 0
    ensures m in s && forall x :: x in s ==> x <= m
  {
    SetMaxExists(s);
    var m :| m in s && forall x :: x in s ==> x <= m;
    m
  }

  /** Every non-empty finite set of integers has a largest element. */
  lemma {:induction false} SetMaxExists(s: set<int>)
    requires |s| > 0
    ensures exists m :: m in s && forall x :: x in s ==> x <= m
    decreases |s|
  {
    SomeMember(s);
    var y :| y in s;
    var rest := s - {y};
    if |rest| > 0 {
      SetMaxExists(rest);
      assert forall x :: x in s ==> x == y || x in rest;
      var m :| m in rest && forall x :: x in rest ==> x <= m;
      if y <= m {
        assert forall x :: x in s ==> x <= m;
      } else {
        assert forall x :: x in s ==> x <= y;
      }
    }
  }

  lemma SomeMember(s: set<int>)
    requires |s| > 0
    ensures exists x :: x in s
  {
    if forall x :: x !in s { assert false; }
  }

  lemma SomeKey<V>(m: map<int, V>)
    requires |m| > 0
    ensures exists k :: k in m
  {
    if forall k :: k !in m { assert false; }
  }

  /** `max(item["Prox_Score"] for item in results.values())`: `ValueError` for an empty dictionary. */
  function MaxScore(m: map<int, OldScore>): (r: Result<int>)
    ensures r.Err? <==> |m| == 0
    ensures r.Err? ==> r.error == ValueError
    ensures r.Ok? ==> (exists k :: k in m && m[k].prox == r.value) && forall k :: k in m ==> m[k].prox <= r.value
  {
    if |m| == 0 then Err(ValueError)
    else
      SomeKey(m);
      var k0 :| k0 in m;
      var vals := set k | k in m :: m[k].prox;
      assert m[k0].prox in vals;
      var best := SetMax(vals);
      assert forall k :: k in m ==> m[k].prox in vals;
      assert exists k :: k in m && m[k].prox == best;
      Ok(best)
  }

  // ----- the score directory -----

  /** What `os.path.isfile`, `os.path.islink` and `os.path.isdir` say of a directory entry. */
  datatype Kind = RegularFile | Symlink | Directory | Special

  /** A directory's entries by name. */
  type Listing = map<string, Kind>

  /** Removes one entry: a file or a link is removed, a directory is removed with its contents, anything else stays. */
  function RemoveItem(d: Listing, name: string): (r: Listing)
  {
    if name in d && d[name] != Special then d - {name} else d
  }

  /** The loop of `cleanup` over the directory listing. */
  function RemoveItems(d: Listing, items: seq<string>): (r: Listing)
    decreases |items|
  {
    if |items| == 0 then d else RemoveItems(RemoveItem(d, items[0]), items[1..])
  }

  /** After the loop over some names, the entries left are those not listed and the listed ones of no removable kind. */
  lemma {:induction false} RemoveItemsSpec(d: Listing, items: seq<string>)
    ensures var r := RemoveItems(d, items);
      && r.Keys <= d.Keys
      && (forall n :: n in r ==> r[n] == d[n])
      && (forall n :: n in d ==> (n in r <==> n !in items || d[n] == Special))
    decreases |items|
  {
    if |items| > 0 {
      RemoveItemsSpec(RemoveItem(d, items[0]), items[1..]);
      assert forall n :: n in items <==> n == items[0] || n in items[1..];
    }
  }

  /**
   * `cleanup`: the score file goes; a missing score directory stays missing; otherwise every
   * entry `os.listdir` reports is removed unless it is of no removable kind. `listed` is that
   * listing, in its order.
   */
  function Cleanup(scoreFile: bool, dir: Option<Listing>, listed: seq<string>): (r: (bool, Option<Listing>))
    ensures !r.0
    ensures r.1.None? <==> dir.None?
  {
    match dir
    case None => (false, None)
    case Some(d) => (false, Some(RemoveItems(d, listed)))
  }

  /** With the listing naming every entry, only the entries of no removable kind are left, and a second cleanup changes nothing. */
  lemma CleanupLeavesSpecials(scoreFile: bool, d: Listing, listed: seq<string>)
    requires forall n :: n in d ==> n in listed
    ensures var r := Cleanup(scoreFile, Some(d), listed).1.value;
      && (forall n :: n in r <==> n in d && d[n] == Special)
      && (forall n :: n in r ==> r[n] == Special)
      && Cleanup(false, Some(r), listed).1 == Some(r)
  {
    var r := RemoveItems(d, listed);
    RemoveItemsSpec(d, listed);
    RemoveItemsSpec(r, listed);
    var r2 := RemoveItems(r, listed);
    assert r2.Keys == r.Keys;
    assert r2 == r;
  }

  // ----- the full snapshot -----

  /** `snapshot_dir`: the destination is emptied and receives every regular file of the queue, in listing order. */
  function SnapshotAll(entries: seq<Entry>): (r: seq<string>)
    ensures |r| <= |entries|
    ensures forall x :: x in r <==> exists i :: 0 <= i < |entries| && entries[i].isFile && entries[i].name == x
    decreases |entries|
  {
    if |entries| == 0 then []
    else
      var rest := SnapshotAll(entries[1..]);
      assert forall i :: 1 <= i < |entries| ==> entries[i] == entries[1..][i - 1];
      if entries[0].isFile then [entries[0].name] + rest else rest
  }

  /**
   * The incremental snapshot stages nothing the full snapshot would not copy: every staged id
   * is the id of a file the old evaluator copies.
   */
  lemma IncrementalWithinFull(entries: seq<Entry>, stored: set<string>, idOf: string -> Result<string>, x: string)
    requires Evaluator.Snapshot(entries, stored, idOf).Ok?
    requires x in Evaluator.Snapshot(entries, stored, idOf).value
    ensures exists n :: n in SnapshotAll(entries) && idOf(n) == Ok(x)
  {
    Evaluator.SnapshotStages(entries, stored, idOf, x);
    var i :| 0 <= i < |entries| && Evaluator.Eligible(entries[i]) && idOf(entries[i].name) == Ok(x);
    assert entries[i].name in SnapshotAll(entries);
  }

  // ----- extract_score -----

  /** The outcome of the old `extract_score`: the answer, the copied names, the scorer's vector and the score directory left. */
  datatype OldScored = OldScored(best: int, copied: seq<string>, run: seq<string>, left: Option<Listing>)

  /**
   * The old `extract_score`: copy the queue, run the scorer, parse its file (a missing file
   * raises `FileNotFoundError` on opening), answer the best proximity score, and clean the
   * score directory. `dir` and `listed` are the score directory as the scorer leaves it.
   */
  function ExtractScoreOld(cfg: Evaluator.ScoreConfig, program: string, output: string, queue: seq<Entry>,
                           scoreFile: Option<seq<string>>, dir: Option<Listing>, listed: seq<string>): (r: Result<OldScored>)
    ensures r.Ok? ==> r.value.copied == SnapshotAll(queue)
    ensures r.Ok? ==> program in cfg.targets && scoreFile.Some?
  {
    var copied := SnapshotAll(queue);
    var args :- Evaluator.GenRunArgs(cfg, PathJoin(output, "input_snapshot"), output, program);
    match scoreFile
    case None => Err(FileNotFoundError)
    case Some(lines) =>
      var results :- ParseScoreFileOld(lines);
      var best :- MaxScore(results);
      Ok(OldScored(best, copied, args, Cleanup(true, dir, listed).1))
  }

  /**
   * The old evaluator's answer: the best proximity score among the seeds of the score file,
   * each seed counted by its last line; a file with no line after its header raises
   * `ValueError`, as does a failed line, and a missing file raises `FileNotFoundError`.
   */
  lemma ExtractScoreOldBest(cfg: Evaluator.ScoreConfig, program: string, output: string, queue: seq<Entry>,
                            scoreFile: Option<seq<string>>, dir: Option<Listing>, listed: seq<string>)
    requires program in cfg.targets
    ensures var r := ExtractScoreOld(cfg, program, output, queue, scoreFile, dir, listed);
      && (scoreFile.None? ==> r == Err(FileNotFoundError))
      && (scoreFile.Some? && ParseScoreFileOld(scoreFile.value).Ok? ==>
            (r.Ok? <==> |scoreFile.value| > 1)
            && (r.Ok? ==>
                  var rows := OldScoreRows(scoreFile.value);
                  && (exists i, k :: LastSetter(rows, i, k) && rows[i].value.1.prox == r.value.best)
                  && (forall i, k :: LastSetter(rows, i, k) ==> rows[i].value.1.prox <= r.value.best)))
  {
    if scoreFile.Some? && ParseScoreFileOld(scoreFile.value).Ok? {
      var lines := scoreFile.value;
      var m := ParseScoreFileOld(lines).value;
      var rows := OldScoreRows(lines);
      ParseScoreFileOldContents(lines);
      if |lines| <= 1 {
        assert |rows| == 0;
        assert m == map[];
      }
      var r := ExtractScoreOld(cfg, program, output, queue, scoreFile, dir, listed);
      if r.Ok? {
        var k :| k in m && m[k].prox == r.value.best;
        var i :| LastSetter(rows, i, k);
      }
    }
  }
}
