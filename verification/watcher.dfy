/**
 * One directory watcher: an append-only queue of discovered seed paths, fed first by a
 * scan of the existing files and then by live file-creation events, plus the blacklist
 * that keeps the two from reporting a file twice. The observer thread, the queue lock and
 * the directory polling are not modelled; the locked region of `start` is one step.
 */
module Watcher {
  import opened Wrappers
  import opened Strings
  import opened Sorting
  import opened MyType

  /** One entry of a directory listing: its name, whether it is a regular file, its ctime. */
  datatype Entry = Entry(name: string, isFile: bool, ctime: real)

  /** A file-system notification. */
  datatype Event = FileCreated(path: string) | DirCreated(path: string)

  datatype WatcherState = WatcherState(
    dirs: seq<string>,      // the observed directories
    queue: seq<string>,     // discovered paths, in discovery order
    blacklist: set<string>, // paths recorded by the initial scan
    alive: bool)            // the observer thread is running

  /** A path found by the initial scan, with the ctime it is sorted on. */
  datatype Found = Found(path: string, ctime: real)

  /** The subdirectories every worker watcher observes. */
  const SeedDirs: seq<string> := ["queue", "crashes", "hangs"]

  /** The observed directories of a worker output directory. */
  function TargetDirs(outputDir: string): (dirs: seq<string>)
    ensures |dirs| == |SeedDirs|
    ensures forall i :: 0 <= i < |dirs| ==> dirs[i] == Child(outputDir, SeedDirs[i])
  {
    [Child(outputDir, "queue"), Child(outputDir, "crashes"), Child(outputDir, "hangs")]
  }

  /** A fresh watcher for a configuration: nothing queued, not started. */
  function NewWatcher(c: WatcherConfig): WatcherState {
    WatcherState(TargetDirs(c.outputDir), [], {}, false)
  }

  // ----- the per-type hooks (identical for AFLGo, DAFL and WindRanger) -----

  /** `_ignore_test_case` on a file name. */
  predicate IgnoredName(name: string) {
    !StartsWith(name, "id:") || Contains(name, "orig") || Contains(name, "sync")
  }

  /** `_ignore_test_case` on a path: only its last component is inspected. */
  predicate Ignored(path: string) {
    IgnoredName(Basename(path))
  }

  /** `_get_test_case_type`: the kind named by the parent directory. */
  function SeedTypeOf(path: string): (r: Result<SeedType>)
    ensures r.Ok? ==> |PathParts(path)| >= 2
    ensures r == Ok(Crash) <==> |PathParts(path)| >= 2 && PathParts(path)[|PathParts(path)| - 2] == "crashes"
    ensures r == Ok(Hang) <==> |PathParts(path)| >= 2 && PathParts(path)[|PathParts(path)| - 2] == "hangs"
    ensures r == Ok(Normal) <==> |PathParts(path)| >= 2 && PathParts(path)[|PathParts(path)| - 2] == "queue"
    ensures |PathParts(path)| < 2 ==> r == Err(IndexError)
    ensures |PathParts(path)| >= 2 && PathParts(path)[|PathParts(path)| - 2] !in {"crashes", "hangs", "queue"} ==>
      r == Err(ValueError)
  {
    var parts := PathParts(path);
    if |parts| < 2 then Err(IndexError)
    else
      var parent := parts[|parts| - 2];
      if parent == "crashes" then Ok(Crash)
      else if parent == "hangs" then Ok(Hang)
      else if parent == "queue" then Ok(Normal)
      else Err(ValueError)
  }

  function KindOfDir(sub: string): SeedType {
    if sub == "crashes" then Crash else if sub == "hangs" then Hang else Normal
  }

  /**
   * Every file listed in one of a watcher's observed directories is classified by that
   * directory; the classifier's `ValueError` can only come from elsewhere.
   */
  lemma WatchedFilesClassify(outputDir: string, i: nat, name: string)
    requires i < |SeedDirs|
    requires '/' !in name && name != "" && name != "."
    ensures SeedTypeOf(Child(TargetDirs(outputDir)[i], name)) == Ok(KindOfDir(SeedDirs[i]))
  {
    ParentOfChild(outputDir, SeedDirs[i], name);
  }

  // ----- the initial scan -----

  function FilesOf(dir: string, entries: seq<Entry>): (r: seq<Found>)
    ensures |r| <= |entries|
    decreases |entries|
  {
    if |entries| == 0 then []
    else
      (if entries[0].isFile then [Found(Child(dir, entries[0].name), entries[0].ctime)] else [])
      + FilesOf(dir, entries[1..])
  }

  /** The regular files of the observed directories, in listing order. */
  function ScanFiles(dirs: seq<string>, listing: string -> seq<Entry>): seq<Found>
    decreases |dirs|
  {
    if |dirs| == 0 then [] else FilesOf(dirs[0], listing(dirs[0])) + ScanFiles(dirs[1..], listing)
  }

  /** A found file comes from a regular-file entry of one of the observed directories. */
  lemma {:induction false} ScanFilesAreListedFiles(dirs: seq<string>, listing: string -> seq<Entry>, f: Found)
    requires f in ScanFiles(dirs, listing)
    ensures exists d, e :: d in dirs && e in listing(d) && e.isFile && f == Found(Child(d, e.name), e.ctime)
    decreases |dirs|
  {
    var first := FilesOf(dirs[0], listing(dirs[0]));
    if f in first {
      FilesOfListed(dirs[0], listing(dirs[0]), f);
    } else {
      ScanFilesAreListedFiles(dirs[1..], listing, f);
    }
  }

  lemma {:induction false} FilesOfListed(dir: string, entries: seq<Entry>, f: Found)
    requires f in FilesOf(dir, entries)
    ensures exists e :: e in entries && e.isFile && f == Found(Child(dir, e.name), e.ctime)
    decreases |entries|
  {
    if !(entries[0].isFile && f == Found(Child(dir, entries[0].name), entries[0].ctime)) {
      FilesOfListed(dir, entries[1..], f);
    }
  }

  /** Every regular-file entry of an observed directory is found. */
  lemma {:induction false} ListedFilesAreScanned(dirs: seq<string>, listing: string -> seq<Entry>, d: string, e: Entry)
    requires d in dirs && e in listing(d) && e.isFile
    ensures Found(Child(d, e.name), e.ctime) in ScanFiles(dirs, listing)
    decreases |dirs|
  {
    if dirs[0] == d {
      ListedInFilesOf(d, listing(d), e);
    } else {
      ListedFilesAreScanned(dirs[1..], listing, d, e);
    }
  }

  lemma {:induction false} ListedInFilesOf(dir: string, entries: seq<Entry>, e: Entry)
    requires e in entries && e.isFile
    ensures Found(Child(dir, e.name), e.ctime) in FilesOf(dir, entries)
    decreases |entries|
  {
    if entries[0] != e {
      ListedInFilesOf(dir, entries[1..], e);
    }
  }

  function CtimeOf(f: Found): real { f.ctime }

  function PathsOf(fs: seq<Found>): (ps: seq<string>)
    ensures |ps| == |fs|
    ensures forall i :: 0 <= i < |fs| ==> ps[i] == fs[i].path
  {
    seq(|fs|, i requires 0 <= i < |fs| => fs[i].path)
  }

  /** The files the initial scan appends, stably sorted by ctime. */
  function Scanned(dirs: seq<string>, listing: string -> seq<Entry>): seq<Found> {
    SortBy(ScanFiles(dirs, listing), CtimeOf)
  }

  /**
   * `_scan_target_folders`: append the sorted regular files to the queue and blacklist
   * exactly those paths.
   */
  function ScanTargetFolders(w: WatcherState, listing: string -> seq<Entry>): (w': WatcherState)
    ensures w'.dirs == w.dirs && w'.alive == w.alive
    ensures |w'.queue| == |w.queue| + |ScanFiles(w.dirs, listing)|
    ensures w'.queue[..|w.queue|] == w.queue
    ensures SortedBy(Scanned(w.dirs, listing), CtimeOf)
    ensures forall i :: |w.queue| <= i < |w'.queue| ==> w'.queue[i] == Scanned(w.dirs, listing)[i - |w.queue|].path
    ensures multiset(Scanned(w.dirs, listing)) == multiset(ScanFiles(w.dirs, listing))
    ensures w'.blacklist == w.blacklist + set p | p in w'.queue[|w.queue|..]
  {
    var found := Scanned(w.dirs, listing);
    var paths := PathsOf(found);
    var w' := w.(queue := w.queue + paths, blacklist := w.blacklist + set p | p in paths);
    assert w'.queue[|w.queue|..] == paths;
    w'
  }

  /** Files with equal ctimes keep their listing order. */
  lemma ScanIsStable(dirs: seq<string>, listing: string -> seq<Entry>, t: real)
    ensures WithKey(Scanned(dirs, listing), CtimeOf, t) == WithKey(ScanFiles(dirs, listing), CtimeOf, t)
  {
    SortByStable(ScanFiles(dirs, listing), CtimeOf, t);
  }

  // ----- start and live events -----

  /** `start`: a running watcher is left alone; otherwise the observer starts and the scan runs. */
  function Start(w: WatcherState, listing: string -> seq<Entry>): (w': WatcherState)
    ensures w.alive ==> w' == w
    ensures w'.alive && w'.dirs == w.dirs
    ensures !w.alive ==> w' == ScanTargetFolders(w.(alive := true), listing)
  {
    if w.alive then w else ScanTargetFolders(w.(alive := true), listing)
  }

  /** `_NewTestCaseHandler.on_created` */
  function OnCreated(w: WatcherState, ev: Event): (w': WatcherState)
    ensures w'.blacklist == w.blacklist && w'.dirs == w.dirs && w'.alive == w.alive
    ensures |w.queue| <= |w'.queue| <= |w.queue| + 1
    ensures w'.queue[..|w.queue|] == w.queue
    ensures |w'.queue| == |w.queue| + 1 <==> ev.FileCreated? && ev.path !in w.blacklist
    ensures |w'.queue| == |w.queue| + 1 ==> w'.queue[|w.queue|] == ev.path
  {
    if ev.FileCreated? && ev.path !in w.blacklist then w.(queue := w.queue + [ev.path]) else w
  }

  function ApplyEvents(w: WatcherState, evs: seq<Event>): WatcherState
    decreases |evs|
  {
    if |evs| == 0 then w else ApplyEvents(OnCreated(w, evs[0]), evs[1..])
  }

  /** The paths a run of live events appends to a watcher with the given blacklist. */
  function LiveAppends(evs: seq<Event>, blacklist: set<string>): seq<string>
    decreases |evs|
  {
    if |evs| == 0 then []
    else
      (if evs[0].FileCreated? && evs[0].path !in blacklist then [evs[0].path] else [])
      + LiveAppends(evs[1..], blacklist)
  }

  lemma {:induction false} ApplyEventsAppends(w: WatcherState, evs: seq<Event>)
    ensures ApplyEvents(w, evs).queue == w.queue + LiveAppends(evs, w.blacklist)
    ensures ApplyEvents(w, evs).blacklist == w.blacklist
    ensures ApplyEvents(w, evs).alive == w.alive && ApplyEvents(w, evs).dirs == w.dirs
    decreases |evs|
  {
    if |evs| > 0 {
      ApplyEventsAppends(OnCreated(w, evs[0]), evs[1..]);
    }
  }

  lemma {:induction false} LiveAppendsAvoidBlacklist(evs: seq<Event>, blacklist: set<string>)
    ensures forall p :: p in LiveAppends(evs, blacklist) ==> p !in blacklist
    decreases |evs|
  {
    if |evs| > 0 {
      LiveAppendsAvoidBlacklist(evs[1..], blacklist);
    }
  }

  /**
   * The ordering guarantee of `start`: after starting a stopped watcher and delivering any
   * live events, the queue is the old queue, then every pre-existing file in ctime order,
   * then the live paths, and no pre-existing file is reported a second time.
   */
  lemma ScanPrecedesLiveEvents(w: WatcherState, listing: string -> seq<Entry>, evs: seq<Event>)
    requires !w.alive
    ensures var w2 := ApplyEvents(Start(w, listing), evs);
      var scanned := PathsOf(Scanned(w.dirs, listing));
      && w2.queue == w.queue + scanned + LiveAppends(evs, Start(w, listing).blacklist)
      && (forall p :: p in scanned ==> p !in LiveAppends(evs, Start(w, listing).blacklist))
  {
    var w1 := Start(w, listing);
    var scanned := PathsOf(Scanned(w.dirs, listing));
    assert w1.queue == w.queue + scanned;
    assert forall p :: p in scanned ==> p in w1.blacklist by {
      assert w1.queue[|w.queue|..] == scanned;
    }
    ApplyEventsAppends(w1, evs);
    LiveAppendsAvoidBlacklist(evs, w1.blacklist);
  }
}
