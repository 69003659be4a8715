/**
 * One synchronisation tick (`sync2`), in both schemes: the link-only scheme and the
 * scheme that also copies each seed into the destination's real queue. Phase one reads
 * the new tail of every watcher queue, records each seed's digest in its source worker's
 * ledger and stages the digests never seen before; phase two hands every staged seed to
 * every worker whose ledger lacks its digest. File-system effects are inputs: the digest
 * of a path, directory listings, and whether a link or a copy succeeds.
 */
module Sync {
  import opened Wrappers
  import opened Strings
  import opened MyType
  import opened Watcher
  import opened Registry
  import opened Naming

  /** An MD5 hex digest. */
  type Hash = string

  /** A staged seed: its path, the worker it came from and its digest. */
  datatype Item = Item(path: string, src: string, hash: Hash)

  /** The copy of a seed into a real queue, under `name`; `done` is false when `copy2` failed. */
  datatype Copy = Copy(name: string, done: bool)

  /** A seed handed to `dest`: the link made in its `dcfuzz/queue` and, in the copying scheme, the copy. */
  datatype Delivery = Delivery(dest: string, item: Item, link: string, copy: Option<Copy>)

  datatype SyncState = SyncState(
    reg: Registry,                     // the watcher registries
    lastIndex: map<nat, nat>,          // LAST_INDEX, by watcher id
    seen: set<Hash>,                   // global_processed_checksum
    ledger: map<string, set<Hash>>,    // processed_checksum: the digests each worker holds
    counter: map<string, nat>,         // index: the link counter of each destination
    cache: map<string, Hash>,          // hashmap: the memoised digest of each path
    copies: map<string, seq<string>>)  // the copy names made in each worker's real queue

  /** The state before the first tick. */
  const Initial: SyncState := SyncState(NoWatchers, map[], {}, map[], map[], map[], map[])

  /** What a tick reads from the outside world and from the configuration. */
  datatype Env = Env(
    resolve: string -> string,          // Path.resolve
    listing: string -> seq<Entry>,      // directory contents, for a watcher's initial scan
    digest: string -> Option<Hash>,     // MD5 of a file; None when it cannot be opened
    names: string -> seq<string>,       // the worker's own files in a real queue directory
    symlinkOk: string -> bool,          // whether os.symlink at this path succeeds
    copyOk: string -> bool,             // whether shutil.copy2 to this path succeeds
    targets: set<string>,               // the keys of config['target']
    fuzzers: set<string>)               // the keys of config['fuzzer']

  // ----- paths -----

  /** `host_root_dir / target / fuzzer` */
  function WorkerDir(root: string, target: string, f: string): string {
    Child(Child(root, target), f)
  }

  /** The directory the links are made in: `<worker>/dcfuzz/queue`. */
  function LinkDir(root: string, target: string, f: string): string {
    Child(Child(WorkerDir(root, target, f), "dcfuzz"), "queue")
  }

  /** The worker's real queue, where the copying scheme puts its copies. */
  function RealQueueDir(root: string, target: string, f: string): string {
    Child(WorkerDir(root, target, f), "queue")
  }

  /** The link directory is not among the directories the worker's own watcher observes. */
  lemma LinksUnwatched(root: string, target: string, f: string)
    ensures LinkDir(root, target, f) !in TargetDirs(WorkerDir(root, target, f))
  {
    var out := WorkerDir(root, target, f);
    assert |LinkDir(root, target, f)| == |out| + 13;
    assert forall i :: 0 <= i < |SeedDirs| ==> |Child(out, SeedDirs[i])| <= |out| + 8;
  }

  // ----- bookkeeping -----

  /** `init`: an empty ledger for every listed worker that has none. */
  function InitLedgers(ledger: map<string, set<Hash>>, fuzzers: seq<string>): (l: map<string, set<Hash>>)
    ensures forall f :: f in l <==> f in ledger || f in fuzzers
    ensures forall f :: f in ledger ==> l[f] == ledger[f]
    ensures forall f :: f in l && f !in ledger ==> l[f] == {}
    decreases |fuzzers|
  {
    if |fuzzers| == 0 then ledger
    else
      var l := if fuzzers[0] in ledger then ledger else ledger[fuzzers[0] := {}];
      InitLedgers(l, fuzzers[1..])
  }

  /** The digests a worker holds; a worker without a ledger holds none. */
  function Held(ledger: map<string, set<Hash>>, f: string): set<Hash> {
    if f in ledger then ledger[f] else {}
  }

  ghost predicate CacheGrows(a: map<string, Hash>, b: map<string, Hash>) {
    forall p :: p in a ==> p in b && b[p] == a[p]
  }

  ghost predicate LedgerGrows(a: map<string, set<Hash>>, b: map<string, set<Hash>>) {
    && (forall f :: f in a <==> f in b)
    && (forall f :: f in a ==> a[f] <= b[f])
  }

  /**
   * `checksum`: the memoised digest of a path. A path seen before gets its recorded digest
   * back; otherwise the file is read and its digest recorded, or opening it fails.
   */
  function Checksum(cache: map<string, Hash>, digest: string -> Option<Hash>, path: string): (r: Result<(Hash, map<string, Hash>)>)
    ensures path in cache ==> r == Ok((cache[path], cache))
    ensures r.Err? <==> path !in cache && digest(path).None?
    ensures r.Err? ==> r.error == FileNotFoundError
    ensures r.Ok? ==> CacheGrows(cache, r.value.1) && r.value.1.Keys == cache.Keys + {path}
    ensures r.Ok? ==> r.value.1[path] == r.value.0
    ensures r.Ok? && path !in cache ==> Some(r.value.0) == digest(path)
  {
    if path in cache then Ok((cache[path], cache))
    else match digest(path)
      case None => Err(FileNotFoundError)
      case Some(h) => Ok((h, cache[path := h]))
  }

  /** Asking again returns the same digest and leaves the cache as it is, whatever the file now holds. */
  lemma ChecksumMemo(cache: map<string, Hash>, digest: string -> Option<Hash>, digest2: string -> Option<Hash>, path: string)
    requires Checksum(cache, digest, path).Ok?
    ensures var (h, c) := Checksum(cache, digest, path).value;
      Checksum(c, digest2, path) == Ok((h, c))
  {
  }

  // ----- phase one: the global queue -----

  /** The state of phase one: the synchroniser state and the seeds staged so far. */
  datatype Work = Work(s: SyncState, staged: seq<Item>)

  function HashesOf(items: seq<Item>): set<Hash> {
    set i | 0 <= i < |items| :: items[i].hash
  }

  /** Pairwise distinct digests, none of them in `seen`. */
  ghost predicate Fresh(items: seq<Item>, seen: set<Hash>) {
    && (forall i, j :: 0 <= i < j < |items| ==> items[i].hash != items[j].hash)
    && (forall i :: 0 <= i < |items| ==> items[i].hash !in seen)
  }

  /** The seed's digest is in its source worker's ledger. */
  ghost predicate Recorded(ledger: map<string, set<Hash>>, it: Item) {
    it.src in ledger && it.hash in ledger[it.src]
  }

  /**
   * How phase one may move from `w` to `w'`: staging only appends seeds from the workers
   * in `from`, with fresh digests that join `seen` and their source's ledger; ledgers and
   * the digest cache only grow; the link counters and copies are untouched.
   */
  ghost predicate Grew(w: Work, w': Work, from: set<string>) {
    && |w.staged| <= |w'.staged| && w'.staged[..|w.staged|] == w.staged
    && Fresh(w'.staged[|w.staged|..], w.s.seen)
    && w'.s.seen == w.s.seen + HashesOf(w'.staged[|w.staged|..])
    && LedgerGrows(w.s.ledger, w'.s.ledger)
    && (forall k :: |w.staged| <= k < |w'.staged| ==> w'.staged[k].src in from && Recorded(w'.s.ledger, w'.staged[k]))
    && CacheGrows(w.s.cache, w'.s.cache)
    && w'.s.counter == w.s.counter && w'.s.copies == w.s.copies
  }

  lemma HashesOfAppend(a: seq<Item>, b: seq<Item>)
    ensures HashesOf(a + b) == HashesOf(a) + HashesOf(b)
  {
    var ab := a + b;
    forall h | h in HashesOf(ab) ensures h in HashesOf(a) + HashesOf(b) {
      var i :| 0 <= i < |ab| && ab[i].hash == h;
      if i >= |a| { assert b[i - |a|].hash == h; }
    }
    forall h | h in HashesOf(a) + HashesOf(b) ensures h in HashesOf(ab) {
      if h in HashesOf(a) {
        var i :| 0 <= i < |a| && a[i].hash == h;
        assert ab[i].hash == h;
      } else {
        var i :| 0 <= i < |b| && b[i].hash == h;
        assert ab[|a| + i].hash == h;
      }
    }
  }

  lemma GrewTrans(w1: Work, w2: Work, w3: Work, from: set<string>)
    requires Grew(w1, w2, from) && Grew(w2, w3, from)
    ensures Grew(w1, w3, from)
  {
    var n1, n2 := |w1.staged|, |w2.staged|;
    var a, b := w2.staged[n1..], w3.staged[n2..];
    assert w3.staged[..n2] == w2.staged;
    assert w3.staged[n1..] == a + b;
    HashesOfAppend(a, b);
    FreshAppend(a, b, w1.s.seen);
    assert w3.staged[..n1] == w1.staged;
    forall k | n1 <= k < |w3.staged|
      ensures w3.staged[k].src in from && Recorded(w3.s.ledger, w3.staged[k])
    {
      if k < n2 {
        assert w3.staged[k] == w2.staged[k];
        RecordedGrows(w2.s.ledger, w3.s.ledger, w2.staged[k]);
      }
    }
  }

  /** A recorded digest stays recorded as the ledgers grow. */
  lemma RecordedGrows(ledger: map<string, set<Hash>>, ledger': map<string, set<Hash>>, it: Item)
    requires LedgerGrows(ledger, ledger') && Recorded(ledger, it)
    ensures Recorded(ledger', it)
  {
  }

  /** A step of phase one that stages nothing and only lets the cache and the ledgers grow. */
  lemma GrewNoStage(w: Work, w': Work, from: set<string>)
    requires w'.staged == w.staged && w'.s.seen == w.s.seen
    requires LedgerGrows(w.s.ledger, w'.s.ledger) && CacheGrows(w.s.cache, w'.s.cache)
    requires w'.s.counter == w.s.counter && w'.s.copies == w.s.copies
    ensures Grew(w, w', from)
  {
    assert w'.staged[|w.staged|..] == [];
    assert HashesOf([]) == {};
  }

  /** A step of phase one that stages one seed with a new digest. */
  lemma GrewStageOne(w: Work, w': Work, it: Item, from: set<string>)
    requires w'.staged == w.staged + [it] && it.hash !in w.s.seen && w'.s.seen == w.s.seen + {it.hash}
    requires LedgerGrows(w.s.ledger, w'.s.ledger) && CacheGrows(w.s.cache, w'.s.cache)
    requires it.src in from && Recorded(w'.s.ledger, it)
    requires w'.s.counter == w.s.counter && w'.s.copies == w.s.copies
    ensures Grew(w, w', from)
  {
    assert w'.staged[|w.staged|..] == [it];
    assert [it][0].hash == it.hash;
    assert HashesOf([it]) == {it.hash};
  }

  /** The seeds of one queue entry: skip an ignored name, else record the digest and stage it if new. */
  function Examine(w: Work, f: string, path: string, env: Env): (o: Outcome<Work>)
    requires f in w.s.ledger
    ensures o.state.s.ledger.Keys == w.s.ledger.Keys
    ensures o.state.s.reg == w.s.reg && o.state.s.lastIndex == w.s.lastIndex
    ensures Ignored(path) ==> o == Done(w)
    ensures o.Raised? <==> !Ignored(path) && path !in w.s.cache && env.digest(path).None?
    ensures o.Raised? ==> o == Raised(w, FileNotFoundError)
  {
    if Ignored(path) then Done(w)
    else match Checksum(w.s.cache, env.digest, path)
      case Err(e) => Raised(w, e)
      case Ok((h, cache)) =>
        var ledger := w.s.ledger[f := w.s.ledger[f] + {h}];
        if h in w.s.seen then Done(w.(s := w.s.(cache := cache, ledger := ledger)))
        else Done(Work(w.s.(cache := cache, ledger := ledger, seen := w.s.seen + {h}), w.staged + [Item(path, f, h)]))
  }

  /**
   * Examining an entry records its digest in the worker's ledger and stages it exactly
   * when no worker produced that digest before.
   */
  lemma ExamineGrew(w: Work, f: string, path: string, env: Env)
    requires f in w.s.ledger
    ensures var o := Examine(w, f, path, env);
      && Grew(w, o.state, {f})
      && (o.Done? && !Ignored(path) ==>
            && path in o.state.s.cache && o.state.s.cache[path] in o.state.s.ledger[f]
            && (|o.state.staged| == |w.staged| + 1 <==> o.state.s.cache[path] !in w.s.seen))
  {
    var o := Examine(w, f, path, env);
    if Ignored(path) || o.Raised? {
      GrewNoStage(w, w, {f});
    } else {
      var (h, cache) := Checksum(w.s.cache, env.digest, path).value;
      var ledger := w.s.ledger[f := w.s.ledger[f] + {h}];
      LedgerAdd(w.s.ledger, f, h);
      if h in w.s.seen {
        GrewNoStage(w, o.state, {f});
      } else {
        GrewStageOne(w, o.state, Item(path, f, h), {f});
      }
    }
  }

  /** `for i in range(i, len(q))` over one watcher queue. */
  function ScanRange(w: Work, f: string, q: seq<string>, i: nat, env: Env): (o: Outcome<Work>)
    requires f in w.s.ledger
    ensures o.state.s.ledger.Keys == w.s.ledger.Keys
    ensures o.state.s.reg == w.s.reg && o.state.s.lastIndex == w.s.lastIndex
    ensures i >= |q| ==> o == Done(w)
    decreases |q| - i
  {
    if i >= |q| then Done(w)
    else match Examine(w, f, q[i], env)
      case Raised(w1, e) => Raised(w1, e)
      case Done(w1) => ScanRange(w1, f, q, i + 1, env)
  }

  /** A window stages only fresh digests, from worker `f`, and keeps everything recorded before. */
  lemma {:induction false} ScanRangeGrew(w: Work, f: string, q: seq<string>, i: nat, env: Env)
    requires f in w.s.ledger
    ensures Grew(w, ScanRange(w, f, q, i, env).state, {f})
    decreases |q| - i
  {
    if i >= |q| {
      GrewNoStage(w, w, {f});
    } else {
      var o1 := Examine(w, f, q[i], env);
      ExamineGrew(w, f, q[i], env);
      if o1.Done? {
        ScanRangeGrew(o1.state, f, q, i + 1, env);
        GrewTrans(w, o1.state, ScanRange(w, f, q, i, env).state, {f});
      }
    }
  }

  /** A window that completes leaves the digest of every entry it did not ignore in the worker's ledger. */
  lemma {:induction false} ScanRangeRecords(w: Work, f: string, q: seq<string>, i: nat, env: Env)
    requires f in w.s.ledger
    ensures var o := ScanRange(w, f, q, i, env);
      o.Done? ==> forall k :: i <= k < |q| && !Ignored(q[k]) ==>
        q[k] in o.state.s.cache && o.state.s.cache[q[k]] in o.state.s.ledger[f]
    decreases |q| - i
  {
    if i < |q| {
      var o := ScanRange(w, f, q, i, env);
      var o1 := Examine(w, f, q[i], env);
      if o1.Done? {
        assert o == ScanRange(o1.state, f, q, i + 1, env);
        ScanRangeRecords(o1.state, f, q, i + 1, env);
        if o.Done? {
          if !Ignored(q[i]) {
            ExamineRecordsKept(w, f, q, i, env);
          }
          RecordsExtend(o.state, f, q, i, Ignored);
        }
      }
    }
  }

  /** Extending the recorded part of a window by its first entry, for any choice of skipped entries. */
  lemma RecordsExtend(w: Work, f: string, q: seq<string>, i: nat, skip: string -> bool)
    requires i < |q| && f in w.s.ledger
    requires forall k :: i + 1 <= k < |q| && !skip(q[k]) ==> q[k] in w.s.cache && w.s.cache[q[k]] in w.s.ledger[f]
    requires !skip(q[i]) ==> q[i] in w.s.cache && w.s.cache[q[i]] in w.s.ledger[f]
    ensures forall k :: i <= k < |q| && !skip(q[k]) ==> q[k] in w.s.cache && w.s.cache[q[k]] in w.s.ledger[f]
  {
  }

  /** The digest the first entry of a window records survives the rest of the window. */
  lemma ExamineRecordsKept(w: Work, f: string, q: seq<string>, i: nat, env: Env)
    requires f in w.s.ledger && i < |q| && !Ignored(q[i])
    requires Examine(w, f, q[i], env).Done?
    ensures var o := ScanRange(Examine(w, f, q[i], env).state, f, q, i + 1, env).state;
      q[i] in o.s.cache && o.s.cache[q[i]] in o.s.ledger[f]
  {
    var w1 := Examine(w, f, q[i], env).state;
    ExamineGrew(w, f, q[i], env);
    ScanRangeGrew(w1, f, q, i + 1, env);
    KeptInLater(w1, ScanRange(w1, f, q, i + 1, env).state, q[i], f);
  }

  /** A digest recorded earlier in phase one stays recorded. */
  lemma KeptInLater(w: Work, w': Work, path: string, f: string)
    requires Grew(w, w', {f})
    requires path in w.s.cache && f in w.s.ledger && w.s.cache[path] in w.s.ledger[f]
    ensures path in w'.s.cache && w'.s.cache[path] in w'.s.ledger[f]
  {
  }

  /** The index the next window of a watcher starts after: `LAST_INDEX.get(w, -1)`. */
  function Last(lastIndex: map<nat, nat>, id: nat): int {
    if id in lastIndex then lastIndex[id] else -1
  }

  /** One watcher's window, then `LAST_INDEX[w] = len(queue)`. */
  function ScanOne(w: Work, f: string, id: nat, env: Env): (o: Outcome<Work>)
    requires f in w.s.ledger && id < |w.s.reg.pool|
    ensures o.state.s.ledger.Keys == w.s.ledger.Keys && o.state.s.reg == w.s.reg
    ensures o.Done? ==> o.state.s.lastIndex == w.s.lastIndex[id := |w.s.reg.pool[id].queue|]
    ensures o.Raised? ==> o.state.s.lastIndex == w.s.lastIndex
    ensures var r := ScanRange(w, f, w.s.reg.pool[id].queue, (Last(w.s.lastIndex, id) + 1) as nat, env);
      && o.Raised? == r.Raised? && o.state.staged == r.state.staged
      && o.state.s.ledger == r.state.s.ledger && o.state.s.seen == r.state.s.seen
  {
    var q := w.s.reg.pool[id].queue;
    match ScanRange(w, f, q, (Last(w.s.lastIndex, id) + 1) as nat, env)
    case Raised(w1, e) => Raised(w1, e)
    case Done(w1) => Done(w1.(s := w1.s.(lastIndex := w1.s.lastIndex[id := |q|])))
  }

  lemma ScanOneGrew(w: Work, f: string, id: nat, env: Env)
    requires f in w.s.ledger && id < |w.s.reg.pool|
    ensures Grew(w, ScanOne(w, f, id, env).state, {f})
  {
    var q := w.s.reg.pool[id].queue;
    var o1 := ScanRange(w, f, q, (Last(w.s.lastIndex, id) + 1) as nat, env);
    ScanRangeGrew(w, f, q, (Last(w.s.lastIndex, id) + 1) as nat, env);
    if o1.Done? {
      var w1 := o1.state;
      var w2 := w1.(s := w1.s.(lastIndex := w1.s.lastIndex[id := |q|]));
      assert ScanOne(w, f, id, env) == Done(w2);
      GrewNoStage(w1, w2, {f});
      GrewTrans(w, w1, w2, {f});
    } else {
      assert ScanOne(w, f, id, env) == o1;
    }
  }

  /** `LAST_INDEX` after the windows of `ids`: each watcher's entry set to the length of its queue. */
  function MarkAll(lastIndex: map<nat, nat>, ids: seq<nat>, pool: seq<WatcherState>): map<nat, nat>
    requires forall k :: 0 <= k < |ids| ==> ids[k] < |pool|
    decreases |ids|
  {
    if |ids| == 0 then lastIndex
    else MarkAll(lastIndex[ids[0] := |pool[ids[0]].queue|], ids[1..], pool)
  }

  /** The windows of all of a worker's watchers, in registration order. */
  function ScanWatchers(w: Work, f: string, ids: seq<nat>, env: Env): (o: Outcome<Work>)
    requires f in w.s.ledger
    requires forall k :: 0 <= k < |ids| ==> ids[k] < |w.s.reg.pool|
    ensures o.state.s.ledger.Keys == w.s.ledger.Keys && o.state.s.reg == w.s.reg
    ensures o.Done? ==> o.state.s.lastIndex == MarkAll(w.s.lastIndex, ids, w.s.reg.pool)
    decreases |ids|
  {
    if |ids| == 0 then Done(w)
    else match ScanOne(w, f, ids[0], env)
      case Raised(w1, e) => Raised(w1, e)
      case Done(w1) => ScanWatchers(w1, f, ids[1..], env)
  }

  lemma {:induction false} ScanWatchersGrew(w: Work, f: string, ids: seq<nat>, env: Env)
    requires f in w.s.ledger
    requires forall k :: 0 <= k < |ids| ==> ids[k] < |w.s.reg.pool|
    ensures Grew(w, ScanWatchers(w, f, ids, env).state, {f})
    decreases |ids|
  {
    if |ids| == 0 {
      GrewNoStage(w, w, {f});
    } else {
      var o1 := ScanOne(w, f, ids[0], env);
      ScanOneGrew(w, f, ids[0], env);
      if o1.Done? {
        ScanWatchersGrew(o1.state, f, ids[1..], env);
        GrewTrans(w, o1.state, ScanWatchers(w, f, ids, env).state, {f});
      }
    }
  }

  /** Marking keeps the entries of the watchers not marked. */
  lemma {:induction false} MarkAllKeeps(lastIndex: map<nat, nat>, ids: seq<nat>, pool: seq<WatcherState>, id: nat)
    requires forall k :: 0 <= k < |ids| ==> ids[k] < |pool|
    requires id in lastIndex && id !in ids
    ensures id in MarkAll(lastIndex, ids, pool) && MarkAll(lastIndex, ids, pool)[id] == lastIndex[id]
    decreases |ids|
  {
    if |ids| > 0 {
      assert id !in ids[1..];
      MarkAllKeeps(lastIndex[ids[0] := |pool[ids[0]].queue|], ids[1..], pool, id);
    }
  }

  /** Marking sets every marked watcher's entry to the length of its queue. */
  lemma {:induction false} MarkAllMarks(lastIndex: map<nat, nat>, ids: seq<nat>, pool: seq<WatcherState>, k: nat)
    requires forall k :: 0 <= k < |ids| ==> ids[k] < |pool|
    requires k < |ids|
    ensures ids[k] in MarkAll(lastIndex, ids, pool) && MarkAll(lastIndex, ids, pool)[ids[k]] == |pool[ids[k]].queue|
    decreases |ids|
  {
    var l1 := lastIndex[ids[0] := |pool[ids[0]].queue|];
    if k > 0 {
      assert ids[k] == ids[1..][k - 1];
      MarkAllMarks(l1, ids[1..], pool, k - 1);
    } else if ids[0] in ids[1..] {
      var j :| 0 <= j < |ids[1..]| && ids[1..][j] == ids[0];
      MarkAllMarks(l1, ids[1..], pool, j);
    } else {
      MarkAllKeeps(l1, ids[1..], pool, ids[0]);
    }
  }

  /** How phase one ends: on to phase two, returned early, or raised. */
  datatype Phase1 = Go(w: Work) | Stop(w: Work) | Fail(w: Work, exc: Exc)

  /**
   * Phase one for one worker: the configuration lookup (`KeyError`), the watcher
   * registration, the not-ready `return`, then the windows of the worker's watchers.
   */
  function Phase1Step(w: Work, f: string, root: string, target: string, env: Env): (p: Phase1)
    requires Valid(w.s.reg) && f in w.s.ledger
    ensures Valid(p.w.s.reg) && p.w.s.ledger.Keys == w.s.ledger.Keys
    ensures AllAlive(w.s.reg) ==> AllAlive(p.w.s.reg) && |w.s.reg.pool| <= |p.w.s.reg.pool|
    ensures AllAlive(w.s.reg) ==> forall id :: 0 <= id < |w.s.reg.pool| ==> p.w.s.reg.pool[id] == w.s.reg.pool[id]
    ensures f !in env.fuzzers ==> p == Fail(w, KeyError)
    ensures p.Go? ==> f in p.w.s.reg.watchers && WorkerDir(root, target, f) in p.w.s.reg.processed
    ensures p.Go? ==> p.w.s.lastIndex == MarkAll(w.s.lastIndex, p.w.s.reg.watchers[f], p.w.s.reg.pool)
    ensures p.Go? ==> p.w.s.reg == InitWatcher(w.s.reg, f, WorkerDir(root, target, f), env.resolve, env.listing).state
  {
    if f !in env.fuzzers then Fail(w, KeyError)
    else
      var o := InitWatcher(w.s.reg, f, WorkerDir(root, target, f), env.resolve, env.listing);
      var w1 := w.(s := w.s.(reg := o.state));
      if o.Raised? then Fail(w1, o.exc)
      else if f !in o.state.watchers then Stop(w1)
      else
        var o2 := ScanWatchers(w1, f, o.state.watchers[f], env);
        if o2.Raised? then Fail(o2.state, o2.exc) else Go(o2.state)
  }

  lemma Phase1StepGrew(w: Work, f: string, root: string, target: string, env: Env)
    requires Valid(w.s.reg) && f in w.s.ledger
    ensures Grew(w, Phase1Step(w, f, root, target, env).w, {f})
  {
    if f !in env.fuzzers {
      GrewNoStage(w, w, {f});
    } else {
      var o := InitWatcher(w.s.reg, f, WorkerDir(root, target, f), env.resolve, env.listing);
      var w1 := w.(s := w.s.(reg := o.state));
      GrewNoStage(w, w1, {f});
      if o.Done? && f in o.state.watchers {
        ScanWatchersGrew(w1, f, o.state.watchers[f], env);
        GrewTrans(w, w1, ScanWatchers(w1, f, o.state.watchers[f], env).state, {f});
      }
    }
  }

  /** Phase one over the listed workers, in order, stopping at the first that does not go on. */
  function Phase1Run(w: Work, fuzzers: seq<string>, root: string, target: string, env: Env): (p: Phase1)
    requires Valid(w.s.reg)
    requires forall k :: 0 <= k < |fuzzers| ==> fuzzers[k] in w.s.ledger
    ensures Valid(p.w.s.reg) && p.w.s.ledger.Keys == w.s.ledger.Keys
    decreases |fuzzers|
  {
    if |fuzzers| == 0 then Go(w)
    else
      var p1 := Phase1Step(w, fuzzers[0], root, target, env);
      if !p1.Go? then p1
      else
        assert forall k :: 1 <= k < |fuzzers| ==> fuzzers[1..][k - 1] == fuzzers[k];
        Phase1Run(p1.w, fuzzers[1..], root, target, env)
  }

  /** Phase one stages only fresh digests, each recorded in the ledger of the listed worker it came from. */
  lemma {:induction false} Phase1RunGrew(w: Work, fuzzers: seq<string>, from: set<string>, root: string, target: string, env: Env)
    requires Valid(w.s.reg)
    requires forall k :: 0 <= k < |fuzzers| ==> fuzzers[k] in w.s.ledger && fuzzers[k] in from
    ensures Grew(w, Phase1Run(w, fuzzers, root, target, env).w, from)
    decreases |fuzzers|
  {
    if |fuzzers| == 0 {
      GrewNoStage(w, w, from);
    } else {
      var p1 := Phase1Step(w, fuzzers[0], root, target, env);
      Phase1StepGrew(w, fuzzers[0], root, target, env);
      GrewWiden(w, p1.w, {fuzzers[0]}, from);
      Phase1RunCases(w, fuzzers, root, target, env);
      if p1.Go? {
        assert forall k :: 1 <= k < |fuzzers| ==> fuzzers[1..][k - 1] == fuzzers[k];
        Phase1RunGrew(p1.w, fuzzers[1..], from, root, target, env);
        GrewTrans(w, p1.w, Phase1Run(w, fuzzers, root, target, env).w, from);
      }
    }
  }

  /** Phase one only starts watchers and never changes one already in the pool. */
  lemma {:induction false} Phase1RunAlive(w: Work, fuzzers: seq<string>, root: string, target: string, env: Env)
    requires Valid(w.s.reg) && AllAlive(w.s.reg)
    requires forall k :: 0 <= k < |fuzzers| ==> fuzzers[k] in w.s.ledger
    ensures var p := Phase1Run(w, fuzzers, root, target, env);
      && AllAlive(p.w.s.reg) && |w.s.reg.pool| <= |p.w.s.reg.pool|
      && forall id :: 0 <= id < |w.s.reg.pool| ==> p.w.s.reg.pool[id] == w.s.reg.pool[id]
    decreases |fuzzers|
  {
    if |fuzzers| > 0 {
      var p1 := Phase1Step(w, fuzzers[0], root, target, env);
      Phase1RunCases(w, fuzzers, root, target, env);
      if p1.Go? {
        Phase1RunAlive(p1.w, fuzzers[1..], root, target, env);
        PoolKept(w.s.reg.pool, p1.w.s.reg.pool, Phase1Run(p1.w, fuzzers[1..], root, target, env).w.s.reg.pool);
      }
    }
  }

  /** Keeping the first entries of a pool is transitive. */
  lemma PoolKept(a: seq<WatcherState>, b: seq<WatcherState>, c: seq<WatcherState>)
    requires |a| <= |b| && forall id :: 0 <= id < |a| ==> b[id] == a[id]
    requires |b| <= |c| && forall id :: 0 <= id < |b| ==> c[id] == b[id]
    ensures |a| <= |c| && forall id :: 0 <= id < |a| ==> c[id] == a[id]
  {
  }

  lemma GrewWiden(w: Work, w': Work, a: set<string>, b: set<string>)
    requires Grew(w, w', a) && a <= b
    ensures Grew(w, w', b)
  {
  }


  /** The copy names already made in a worker's real queue. */
  function Made(copies: map<string, seq<string>>, dest: string): seq<string> {
    if dest in copies then copies[dest] else []
  }

  /**
   * Whether a delivery's link name carries its counter value where `IdOf` finds it: always
   * for the plain `id:NNNNNN` names, and for tagged names when the source worker's name is
   * a non-empty alphanumeric word.
   */
  predicate Named(scheme: Scheme, d: Delivery) {
    scheme.LinkOnly? || (0 < |d.item.src| && AllAlnum(d.item.src))
  }

  /**
   * The copying half of `sync_test_case`: the next free id in the destination's real
   * queue and `shutil.copy2` to it, whose failure is only logged.
   */
  function CopyInto(s: SyncState, root: string, target: string, dest: string, src: string, env: Env): (r: (SyncState, Copy))
    ensures r.0 == s.(copies := r.0.copies)
    ensures forall d :: d != dest ==> Made(r.0.copies, d) == Made(s.copies, d)
    ensures Made(r.0.copies, dest) == Made(s.copies, dest) + (if r.1.done then [r.1.name] else [])
    ensures r.1.done == env.copyOk(Child(RealQueueDir(root, target, dest), r.1.name))
    ensures 0 < |src| && AllAlnum(src) ==>
      && r.1.name !in env.names(RealQueueDir(root, target, dest)) + Made(s.copies, dest)
      && Ignored(Child(RealQueueDir(root, target, dest), r.1.name))
  {
    var dir := RealQueueDir(root, target, dest);
    var made := Made(s.copies, dest);
    var copyName := NextIdInDir(env.names(dir) + made, src);
    var ok := env.copyOk(Child(dir, copyName));
    assert 0 < |src| && AllAlnum(src) ==> copyName !in env.names(dir) + made && Ignored(Child(dir, copyName)) by {
      if 0 < |src| && AllAlnum(src) {
        NextIdInDirFresh(env.names(dir) + made, src);
        NextIdInDirIgnored(dir, env.names(dir) + made, src);
      }
    }
    (if ok then s.(copies := s.copies[dest := made + [copyName]]) else s, Copy(copyName, ok))
  }

  /**
   * `sync_test_case` for one destination and seed. The link name comes from the
   * destination's counter; a failing `os.symlink` raises. In the copying scheme the seed
   * is then copied into the real queue. The link-only variant first looks the worker up
   * in the configuration.
   */
  function SyncTestCase(s: SyncState, scheme: Scheme, root: string, target: string, dest: string, it: Item, env: Env): (r: (Outcome<SyncState>, Option<Delivery>))
    ensures r.1.Some? <==> r.0.Done?
    ensures r.1.Some? ==> r.1.value.dest == dest && r.1.value.item == it
    ensures r.1.Some? ==> (r.1.value.copy.Some? <==> scheme.LinkAndCopy?)
    ensures r.0.state.ledger == s.ledger && r.0.state.seen == s.seen && r.0.state.reg == s.reg
    ensures r.0.state.lastIndex == s.lastIndex && r.0.state.cache == s.cache
    ensures scheme.LinkOnly? && dest !in env.fuzzers ==> r.0 == Raised(s, KeyError)
    ensures r.0.Raised? && r.0.exc != KeyError ==> r.0.exc == OSError && !env.symlinkOk(Child(LinkDir(root, target, dest), NewAflFilename(s.counter, dest, scheme, it.src).0))
    ensures !(scheme.LinkOnly? && dest !in env.fuzzers) ==> Count(r.0.state.counter, dest) == Count(s.counter, dest) + 1
    ensures forall d :: d != dest ==> Count(r.0.state.counter, d) == Count(s.counter, d)
    ensures r.1.Some? && Named(scheme, r.1.value) ==> IdOf(r.1.value.link) == Some(Count(s.counter, dest))
    ensures r.1.Some? && r.1.value.copy.Some? && 0 < |it.src| && AllAlnum(it.src) ==>
      && r.1.value.copy.value.name !in env.names(RealQueueDir(root, target, dest)) + Made(s.copies, dest)
      && Ignored(Child(RealQueueDir(root, target, dest), r.1.value.copy.value.name))
    ensures forall d :: d != dest ==> Made(r.0.state.copies, d) == Made(s.copies, d)
    ensures Made(r.0.state.copies, dest) ==
      Made(s.copies, dest) + (if r.1.Some? && r.1.value.copy.Some? && r.1.value.copy.value.done then [r.1.value.copy.value.name] else [])
  {
    if scheme.LinkOnly? && dest !in env.fuzzers then (Raised(s, KeyError), None)
    else
      var (name, counter) := NewAflFilename(s.counter, dest, scheme, it.src);
      var s1 := s.(counter := counter);
      if !env.symlinkOk(Child(LinkDir(root, target, dest), name)) then (Raised(s1, OSError), None)
      else if scheme.LinkOnly? then (Done(s1), Some(Delivery(dest, it, name, None)))
      else
        var (s2, c) := CopyInto(s1, root, target, dest, it.src, env);
        (Done(s2), Some(Delivery(dest, it, name, Some(c))))
  }

  // ----- phase two: deliveries -----

  /**
   * How phase two may move from `s` to `s'` while making the deliveries `ds`: each one
   * hands a destination a digest its ledger lacked and now holds, no destination gets a
   * digest twice, ledgers only grow, and phase one's bookkeeping is untouched.
   */
  ghost predicate Delivered(s: SyncState, s': SyncState, ds: seq<Delivery>) {
    && LedgerGrows(s.ledger, s'.ledger)
    && (forall k :: 0 <= k < |ds| ==>
          ds[k].dest in s.ledger && ds[k].item.hash !in s.ledger[ds[k].dest] && ds[k].item.hash in s'.ledger[ds[k].dest])
    && (forall i, j :: 0 <= i < j < |ds| && ds[i].dest == ds[j].dest ==> ds[i].item.hash != ds[j].item.hash)
    && s'.seen == s.seen && s'.reg == s.reg && s'.lastIndex == s.lastIndex && s'.cache == s.cache
  }

  /**
   * The link names of `ds` were drawn from the counters between `c` and `c'`, in increasing
   * order per destination, so no two of them, and none made before, share a name.
   */
  ghost predicate LinksFresh(scheme: Scheme, ds: seq<Delivery>, c: map<string, nat>, c': map<string, nat>) {
    && (forall d :: Count(c, d) <= Count(c', d))
    && (forall k :: 0 <= k < |ds| && Named(scheme, ds[k]) ==>
          IdOf(ds[k].link).Some? && Count(c, ds[k].dest) <= IdOf(ds[k].link).value < Count(c', ds[k].dest))
    && (forall i, j :: 0 <= i < j < |ds| && ds[i].dest == ds[j].dest && Named(scheme, ds[i]) && Named(scheme, ds[j]) ==>
          IdOf(ds[i].link).value < IdOf(ds[j].link).value)
  }

  lemma DeliveredTrans(s1: SyncState, s2: SyncState, s3: SyncState, a: seq<Delivery>, b: seq<Delivery>)
    requires Delivered(s1, s2, a) && Delivered(s2, s3, b)
    ensures Delivered(s1, s3, a + b)
  {
    var ab := a + b;
    forall k | 0 <= k < |ab|
      ensures ab[k].dest in s1.ledger && ab[k].item.hash !in s1.ledger[ab[k].dest] && ab[k].item.hash in s3.ledger[ab[k].dest]
    {
      if k >= |a| { assert ab[k] == b[k - |a|]; }
    }
    forall i, j | 0 <= i < j < |ab| && ab[i].dest == ab[j].dest
      ensures ab[i].item.hash != ab[j].item.hash
    {
      if i < |a| && j >= |a| { assert ab[j] == b[j - |a|]; }
      else if i >= |a| { assert ab[i] == b[i - |a|] && ab[j] == b[j - |a|]; }
    }
  }

  lemma LinksFreshTrans(scheme: Scheme, a: seq<Delivery>, b: seq<Delivery>, c1: map<string, nat>, c2: map<string, nat>, c3: map<string, nat>)
    requires LinksFresh(scheme, a, c1, c2) && LinksFresh(scheme, b, c2, c3)
    ensures LinksFresh(scheme, a + b, c1, c3)
  {
    var ab := a + b;
    forall k | 0 <= k < |ab| && Named(scheme, ab[k])
      ensures IdOf(ab[k].link).Some? && Count(c1, ab[k].dest) <= IdOf(ab[k].link).value < Count(c3, ab[k].dest)
    {
      if k >= |a| { assert ab[k] == b[k - |a|]; }
      assert Count(c1, ab[k].dest) <= Count(c2, ab[k].dest) <= Count(c3, ab[k].dest);
    }
    forall i, j | 0 <= i < j < |ab| && ab[i].dest == ab[j].dest && Named(scheme, ab[i]) && Named(scheme, ab[j])
      ensures IdOf(ab[i].link).value < IdOf(ab[j].link).value
    {
      if i < |a| && j >= |a| { assert ab[j] == b[j - |a|]; }
      else if i >= |a| { assert ab[i] == b[i - |a|] && ab[j] == b[j - |a|]; }
    }
  }

  /** Nothing delivered: the state is as it was, but for the ledgers growing by one destination. */
  lemma DeliveredNone(s: SyncState, s': SyncState)
    requires LedgerGrows(s.ledger, s'.ledger)
    requires s'.seen == s.seen && s'.reg == s.reg && s'.lastIndex == s.lastIndex && s'.cache == s.cache
    requires forall d :: Count(s.counter, d) <= Count(s'.counter, d)
    ensures Delivered(s, s', []) && LinksFresh(Scheme.LinkOnly, [], s.counter, s'.counter)
    ensures LinksFresh(Scheme.LinkAndCopy, [], s.counter, s'.counter)
  {
  }

  /** The digests handed to `dest` by the deliveries `ds`. */
  function Sent(ds: seq<Delivery>, dest: string): set<Hash>
    decreases |ds|
  {
    if |ds| == 0 then {}
    else (if ds[0].dest == dest then {ds[0].item.hash} else {}) + Sent(ds[1..], dest)
  }

  lemma {:induction false} SentAppend(a: seq<Delivery>, b: seq<Delivery>, dest: string)
    ensures Sent(a + b, dest) == Sent(a, dest) + Sent(b, dest)
    decreases |a|
  {
    if |a| > 0 {
      assert (a + b)[1..] == a[1..] + b;
      SentAppend(a[1..], b, dest);
    } else {
      assert a + b == b;
    }
  }

  /** Deliveries all made to one destination send nothing to any other. */
  lemma {:induction false} SentElsewhere(ds: seq<Delivery>, dest: string, other: string)
    requires other != dest && forall k :: 0 <= k < |ds| ==> ds[k].dest == dest
    ensures Sent(ds, other) == {}
    decreases |ds|
  {
    if |ds| > 0 {
      SentElsewhere(ds[1..], dest, other);
    }
  }

  lemma HashesOfCons(items: seq<Item>)
    requires |items| > 0
    ensures HashesOf(items) == {items[0].hash} + HashesOf(items[1..])
  {
    assert items == [items[0]] + items[1..];
    HashesOfAppend([items[0]], items[1..]);
    assert [items[0]][0].hash == items[0].hash;
    assert HashesOf([items[0]]) == {items[0].hash};
  }

  /**
   * One seed for one destination: a digest the destination already holds is skipped;
   * otherwise it is recorded in the destination's ledger first, then delivered.
   */
  function DeliverOne(s: SyncState, scheme: Scheme, root: string, target: string, dest: string, it: Item, env: Env): (r: (Outcome<SyncState>, seq<Delivery>))
    requires dest in s.ledger
    ensures r.0.state.ledger == s.ledger[dest := s.ledger[dest] + {it.hash}]
    ensures it.hash in s.ledger[dest] ==> r == (Done(s), [])
    ensures it.hash !in s.ledger[dest] ==> |r.1| == (if r.0.Done? then 1 else 0)
    ensures forall k :: 0 <= k < |r.1| ==> r.1[k].dest == dest && r.1[k].item == it
  {
    if it.hash in s.ledger[dest] then
      assert s.ledger[dest] + {it.hash} == s.ledger[dest];
      assert s.ledger[dest := s.ledger[dest] + {it.hash}] == s.ledger;
      (Done(s), [])
    else
      var s1 := s.(ledger := s.ledger[dest := s.ledger[dest] + {it.hash}]);
      var (o, d) := SyncTestCase(s1, scheme, root, target, dest, it, env);
      if o.Raised? then (o, []) else (o, [d.value])
  }

  /** One destination's pass over the staged seeds, stopping at the first delivery that raises. */
  function DeliverItems(s: SyncState, scheme: Scheme, root: string, target: string, dest: string, items: seq<Item>, env: Env): (r: (Outcome<SyncState>, seq<Delivery>))
    requires dest in s.ledger
    ensures r.0.state.ledger.Keys == s.ledger.Keys
    ensures forall g :: g in s.ledger && g != dest ==> r.0.state.ledger[g] == s.ledger[g]
    ensures forall k :: 0 <= k < |r.1| ==> r.1[k].dest == dest && r.1[k].item in items
    decreases |items|
  {
    if |items| == 0 then (Done(s), [])
    else
      var (o, d) := DeliverOne(s, scheme, root, target, dest, items[0], env);
      if o.Raised? then (o, d)
      else
        var r := DeliverItems(o.state, scheme, root, target, dest, items[1..], env);
        DeliveriesJoin(d, r.1, dest, items);
        (r.0, d + r.1)
  }

  /** A first delivery of `items[0]` followed by deliveries of later items are all deliveries of `items`. */
  lemma DeliveriesJoin(d: seq<Delivery>, e: seq<Delivery>, dest: string, items: seq<Item>)
    requires |items| > 0
    requires forall k :: 0 <= k < |d| ==> d[k].dest == dest && d[k].item == items[0]
    requires forall k :: 0 <= k < |e| ==> e[k].dest == dest && e[k].item in items[1..]
    ensures forall k :: 0 <= k < |d + e| ==> (d + e)[k].dest == dest && (d + e)[k].item in items
  {
    forall k | 0 <= k < |d + e| ensures (d + e)[k].dest == dest && (d + e)[k].item in items {
      if k >= |d| {
        assert (d + e)[k] == e[k - |d|];
      }
    }
  }

  /** Phase two: every listed destination in turn takes its pass over the staged seeds. */
  function Phase2(s: SyncState, scheme: Scheme, root: string, target: string, dests: seq<string>, items: seq<Item>, env: Env): (r: (Outcome<SyncState>, seq<Delivery>))
    requires forall i :: 0 <= i < |dests| ==> dests[i] in s.ledger
    ensures r.0.state.ledger.Keys == s.ledger.Keys
    ensures forall g :: g in s.ledger && g !in dests ==> r.0.state.ledger[g] == s.ledger[g]
    ensures forall k :: 0 <= k < |r.1| ==> r.1[k].dest in dests && r.1[k].item in items
    decreases |dests|
  {
    if |dests| == 0 then (Done(s), [])
    else
      var (o, d) := DeliverItems(s, scheme, root, target, dests[0], items, env);
      if o.Raised? then (o, d)
      else
        var r := Phase2(o.state, scheme, root, target, dests[1..], items, env);
        assert forall x :: x in dests[1..] ==> x in dests;
        (r.0, d + r.1)
  }

  // ----- phase two: what the deliveries guarantee -----

  /** Recording a digest in one worker's ledger is growth. */
  lemma LedgerAdd(ledger: map<string, set<Hash>>, dest: string, h: Hash)
    requires dest in ledger
    ensures LedgerGrows(ledger, ledger[dest := ledger[dest] + {h}])
  {
  }

  lemma DeliverOneDelivered(s: SyncState, scheme: Scheme, root: string, target: string, dest: string, it: Item, env: Env)
    requires dest in s.ledger
    ensures var r := DeliverOne(s, scheme, root, target, dest, it, env);
      Delivered(s, r.0.state, r.1) && LinksFresh(scheme, r.1, s.counter, r.0.state.counter)
  {
    var r := DeliverOne(s, scheme, root, target, dest, it, env);
    if it.hash in s.ledger[dest] {
      DeliveredNone(s, s);
    } else {
      var s1 := s.(ledger := s.ledger[dest := s.ledger[dest] + {it.hash}]);
      var (o, d) := SyncTestCase(s1, scheme, root, target, dest, it, env);
      assert r == (o, if o.Raised? then [] else [d.value]);
      LedgerAdd(s.ledger, dest, it.hash);
      assert o.state.ledger == s1.ledger;
      assert forall g :: Count(s.counter, g) <= Count(o.state.counter, g);
      if o.Raised? {
        DeliveredNone(s, o.state);
      } else {
        DeliveredSingle(s, o.state, d.value);
        LinksFreshSingle(scheme, d.value, s.counter, o.state.counter);
      }
    }
  }

  lemma DeliveredSingle(s: SyncState, s': SyncState, dl: Delivery)
    requires LedgerGrows(s.ledger, s'.ledger)
    requires dl.dest in s.ledger && dl.item.hash !in s.ledger[dl.dest] && dl.item.hash in s'.ledger[dl.dest]
    requires s'.seen == s.seen && s'.reg == s.reg && s'.lastIndex == s.lastIndex && s'.cache == s.cache
    ensures Delivered(s, s', [dl])
  {
  }

  lemma LinksFreshSingle(scheme: Scheme, dl: Delivery, c: map<string, nat>, c': map<string, nat>)
    requires forall g :: Count(c, g) <= Count(c', g)
    requires Count(c', dl.dest) == Count(c, dl.dest) + 1
    requires Named(scheme, dl) ==> IdOf(dl.link) == Some(Count(c, dl.dest))
    ensures LinksFresh(scheme, [dl], c, c')
  {
  }

  /** Each pass hands a destination only digests it lacked, each once, with fresh link names. */
  lemma {:induction false} DeliverItemsDelivered(s: SyncState, scheme: Scheme, root: string, target: string, dest: string, items: seq<Item>, env: Env)
    requires dest in s.ledger
    ensures var r := DeliverItems(s, scheme, root, target, dest, items, env);
      Delivered(s, r.0.state, r.1) && LinksFresh(scheme, r.1, s.counter, r.0.state.counter)
    decreases |items|
  {
    var r := DeliverItems(s, scheme, root, target, dest, items, env);
    if |items| == 0 {
      DeliveredNone(s, s);
    } else {
      var (o, d) := DeliverOne(s, scheme, root, target, dest, items[0], env);
      DeliverOneDelivered(s, scheme, root, target, dest, items[0], env);
      if o.Done? {
        var r' := DeliverItems(o.state, scheme, root, target, dest, items[1..], env);
        DeliverItemsDelivered(o.state, scheme, root, target, dest, items[1..], env);
        DeliveredTrans(s, o.state, r'.0.state, d, r'.1);
        LinksFreshTrans(scheme, d, r'.1, s.counter, o.state.counter, r'.0.state.counter);
      }
    }
  }

  /**
   * A pass that completes leaves every staged digest in the destination's ledger and has
   * sent exactly the staged digests the destination lacked.
   */
  lemma {:induction false} DeliverItemsComplete(s: SyncState, scheme: Scheme, root: string, target: string, dest: string, items: seq<Item>, env: Env)
    requires dest in s.ledger
    ensures var r := DeliverItems(s, scheme, root, target, dest, items, env);
      r.0.Done? ==> r.0.state.ledger[dest] == s.ledger[dest] + HashesOf(items) && Sent(r.1, dest) == HashesOf(items) - s.ledger[dest]
    decreases |items|
  {
    if |items| > 0 {
      var (o, d) := DeliverOne(s, scheme, root, target, dest, items[0], env);
      DeliverItemsCases(s, scheme, root, target, dest, items, env);
      if o.Done? {
        var r' := DeliverItems(o.state, scheme, root, target, dest, items[1..], env);
        DeliverItemsComplete(o.state, scheme, root, target, dest, items[1..], env);
        if r'.0.Done? {
          var h, L := items[0].hash, s.ledger[dest];
          SentOne(d, dest, h, L);
          HashesOfCons(items);
          PassStep(L, o.state.ledger[dest], r'.0.state.ledger[dest], h, HashesOf(items[1..]), d, r'.1, dest);
        }
      }
    }
  }

  /** A pass over a non-empty list is one delivery, followed by the rest of the pass unless it raised. */
  lemma DeliverItemsCases(s: SyncState, scheme: Scheme, root: string, target: string, dest: string, items: seq<Item>, env: Env)
    requires dest in s.ledger
    requires |items| > 0
    ensures var (o, d) := DeliverOne(s, scheme, root, target, dest, items[0], env);
      && (o.Raised? ==> DeliverItems(s, scheme, root, target, dest, items, env) == (o, d))
      && (o.Done? ==>
            var r' := DeliverItems(o.state, scheme, root, target, dest, items[1..], env);
            DeliverItems(s, scheme, root, target, dest, items, env) == (r'.0, d + r'.1))
  {
  }

  /** One step of a pass followed by the rest of it, in terms of ledgers and sent digests only. */
  lemma PassStep(L: set<Hash>, L1: set<Hash>, L2: set<Hash>, h: Hash, rest: set<Hash>, a: seq<Delivery>, b: seq<Delivery>, dest: string)
    requires L1 == L + {h} && L2 == L1 + rest
    requires Sent(a, dest) == {h} - L && Sent(b, dest) == rest - L1
    ensures L2 == L + ({h} + rest)
    ensures Sent(a + b, dest) == ({h} + rest) - L
  {
    SentAppend(a, b, dest);
    PassAlgebra(L, h, rest);
  }

  /** What one step of a pass sends: the seed's digest, unless the destination held it. */
  lemma SentOne(d: seq<Delivery>, dest: string, h: Hash, L: set<Hash>)
    requires h !in L ==> |d| == 1
    requires h in L ==> d == []
    requires forall k :: 0 <= k < |d| ==> d[k].dest == dest && d[k].item.hash == h
    ensures Sent(d, dest) == {h} - L
  {
    if |d| == 1 { assert d[1..] == []; }
  }

  /** The set algebra of one step of a pass followed by the rest of it. */
  lemma PassAlgebra(L: set<Hash>, h: Hash, rest: set<Hash>)
    ensures (L + {h}) + rest == L + ({h} + rest)
    ensures ({h} - L) + (rest - (L + {h})) == ({h} + rest) - L
  {
  }

  /** Phase two as a whole hands each destination only digests it lacked, each once. */
  lemma {:induction false} Phase2Delivered(s: SyncState, scheme: Scheme, root: string, target: string, dests: seq<string>, items: seq<Item>, env: Env)
    requires forall i :: 0 <= i < |dests| ==> dests[i] in s.ledger
    ensures var r := Phase2(s, scheme, root, target, dests, items, env);
      Delivered(s, r.0.state, r.1) && LinksFresh(scheme, r.1, s.counter, r.0.state.counter)
    decreases |dests|
  {
    if |dests| == 0 {
      DeliveredNone(s, s);
    } else {
      var (o, d) := DeliverItems(s, scheme, root, target, dests[0], items, env);
      DeliverItemsDelivered(s, scheme, root, target, dests[0], items, env);
      if o.Done? {
        var r' := Phase2(o.state, scheme, root, target, dests[1..], items, env);
        Phase2Delivered(o.state, scheme, root, target, dests[1..], items, env);
        DeliveredTrans(s, o.state, r'.0.state, d, r'.1);
        LinksFreshTrans(scheme, d, r'.1, s.counter, o.state.counter, r'.0.state.counter);
      }
    }
  }

  /**
   * A phase two that completes leaves every staged digest in every listed destination's
   * ledger and has sent each destination exactly the staged digests it lacked.
   */
  lemma {:induction false} Phase2Complete(s: SyncState, scheme: Scheme, root: string, target: string, dests: seq<string>, items: seq<Item>, env: Env, g: string)
    requires forall i :: 0 <= i < |dests| ==> dests[i] in s.ledger
    requires g in dests
    ensures var r := Phase2(s, scheme, root, target, dests, items, env);
      r.0.Done? ==> r.0.state.ledger[g] == s.ledger[g] + HashesOf(items) && Sent(r.1, g) == HashesOf(items) - s.ledger[g]
    decreases |dests|
  {
    var (o, d) := DeliverItems(s, scheme, root, target, dests[0], items, env);
    Phase2Cases(s, scheme, root, target, dests, items, env);
    if o.Done? {
      var r' := Phase2(o.state, scheme, root, target, dests[1..], items, env);
      if r'.0.Done? {
        DeliverItemsComplete(s, scheme, root, target, dests[0], items, env);
        if g != dests[0] {
          SentElsewhere(d, dests[0], g);
          assert g in dests[1..];
          Phase2Complete(o.state, scheme, root, target, dests[1..], items, env, g);
        } else if g in dests[1..] {
          Phase2Complete(o.state, scheme, root, target, dests[1..], items, env, g);
        } else {
          SentElsewhereAll(r'.1, dests[1..], g);
        }
        SentAppend(d, r'.1, g);
        Phase2StepAlgebra(s.ledger[g], o.state.ledger[g], r'.0.state.ledger[g], HashesOf(items), Sent(d, g), Sent(r'.1, g));
      }
    }
  }

  /**
   * The set algebra of one pass followed by the rest of phase two, as seen by one worker:
   * either the pass was for another worker, or it was for this one and the rest leaves it
   * complete or untouched.
   */
  lemma Phase2StepAlgebra(L: set<Hash>, L1: set<Hash>, L2: set<Hash>, H: set<Hash>, A: set<Hash>, B: set<Hash>)
    requires
      || (L1 == L && A == {} && L2 == L1 + H && B == H - L1)
      || (L1 == L + H && A == H - L && ((L2 == L1 + H && B == H - L1) || (L2 == L1 && B == {})))
    ensures L2 == L + H && A + B == H - L
  {
  }

  /** Phase two over a non-empty list is one pass, followed by the rest of phase two unless it raised. */
  lemma Phase2Cases(s: SyncState, scheme: Scheme, root: string, target: string, dests: seq<string>, items: seq<Item>, env: Env)
    requires forall i :: 0 <= i < |dests| ==> dests[i] in s.ledger
    requires |dests| > 0
    ensures var (o, d) := DeliverItems(s, scheme, root, target, dests[0], items, env);
      && (o.Raised? ==> Phase2(s, scheme, root, target, dests, items, env) == (o, d))
      && (o.Done? ==>
            && (forall i :: 0 <= i < |dests[1..]| ==> dests[1..][i] in o.state.ledger)
            && var r' := Phase2(o.state, scheme, root, target, dests[1..], items, env);
               Phase2(s, scheme, root, target, dests, items, env) == (r'.0, d + r'.1))
  {
  }

  /** Deliveries made only to other destinations send nothing to `g`. */
  lemma {:induction false} SentElsewhereAll(ds: seq<Delivery>, dests: seq<string>, g: string)
    requires g !in dests && forall k :: 0 <= k < |ds| ==> ds[k].dest in dests
    ensures Sent(ds, g) == {}
    decreases |ds|
  {
    if |ds| > 0 {
      SentElsewhereAll(ds[1..], dests, g);
    }
  }

  // ----- the tick -----

  /**
   * What a tick returns: how it ended and the state it left, the seeds phase one staged,
   * the deliveries phase two made, and whether it returned early because a worker's
   * watcher was not ready.
   */
  datatype TickResult = TickResult(outcome: Outcome<SyncState>, staged: seq<Item>, deliveries: seq<Delivery>, early: bool)

  /** The state a tick starts from once `init` has given every listed worker a ledger. */
  function Begin(s: SyncState, fuzzers: seq<string>): (s0: SyncState)
    ensures forall f :: f in fuzzers ==> f in s0.ledger
    ensures forall f :: f in s0.ledger ==> Held(s.ledger, f) == s0.ledger[f]
    ensures s0 == s.(ledger := s0.ledger)
  {
    s.(ledger := InitLedgers(s.ledger, fuzzers))
  }

  /** Phase one of a tick, from the state `init` left. */
  function Scanned(s: SyncState, root: string, target: string, fuzzers: seq<string>, env: Env): (p: Phase1)
    requires Valid(s.reg)
    ensures Valid(p.w.s.reg) && p.w.s.ledger.Keys == Begin(s, fuzzers).ledger.Keys
  {
    Phase1Run(Work(Begin(s, fuzzers), []), fuzzers, root, target, env)
  }

  /**
   * `sync2`: `init`, the target lookup, phase one over the listed workers and, unless it
   * stopped, phase two handing the staged seeds to every listed worker.
   */
  function Tick(s: SyncState, scheme: Scheme, root: string, target: string, fuzzers: seq<string>, env: Env): (t: TickResult)
    requires Valid(s.reg)
    ensures Valid(t.outcome.state.reg)
    ensures target !in env.targets ==> t == TickResult(Raised(Begin(s, fuzzers), KeyError), [], [], false)
    ensures t.early ==> t.outcome.Done? && t.deliveries == []
  {
    var s0 := Begin(s, fuzzers);
    if target !in env.targets then TickResult(Raised(s0, KeyError), [], [], false)
    else match Scanned(s, root, target, fuzzers, env)
      case Fail(w, e) => TickResult(Raised(w.s, e), w.staged, [], false)
      case Stop(w) => TickResult(Done(w.s), w.staged, [], true)
      case Go(w) =>
        var (o, ds) := Phase2(w.s, scheme, root, target, fuzzers, w.staged, env);
        Phase2Delivered(w.s, scheme, root, target, fuzzers, w.staged, env);
        TickResult(o, w.staged, ds, false)
  }

  // ----- what a tick guarantees -----

  /** The names of the listed workers, as a set. */
  function Workers(fuzzers: seq<string>): (ws: set<string>)
    ensures forall f :: f in ws <==> f in fuzzers
  {
    set k | 0 <= k < |fuzzers| :: fuzzers[k]
  }

  /**
   * A tick stages only digests never seen before, each once; `seen` grows by exactly
   * those digests; and each staged seed comes from a listed worker whose ledger records it.
   */
  lemma TickStaged(s: SyncState, scheme: Scheme, root: string, target: string, fuzzers: seq<string>, env: Env)
    requires Valid(s.reg)
    ensures var t := Tick(s, scheme, root, target, fuzzers, env);
      && Fresh(t.staged, s.seen)
      && t.outcome.state.seen == s.seen + HashesOf(t.staged)
      && forall k :: 0 <= k < |t.staged| ==> t.staged[k].src in fuzzers && Recorded(t.outcome.state.ledger, t.staged[k])
  {
    var s0 := Begin(s, fuzzers);
    if target !in env.targets {
      assert HashesOf([]) == {};
    } else {
      var p := Scanned(s, root, target, fuzzers, env);
      Phase1RunGrew(Work(s0, []), fuzzers, Workers(fuzzers), root, target, env);
      if p.Go? {
        TickCases(s, scheme, root, target, fuzzers, env);
        var r := Phase2(p.w.s, scheme, root, target, fuzzers, p.w.staged, env);
        Phase2Delivered(p.w.s, scheme, root, target, fuzzers, p.w.staged, env);
        StagedAfter(s, p.w, r.0.state, fuzzers);
      } else {
        TickStopped(s, scheme, root, target, fuzzers, env);
        StagedAfter(s, p.w, p.w.s, fuzzers);
      }
    }
  }

  /**
   * Every delivery in `ds` hands a listed worker a seed of `staged` whose digest it did not
   * hold in `s` and holds in `s'`, never to the worker the seed came from, and never the
   * same digest twice to one worker; the ledgers only grow from `s` to `s'`.
   */
  ghost predicate DeliveredFrom(s: SyncState, s': SyncState, staged: seq<Item>, ds: seq<Delivery>, fuzzers: seq<string>) {
    && (forall f :: f in s.ledger ==> f in s'.ledger && s.ledger[f] <= s'.ledger[f])
    && (forall k :: 0 <= k < |ds| ==>
          && ds[k].dest in fuzzers && ds[k].item in staged && ds[k].dest != ds[k].item.src
          && ds[k].item.hash !in Held(s.ledger, ds[k].dest)
          && ds[k].dest in s'.ledger && ds[k].item.hash in s'.ledger[ds[k].dest])
    && (forall i, j :: 0 <= i < j < |ds| && ds[i].dest == ds[j].dest ==> ds[i].item.hash != ds[j].item.hash)
  }

  /**
   * Every delivery of a tick hands a listed worker a seed staged in the same tick whose
   * digest it did not hold when the tick began and holds now, never to the worker the
   * seed came from, and never the same digest twice to one worker; the ledgers only grow.
   */
  lemma TickDelivered(s: SyncState, scheme: Scheme, root: string, target: string, fuzzers: seq<string>, env: Env)
    requires Valid(s.reg)
    ensures var t := Tick(s, scheme, root, target, fuzzers, env);
      DeliveredFrom(s, t.outcome.state, t.staged, t.deliveries, fuzzers)
  {
    var s0 := Begin(s, fuzzers);
    if target in env.targets {
      var p := Scanned(s, root, target, fuzzers, env);
      Phase1RunGrew(Work(s0, []), fuzzers, Workers(fuzzers), root, target, env);
      if p.Go? {
        TickCases(s, scheme, root, target, fuzzers, env);
        var r := Phase2(p.w.s, scheme, root, target, fuzzers, p.w.staged, env);
        Phase2Delivered(p.w.s, scheme, root, target, fuzzers, p.w.staged, env);
        DeliveredAfter(s, p.w, r.0.state, r.1, fuzzers);
      } else {
        TickStopped(s, scheme, root, target, fuzzers, env);
        DeliveredAfter(s, p.w, p.w.s, [], fuzzers);
      }
    } else {
      BeginGrows(s, fuzzers);
    }
  }

  /** Starting a tick only adds empty ledgers. */
  lemma BeginGrows(s: SyncState, fuzzers: seq<string>)
    ensures DeliveredFrom(s, Begin(s, fuzzers), [], [], fuzzers)
  {
  }

  /** What phase two delivered, seen from the state a tick began in. */
  lemma DeliveredAfter(s: SyncState, w: Work, s': SyncState, ds: seq<Delivery>, fuzzers: seq<string>)
    requires Grew(Work(Begin(s, fuzzers), []), w, Workers(fuzzers))
    requires Delivered(w.s, s', ds)
    requires forall k :: 0 <= k < |ds| ==> ds[k].dest in fuzzers && ds[k].item in w.staged
    ensures DeliveredFrom(s, s', w.staged, ds, fuzzers)
  {
    assert w.staged[0..] == w.staged;
    NoSelfDelivery(w.s.ledger, w.staged, ds);
  }

  /** A delivery of a digest the destination lacked never goes back to a worker that recorded it. */
  lemma NoSelfDelivery(ledger: map<string, set<Hash>>, staged: seq<Item>, ds: seq<Delivery>)
    requires forall k :: 0 <= k < |staged| ==> Recorded(ledger, staged[k])
    requires forall k :: 0 <= k < |ds| ==> ds[k].item in staged && ds[k].dest in ledger && ds[k].item.hash !in ledger[ds[k].dest]
    ensures forall k :: 0 <= k < |ds| ==> ds[k].dest != ds[k].item.src
  {
    forall k | 0 <= k < |ds| ensures ds[k].dest != ds[k].item.src {
      var i :| 0 <= i < |staged| && staged[i] == ds[k].item;
    }
  }

  /** The link names of a tick's deliveries are fresh: drawn in increasing order from the counters it advanced. */
  lemma TickLinksFresh(s: SyncState, scheme: Scheme, root: string, target: string, fuzzers: seq<string>, env: Env)
    requires Valid(s.reg)
    ensures var t := Tick(s, scheme, root, target, fuzzers, env);
      LinksFresh(scheme, t.deliveries, s.counter, t.outcome.state.counter)
  {
    var t := Tick(s, scheme, root, target, fuzzers, env);
    var s0 := Begin(s, fuzzers);
    if target in env.targets {
      var p := Scanned(s, root, target, fuzzers, env);
      Phase1RunGrew(Work(s0, []), fuzzers, Workers(fuzzers), root, target, env);
      if p.Go? {
        TickCases(s, scheme, root, target, fuzzers, env);
        Phase2Delivered(p.w.s, scheme, root, target, fuzzers, p.w.staged, env);
      } else {
        TickStopped(s, scheme, root, target, fuzzers, env);
      }
    }
  }

  /**
   * A tick that runs to the end leaves every staged digest in every listed worker's
   * ledger, and has sent each listed worker exactly the staged digests it did not hold
   * once phase one was over.
   */
  lemma TickComplete(s: SyncState, scheme: Scheme, root: string, target: string, fuzzers: seq<string>, env: Env, g: string)
    requires Valid(s.reg) && g in fuzzers
    ensures var t := Tick(s, scheme, root, target, fuzzers, env);
      t.outcome.Done? && !t.early ==>
        && HashesOf(t.staged) <= t.outcome.state.ledger[g]
        && Sent(t.deliveries, g) == HashesOf(t.staged) - Scanned(s, root, target, fuzzers, env).w.s.ledger[g]
  {
    TickFinished(s, scheme, root, target, fuzzers, env);
    if target in env.targets {
      var p := Scanned(s, root, target, fuzzers, env);
      if p.Go? {
        TickCases(s, scheme, root, target, fuzzers, env);
        Phase2Complete(p.w.s, scheme, root, target, fuzzers, p.w.staged, env, g);
      }
    }
  }

  // ----- settled states: a tick with nothing new to read -----

  /**
   * A worker whose output directory is handled and whose every watcher has been read to
   * the end of its queue.
   */
  ghost predicate SettledFor(s: SyncState, root: string, target: string, f: string) {
    && WorkerDir(root, target, f) in s.reg.processed
    && f in s.reg.watchers
    && forall k :: 0 <= k < |s.reg.watchers[f]| ==>
         && s.reg.watchers[f][k] < |s.reg.pool| && s.reg.watchers[f][k] in s.lastIndex
         && s.lastIndex[s.reg.watchers[f][k]] == |s.reg.pool[s.reg.watchers[f][k]].queue|
  }

  ghost predicate Settled(s: SyncState, root: string, target: string, fuzzers: seq<string>) {
    forall k :: 0 <= k < |fuzzers| ==> SettledFor(s, root, target, fuzzers[k])
  }

  /** Watchers read to the end of their queues have no window left: the scan changes nothing. */
  lemma {:induction false} ScanWatchersQuiet(w: Work, f: string, ids: seq<nat>, env: Env)
    requires f in w.s.ledger
    requires forall k :: 0 <= k < |ids| ==>
      ids[k] < |w.s.reg.pool| && ids[k] in w.s.lastIndex && w.s.lastIndex[ids[k]] == |w.s.reg.pool[ids[k]].queue|
    ensures ScanWatchers(w, f, ids, env) == Done(w)
    decreases |ids|
  {
    if |ids| > 0 {
      var id := ids[0];
      var q := w.s.reg.pool[id].queue;
      assert ScanRange(w, f, q, |q| + 1, env) == Done(w);
      assert w.s.lastIndex[id := |q|] == w.s.lastIndex;
      assert ScanOne(w, f, id, env) == Done(w);
      ScanWatchersQuiet(w, f, ids[1..], env);
    }
  }

  lemma Phase1StepQuiet(w: Work, f: string, root: string, target: string, env: Env)
    requires Valid(w.s.reg) && f in w.s.ledger && f in env.fuzzers
    requires SettledFor(w.s, root, target, f)
    ensures Phase1Step(w, f, root, target, env) == Go(w)
  {
    var o := InitWatcher(w.s.reg, f, WorkerDir(root, target, f), env.resolve, env.listing);
    assert o == Done(w.s.reg);
    ScanWatchersQuiet(w, f, w.s.reg.watchers[f], env);
  }

  lemma {:induction false} Phase1RunQuiet(w: Work, fuzzers: seq<string>, root: string, target: string, env: Env)
    requires Valid(w.s.reg)
    requires forall k :: 0 <= k < |fuzzers| ==> fuzzers[k] in w.s.ledger && fuzzers[k] in env.fuzzers
    requires Settled(w.s, root, target, fuzzers)
    ensures Phase1Run(w, fuzzers, root, target, env) == Go(w)
    decreases |fuzzers|
  {
    if |fuzzers| > 0 {
      Phase1StepQuiet(w, fuzzers[0], root, target, env);
      assert forall k :: 1 <= k < |fuzzers| ==> fuzzers[1..][k - 1] == fuzzers[k];
      Phase1RunQuiet(w, fuzzers[1..], root, target, env);
    }
  }

  /** With nothing staged, phase two delivers nothing and changes nothing. */
  lemma {:induction false} Phase2Empty(s: SyncState, scheme: Scheme, root: string, target: string, dests: seq<string>, env: Env)
    requires forall i :: 0 <= i < |dests| ==> dests[i] in s.ledger
    ensures Phase2(s, scheme, root, target, dests, [], env) == (Done(s), [])
    decreases |dests|
  {
    if |dests| > 0 {
      assert DeliverItems(s, scheme, root, target, dests[0], [], env) == (Done(s), []);
      Phase2Empty(s, scheme, root, target, dests[1..], env);
      var none: seq<Delivery> := [];
      assert none + none == none;
    }
  }

  /**
   * A tick over settled workers that all have ledgers stages nothing, delivers nothing and
   * leaves the state exactly as it was.
   */
  lemma TickQuiet(s: SyncState, scheme: Scheme, root: string, target: string, fuzzers: seq<string>, env: Env)
    requires Valid(s.reg) && target in env.targets
    requires forall k :: 0 <= k < |fuzzers| ==> fuzzers[k] in s.ledger && fuzzers[k] in env.fuzzers
    requires Settled(s, root, target, fuzzers)
    ensures Tick(s, scheme, root, target, fuzzers, env) == TickResult(Done(s), [], [], false)
  {
    assert Begin(s, fuzzers).ledger == s.ledger;
    Phase1RunQuiet(Work(s, []), fuzzers, root, target, env);
    Phase2Empty(s, scheme, root, target, fuzzers, env);
  }

  /** Once a worker's step of phase one goes on, that worker is settled. */
  lemma Phase1StepSettles(w: Work, f: string, root: string, target: string, env: Env)
    requires Valid(w.s.reg) && f in w.s.ledger
    ensures var p := Phase1Step(w, f, root, target, env);
      p.Go? ==> SettledFor(p.w.s, root, target, f) && f in env.fuzzers
  {
    var p := Phase1Step(w, f, root, target, env);
    if p.Go? {
      var ids := p.w.s.reg.watchers[f];
      forall k | 0 <= k < |ids|
        ensures ids[k] in p.w.s.lastIndex && p.w.s.lastIndex[ids[k]] == |p.w.s.reg.pool[ids[k]].queue|
      {
        MarkAllMarks(w.s.lastIndex, ids, p.w.s.reg.pool, k);
      }
    }
  }

  /** Another worker's step of phase one keeps a settled worker settled. */
  lemma Phase1StepKeeps(w: Work, f: string, g: string, root: string, target: string, env: Env)
    requires Valid(w.s.reg) && AllAlive(w.s.reg) && f in w.s.ledger
    requires SettledFor(w.s, root, target, g)
    ensures var p := Phase1Step(w, f, root, target, env);
      p.Go? ==> SettledFor(p.w.s, root, target, g)
  {
    var p := Phase1Step(w, f, root, target, env);
    if p.Go? && g == f {
      Phase1StepSettles(w, f, root, target, env);
    } else if p.Go? {
      Phase1StepOthers(w, f, g, root, target, env);
      SettledKept(w.s, p.w.s, root, target, g, p.w.s.reg.watchers[f]);
    }
  }

  /** A step of phase one for `f` leaves the watchers of every other worker as they were. */
  lemma Phase1StepOthers(w: Work, f: string, g: string, root: string, target: string, env: Env)
    requires Valid(w.s.reg) && f in w.s.ledger && g != f && g in w.s.reg.watchers
    ensures var p := Phase1Step(w, f, root, target, env);
      p.Go? ==> (g in p.w.s.reg.watchers && p.w.s.reg.watchers[g] == w.s.reg.watchers[g]
                 && w.s.reg.processed <= p.w.s.reg.processed)
  {
    var o := InitWatcher(w.s.reg, f, WorkerDir(root, target, f), env.resolve, env.listing);
    if o.Done? && WorkerDir(root, target, f) !in w.s.reg.processed {
      assert o.state.watchers == w.s.reg.watchers[f := o.state.watchers[f]];
    }
  }

  /** Marking other watchers keeps a settled worker settled when its watchers and their queues are unchanged. */
  lemma SettledKept(s: SyncState, s': SyncState, root: string, target: string, g: string, ids: seq<nat>)
    requires SettledFor(s, root, target, g)
    requires g in s'.reg.watchers && s'.reg.watchers[g] == s.reg.watchers[g]
    requires s.reg.processed <= s'.reg.processed
    requires |s.reg.pool| <= |s'.reg.pool| && forall id :: 0 <= id < |s.reg.pool| ==> s'.reg.pool[id] == s.reg.pool[id]
    requires forall k :: 0 <= k < |ids| ==> ids[k] < |s'.reg.pool|
    requires s'.lastIndex == MarkAll(s.lastIndex, ids, s'.reg.pool)
    ensures SettledFor(s', root, target, g)
  {
    var mine := s.reg.watchers[g];
    forall k | 0 <= k < |mine|
      ensures mine[k] in s'.lastIndex && s'.lastIndex[mine[k]] == |s'.reg.pool[mine[k]].queue|
    {
      MarkedStaysSettled(s.lastIndex, ids, s'.reg.pool, s.reg.pool, mine[k]);
    }
  }

  /** A watcher read to the end of its queue stays so when others are marked, its queue unchanged. */
  lemma MarkedStaysSettled(lastIndex: map<nat, nat>, ids: seq<nat>, pool: seq<WatcherState>, before: seq<WatcherState>, id: nat)
    requires forall k :: 0 <= k < |ids| ==> ids[k] < |pool|
    requires id < |before| <= |pool| && pool[id] == before[id]
    requires id in lastIndex && lastIndex[id] == |before[id].queue|
    ensures id in MarkAll(lastIndex, ids, pool) && MarkAll(lastIndex, ids, pool)[id] == |pool[id].queue|
  {
    if id in ids {
      var j :| 0 <= j < |ids| && ids[j] == id;
      MarkAllMarks(lastIndex, ids, pool, j);
    } else {
      MarkAllKeeps(lastIndex, ids, pool, id);
    }
  }

  /** One step of phase one, and the run over the remaining workers that follows a step that goes on. */
  lemma Phase1RunCases(w: Work, fuzzers: seq<string>, root: string, target: string, env: Env)
    requires Valid(w.s.reg)
    requires forall k :: 0 <= k < |fuzzers| ==> fuzzers[k] in w.s.ledger
    requires |fuzzers| > 0
    ensures var p1 := Phase1Step(w, fuzzers[0], root, target, env);
      && (!p1.Go? ==> Phase1Run(w, fuzzers, root, target, env) == p1)
      && (p1.Go? ==>
            && Valid(p1.w.s.reg)
            && (forall k :: 0 <= k < |fuzzers[1..]| ==> fuzzers[1..][k] in p1.w.s.ledger)
            && Phase1Run(w, fuzzers, root, target, env) == Phase1Run(p1.w, fuzzers[1..], root, target, env))
  {
    assert forall k :: 1 <= k < |fuzzers| ==> fuzzers[1..][k - 1] == fuzzers[k];
  }

  lemma {:induction false} Phase1RunKeeps(w: Work, fuzzers: seq<string>, g: string, root: string, target: string, env: Env)
    requires Valid(w.s.reg) && AllAlive(w.s.reg)
    requires forall k :: 0 <= k < |fuzzers| ==> fuzzers[k] in w.s.ledger
    requires SettledFor(w.s, root, target, g)
    ensures var p := Phase1Run(w, fuzzers, root, target, env);
      p.Go? ==> SettledFor(p.w.s, root, target, g)
    decreases |fuzzers|
  {
    if |fuzzers| > 0 {
      var p1 := Phase1Step(w, fuzzers[0], root, target, env);
      Phase1StepKeeps(w, fuzzers[0], g, root, target, env);
      Phase1RunCases(w, fuzzers, root, target, env);
      if p1.Go? {
        Phase1RunKeeps(p1.w, fuzzers[1..], g, root, target, env);
      }
    }
  }

  /** A phase one that goes on to phase two leaves every listed worker settled and known. */
  lemma {:induction false} Phase1RunSettles(w: Work, fuzzers: seq<string>, k: nat, root: string, target: string, env: Env)
    requires Valid(w.s.reg) && AllAlive(w.s.reg)
    requires forall k :: 0 <= k < |fuzzers| ==> fuzzers[k] in w.s.ledger
    requires k < |fuzzers|
    ensures var p := Phase1Run(w, fuzzers, root, target, env);
      p.Go? ==> SettledFor(p.w.s, root, target, fuzzers[k]) && fuzzers[k] in env.fuzzers
    decreases |fuzzers|
  {
    var p1 := Phase1Step(w, fuzzers[0], root, target, env);
    Phase1StepSettles(w, fuzzers[0], root, target, env);
    Phase1RunCases(w, fuzzers, root, target, env);
    if p1.Go? {
      if k == 0 {
        Phase1RunKeeps(p1.w, fuzzers[1..], fuzzers[0], root, target, env);
      } else {
        assert fuzzers[1..][k - 1] == fuzzers[k];
        Phase1RunSettles(p1.w, fuzzers[1..], k - 1, root, target, env);
      }
    }
  }

  lemma Phase1RunSettledAll(w: Work, fuzzers: seq<string>, root: string, target: string, env: Env)
    requires Valid(w.s.reg) && AllAlive(w.s.reg)
    requires forall k :: 0 <= k < |fuzzers| ==> fuzzers[k] in w.s.ledger
    ensures var p := Phase1Run(w, fuzzers, root, target, env);
      p.Go? ==> Settled(p.w.s, root, target, fuzzers) && forall k :: 0 <= k < |fuzzers| ==> fuzzers[k] in env.fuzzers
  {
    forall k | 0 <= k < |fuzzers|
      ensures var p := Phase1Run(w, fuzzers, root, target, env);
        p.Go? ==> SettledFor(p.w.s, root, target, fuzzers[k]) && fuzzers[k] in env.fuzzers
    {
      Phase1RunSettles(w, fuzzers, k, root, target, env);
    }
  }

  /** Settledness depends only on the registry and the read positions. */
  lemma SettledSame(s: SyncState, s': SyncState, root: string, target: string, fuzzers: seq<string>)
    requires Settled(s, root, target, fuzzers)
    requires s'.reg == s.reg && s'.lastIndex == s.lastIndex
    ensures Settled(s', root, target, fuzzers)
  {
  }

  /** A tick that finishes normally found the target and got past phase one. */
  lemma TickFinished(s: SyncState, scheme: Scheme, root: string, target: string, fuzzers: seq<string>, env: Env)
    requires Valid(s.reg)
    ensures var t := Tick(s, scheme, root, target, fuzzers, env);
      t.outcome.Done? && !t.early ==> target in env.targets && Scanned(s, root, target, fuzzers, env).Go?
  {
  }

  /** A tick that gets past phase one ends with what phase two returned. */
  lemma TickCases(s: SyncState, scheme: Scheme, root: string, target: string, fuzzers: seq<string>, env: Env)
    requires Valid(s.reg)
    requires target in env.targets && Scanned(s, root, target, fuzzers, env).Go?
    ensures var w := Scanned(s, root, target, fuzzers, env).w;
      var r := Phase2(w.s, scheme, root, target, fuzzers, w.staged, env);
      Tick(s, scheme, root, target, fuzzers, env) == TickResult(r.0, w.staged, r.1, false)
  {
  }

  /** A tick whose phase one does not go on ends with what phase one left, having delivered nothing. */
  lemma TickStopped(s: SyncState, scheme: Scheme, root: string, target: string, fuzzers: seq<string>, env: Env)
    requires Valid(s.reg)
    requires target in env.targets && !Scanned(s, root, target, fuzzers, env).Go?
    ensures var t := Tick(s, scheme, root, target, fuzzers, env);
      var w := Scanned(s, root, target, fuzzers, env).w;
      t.staged == w.staged && t.deliveries == [] && t.outcome.state == w.s
  {
  }

  /** What phase one staged, and what phase two keeps of it, seen from the state a tick began in. */
  lemma StagedAfter(s: SyncState, w: Work, s': SyncState, fuzzers: seq<string>)
    requires Grew(Work(Begin(s, fuzzers), []), w, Workers(fuzzers))
    requires LedgerGrows(w.s.ledger, s'.ledger) && s'.seen == w.s.seen
    ensures Fresh(w.staged, s.seen)
    ensures s'.seen == s.seen + HashesOf(w.staged)
    ensures forall k :: 0 <= k < |w.staged| ==> w.staged[k].src in fuzzers && Recorded(s'.ledger, w.staged[k])
  {
    assert w.staged[0..] == w.staged;
  }

  /**
   * A tick that runs to the end, from a registry whose watchers are all started, leaves
   * every listed worker settled.
   */
  lemma TickSettles(s: SyncState, scheme: Scheme, root: string, target: string, fuzzers: seq<string>, env: Env)
    requires Valid(s.reg) && AllAlive(s.reg)
    ensures var t := Tick(s, scheme, root, target, fuzzers, env);
      t.outcome.Done? && !t.early ==> Settled(t.outcome.state, root, target, fuzzers)
  {
    TickFinished(s, scheme, root, target, fuzzers, env);
    if target in env.targets {
      var p := Scanned(s, root, target, fuzzers, env);
      if p.Go? {
        TickCases(s, scheme, root, target, fuzzers, env);
        ScannedSettles(s, root, target, fuzzers, env);
        var r := Phase2(p.w.s, scheme, root, target, fuzzers, p.w.staged, env);
        Phase2Delivered(p.w.s, scheme, root, target, fuzzers, p.w.staged, env);
        SettledSame(p.w.s, r.0.state, root, target, fuzzers);
      }
    }
  }

  /** Phase one that runs to the end leaves every listed worker settled, and every listed worker is known. */
  lemma ScannedSettles(s: SyncState, root: string, target: string, fuzzers: seq<string>, env: Env)
    requires Valid(s.reg) && AllAlive(s.reg)
    ensures var p := Scanned(s, root, target, fuzzers, env);
      p.Go? ==> Settled(p.w.s, root, target, fuzzers) && forall k :: 0 <= k < |fuzzers| ==> fuzzers[k] in env.fuzzers
  {
    Phase1RunSettledAll(Work(Begin(s, fuzzers), []), fuzzers, root, target, env);
  }

  /** A tick leaves the watchers all started when it found them so. */
  lemma TickAlive(s: SyncState, scheme: Scheme, root: string, target: string, fuzzers: seq<string>, env: Env)
    requires Valid(s.reg) && AllAlive(s.reg)
    ensures AllAlive(Tick(s, scheme, root, target, fuzzers, env).outcome.state.reg)
  {
    var t := Tick(s, scheme, root, target, fuzzers, env);
    if target in env.targets {
      var w0 := Work(Begin(s, fuzzers), []);
      var p := Scanned(s, root, target, fuzzers, env);
      Phase1RunAlive(w0, fuzzers, root, target, env);
      if p.Go? {
        var r := Phase2(p.w.s, scheme, root, target, fuzzers, p.w.staged, env);
        Phase2Delivered(p.w.s, scheme, root, target, fuzzers, p.w.staged, env);
        assert t.outcome == r.0;
      }
    }
  }

  /** A tick that runs to the end found the target and every listed worker configured, and left each a ledger. */
  lemma TickKnown(s: SyncState, scheme: Scheme, root: string, target: string, fuzzers: seq<string>, env: Env)
    requires Valid(s.reg) && AllAlive(s.reg)
    ensures var t := Tick(s, scheme, root, target, fuzzers, env);
      t.outcome.Done? && !t.early ==>
        && target in env.targets
        && forall k :: 0 <= k < |fuzzers| ==> fuzzers[k] in t.outcome.state.ledger && fuzzers[k] in env.fuzzers
  {
    TickFinished(s, scheme, root, target, fuzzers, env);
    if target in env.targets && Scanned(s, root, target, fuzzers, env).Go? {
      TickCases(s, scheme, root, target, fuzzers, env);
      ScannedSettles(s, root, target, fuzzers, env);
    }
  }

  /**
   * A second tick straight after one that ran to the end, with no new queue entries in
   * between, stages nothing, delivers nothing and changes nothing, whatever the file
   * system now holds.
   */
  lemma TickIdempotent(s: SyncState, scheme: Scheme, root: string, target: string, fuzzers: seq<string>, env: Env, env2: Env)
    requires Valid(s.reg) && AllAlive(s.reg)
    requires Tick(s, scheme, root, target, fuzzers, env).outcome.Done? && !Tick(s, scheme, root, target, fuzzers, env).early
    requires env2.targets == env.targets && env2.fuzzers == env.fuzzers
    ensures var s1 := Tick(s, scheme, root, target, fuzzers, env).outcome.state;
      Tick(s1, scheme, root, target, fuzzers, env2) == TickResult(Done(s1), [], [], false)
  {
    TickSettles(s, scheme, root, target, fuzzers, env);
    TickKnown(s, scheme, root, target, fuzzers, env);
    TickQuiet(Tick(s, scheme, root, target, fuzzers, env).outcome.state, scheme, root, target, fuzzers, env2);
  }

  // ----- the skipped entry -----

  /** A window starting after index `j` never reads the entry at `j`. */
  lemma {:induction false} ScanRangeSkipsBefore(w: Work, f: string, q: seq<string>, i: nat, j: nat, x: string, env: Env)
    requires f in w.s.ledger && j < i && j < |q|
    ensures ScanRange(w, f, q, i, env) == ScanRange(w, f, q[j := x], i, env)
    decreases |q| - i
  {
    if i < |q| {
      assert q[j := x][i] == q[i];
      var o := Examine(w, f, q[i], env);
      if o.Done? {
        ScanRangeSkipsBefore(o.state, f, q, i + 1, j, x, env);
      }
    }
  }

  // ----- across ticks -----

  lemma FreshAppend(a: seq<Item>, b: seq<Item>, seen: set<Hash>)
    requires Fresh(a, seen) && Fresh(b, seen + HashesOf(a))
    ensures Fresh(a + b, seen)
  {
    var ab := a + b;
    forall i, j | 0 <= i < j < |ab| ensures ab[i].hash != ab[j].hash {
      if i < |a| && j >= |a| {
        assert ab[i].hash in HashesOf(a);
        assert ab[j] == b[j - |a|];
      } else if i >= |a| {
        assert ab[i] == b[i - |a|] && ab[j] == b[j - |a|];
      }
    }
    forall i | 0 <= i < |ab| ensures ab[i].hash !in seen {
      if i >= |a| { assert ab[i] == b[i - |a|]; }
    }
  }

  /** Deliveries of digests the destinations lacked after earlier deliveries repeat none of them. */
  lemma DistinctAcross(a: seq<Delivery>, b: seq<Delivery>, ledger: map<string, set<Hash>>)
    requires forall k :: 0 <= k < |a| ==> a[k].dest in ledger && a[k].item.hash in ledger[a[k].dest]
    requires forall k :: 0 <= k < |b| ==> b[k].item.hash !in Held(ledger, b[k].dest)
    requires forall i, j :: 0 <= i < j < |a| && a[i].dest == a[j].dest ==> a[i].item.hash != a[j].item.hash
    requires forall i, j :: 0 <= i < j < |b| && b[i].dest == b[j].dest ==> b[i].item.hash != b[j].item.hash
    ensures var ab := a + b;
      forall i, j :: 0 <= i < j < |ab| && ab[i].dest == ab[j].dest ==> ab[i].item.hash != ab[j].item.hash
  {
    var ab := a + b;
    forall i, j | 0 <= i < j < |ab| && ab[i].dest == ab[j].dest ensures ab[i].item.hash != ab[j].item.hash {
      if i < |a| && j >= |a| {
        assert ab[j] == b[j - |a|];
      } else if i >= |a| {
        assert ab[i] == b[i - |a|] && ab[j] == b[j - |a|];
      }
    }
  }

  /**
   * Over two successive ticks no worker is handed the same digest twice, no digest is
   * staged twice, and every link name is fresh.
   */
  lemma TwoTicks(s: SyncState, scheme: Scheme, root: string, target: string, fuzzers: seq<string>, env: Env, env2: Env)
    requires Valid(s.reg)
    ensures var t1 := Tick(s, scheme, root, target, fuzzers, env);
      var t2 := Tick(t1.outcome.state, scheme, root, target, fuzzers, env2);
      var ds := t1.deliveries + t2.deliveries;
      && (forall i, j :: 0 <= i < j < |ds| && ds[i].dest == ds[j].dest ==> ds[i].item.hash != ds[j].item.hash)
      && Fresh(t1.staged + t2.staged, s.seen)
      && LinksFresh(scheme, ds, s.counter, t2.outcome.state.counter)
  {
    var t1 := Tick(s, scheme, root, target, fuzzers, env);
    var s1 := t1.outcome.state;
    var t2 := Tick(s1, scheme, root, target, fuzzers, env2);
    TickDelivered(s, scheme, root, target, fuzzers, env);
    TickDelivered(s1, scheme, root, target, fuzzers, env2);
    DistinctAcross(t1.deliveries, t2.deliveries, s1.ledger);
    TickStaged(s, scheme, root, target, fuzzers, env);
    TickStaged(s1, scheme, root, target, fuzzers, env2);
    FreshAppend(t1.staged, t2.staged, s.seen);
    TickLinksFresh(s, scheme, root, target, fuzzers, env);
    TickLinksFresh(s1, scheme, root, target, fuzzers, env2);
    LinksFreshTrans(scheme, t1.deliveries, t2.deliveries, s.counter, s1.counter, t2.outcome.state.counter);
  }
}
