/**
 * The process-wide watcher registries: the cache from configuration to watcher
 * (`CONFIG_WATCHERS`), the watchers registered per worker name (`WATCHERS`) and the
 * output directories already handled (`PROCESSED_DIR`). Watcher instances live in a pool
 * and are referred to by their index, which plays the part of object identity.
 */
module Registry {
  import opened Wrappers
  import opened MyType
  import opened Watcher

  datatype Registry = Registry(
    configs: seq<(WatcherConfig, nat)>, // cache entries, in insertion order
    pool: seq<WatcherState>,            // every watcher instance, by id
    watchers: map<string, seq<nat>>,    // watcher ids registered per worker name
    processed: set<string>)             // output directories already initialised

  /** Every id held by the registry names a watcher of the pool. */
  ghost predicate Valid(r: Registry) {
    && (forall k :: 0 <= k < |r.configs| ==> r.configs[k].1 < |r.pool|)
    && (forall f, k :: f in r.watchers && 0 <= k < |r.watchers[f]| ==> r.watchers[f][k] < |r.pool|)
  }

  /** Every watcher of the pool has been started (each is started as soon as it is registered). */
  ghost predicate AllAlive(r: Registry) {
    forall id :: 0 <= id < |r.pool| ==> r.pool[id].alive
  }

  const NoWatchers: Registry := Registry([], [], map[], {})

  /** `config in CONFIG_WATCHERS`: the id stored under the first key equal to `c`. */
  function Lookup(configs: seq<(WatcherConfig, nat)>, c: WatcherConfig, resolve: string -> string): (r: Option<nat>)
    ensures r.None? <==> forall k :: 0 <= k < |configs| ==> !ConfigEq(configs[k].0, c, resolve)
    ensures r.Some? ==> exists k :: 0 <= k < |configs| && ConfigEq(configs[k].0, c, resolve) && configs[k].1 == r.value
    decreases |configs|
  {
    if |configs| == 0 then None
    else if ConfigEq(configs[0].0, c, resolve) then Some(configs[0].1)
    else
      var r := Lookup(configs[1..], c, resolve);
      assert forall k :: 1 <= k < |configs| ==> configs[k] == configs[1..][k - 1];
      r
  }

  /** Configuration equality is transitive, so lookups of equal configurations agree. */
  lemma {:induction false} LookupRespectsEq(configs: seq<(WatcherConfig, nat)>, a: WatcherConfig, b: WatcherConfig, resolve: string -> string)
    requires ConfigEq(a, b, resolve)
    ensures Lookup(configs, a, resolve) == Lookup(configs, b, resolve)
    decreases |configs|
  {
    if |configs| > 0 && !ConfigEq(configs[0].0, a, resolve) {
      LookupRespectsEq(configs[1..], a, b, resolve);
    }
  }

  /**
   * `get_watcher`: the cached watcher of an equal configuration, or a new one registered
   * in the cache. Every `FuzzerType` has a watcher class, so the final `raise` of the
   * source cannot be reached.
   */
  function GetWatcher(r: Registry, c: WatcherConfig, resolve: string -> string): (res: (Registry, nat))
    requires Valid(r)
    ensures Valid(res.0) && res.1 < |res.0.pool|
    ensures res.0.watchers == r.watchers && res.0.processed == r.processed
    ensures Lookup(r.configs, c, resolve).Some? ==> res == (r, Lookup(r.configs, c, resolve).value)
    ensures Lookup(r.configs, c, resolve).None? ==>
      && res.1 == |r.pool|
      && res.0.pool == r.pool + [NewWatcher(c)]
      && res.0.configs == r.configs + [(c, res.1)]
  {
    match Lookup(r.configs, c, resolve)
    case Some(id) =>
      assert id < |r.pool|;
      (r, id)
    case None =>
      var id := |r.pool|;
      (r.(configs := r.configs + [(c, id)], pool := r.pool + [NewWatcher(c)]), id)
  }

  /** Asking again with an equal configuration returns the same instance and changes nothing. */
  lemma GetWatcherSameInstance(r: Registry, a: WatcherConfig, b: WatcherConfig, resolve: string -> string)
    requires Valid(r)
    requires ConfigEq(a, b, resolve)
    ensures var (r1, w1) := GetWatcher(r, a, resolve);
      GetWatcher(r1, b, resolve) == (r1, w1)
  {
    var (r1, w1) := GetWatcher(r, a, resolve);
    if Lookup(r.configs, a, resolve).None? {
      assert r1.configs[|r.configs|] == (a, w1);
      assert Lookup(r1.configs, a, resolve).Some?;
    }
    LookupRespectsEq(r1.configs, a, b, resolve);
    assert Lookup(r1.configs, a, resolve) == Some(w1) by {
      if Lookup(r.configs, a, resolve).None? {
        LookupAppended(r.configs, a, w1, resolve);
      }
    }
  }

  lemma {:induction false} LookupAppended(configs: seq<(WatcherConfig, nat)>, c: WatcherConfig, id: nat, resolve: string -> string)
    requires Lookup(configs, c, resolve).None?
    ensures Lookup(configs + [(c, id)], c, resolve) == Some(id)
    decreases |configs|
  {
    if |configs| == 0 {
    } else {
      assert (configs + [(c, id)])[1..] == configs[1..] + [(c, id)];
      LookupAppended(configs[1..], c, id, resolve);
    }
  }

  /**
   * The locked part of `init_watcher` once the type is known: fetch the configuration's
   * watcher, append it to the worker's list and start it.
   */
  function RegisterWatcher(r: Registry, fuzzer: string, c: WatcherConfig, resolve: string -> string,
                           listing: string -> seq<Entry>): (res: (Registry, nat))
    requires Valid(r) && fuzzer in r.watchers
    ensures var (r', id) := res;
      && Valid(r') && r'.processed == r.processed && |r.pool| <= |r'.pool|
      && id < |r'.pool| && r'.pool[id].alive
      && r'.watchers == r.watchers[fuzzer := r.watchers[fuzzer] + [id]]
    ensures AllAlive(r) ==> AllAlive(res.0) && forall id :: 0 <= id < |r.pool| ==> res.0.pool[id] == r.pool[id]
  {
    var (r2, id) := GetWatcher(r, c, resolve);
    var r3 := r2.(watchers := r2.watchers[fuzzer := r2.watchers[fuzzer] + [id]]);
    (r3.(pool := r3.pool[id := Start(r3.pool[id], listing)]), id)
  }

  /** The watcher ids registered for a worker; none before its first registration. */
  function Listed(watchers: map<string, seq<nat>>, fuzzer: string): seq<nat> {
    if fuzzer in watchers then watchers[fuzzer] else []
  }

  /**
   * `init_watcher`: nothing for an output directory already handled; otherwise make sure
   * the worker has a list, then (the enumeration raising `ValueError` for an unknown
   * name) register the configuration's watcher, start it and record the directory.
   */
  function InitWatcher(r: Registry, fuzzer: string, output: string, resolve: string -> string,
                       listing: string -> seq<Entry>): (o: Outcome<Registry>)
    requires Valid(r)
    ensures Valid(o.state)
    ensures |r.pool| <= |o.state.pool|
    ensures AllAlive(r) ==> AllAlive(o.state) && forall id :: 0 <= id < |r.pool| ==> o.state.pool[id] == r.pool[id]
    ensures output in r.processed ==> o == Done(r)
    ensures o.Raised? <==> output !in r.processed && FuzzerTypeOf(fuzzer).None?
    ensures o.Raised? ==> o == Raised(r.(watchers := r.watchers[fuzzer := Listed(r.watchers, fuzzer)]), ValueError)
    ensures o.Done? && output !in r.processed ==>
      && fuzzer in o.state.watchers && |o.state.watchers[fuzzer]| == |Listed(r.watchers, fuzzer)| + 1
      && o.state.watchers == r.watchers[fuzzer := o.state.watchers[fuzzer]]
      && o.state.watchers[fuzzer][..|Listed(r.watchers, fuzzer)|] == Listed(r.watchers, fuzzer)
      && o.state.processed == r.processed + {output}
      && o.state.pool[o.state.watchers[fuzzer][|Listed(r.watchers, fuzzer)|]].alive
  {
    if output in r.processed then Done(r)
    else
      var r1 := r.(watchers := r.watchers[fuzzer := Listed(r.watchers, fuzzer)]);
      ValidWithList(r, fuzzer);
      match FuzzerTypeOf(fuzzer)
      case None => Raised(r1, ValueError)
      case Some(ft) =>
        var (r2, id) := RegisterWatcher(r1, fuzzer, WatcherConfig(ft, output), resolve, listing);
        var ids := Listed(r.watchers, fuzzer);
        assert r2.watchers[fuzzer] == ids + [id];
        assert (ids + [id])[..|ids|] == ids && (ids + [id])[|ids|] == id;
        Done(r2.(processed := r2.processed + {output}))
  }

  lemma ValidWithList(r: Registry, fuzzer: string)
    requires Valid(r)
    ensures Valid(r.(watchers := r.watchers[fuzzer := Listed(r.watchers, fuzzer)]))
  {
  }

  /** A second `init_watcher` for the same output directory changes nothing. */
  lemma InitWatcherIdempotent(r: Registry, fuzzer: string, output: string, resolve: string -> string,
                              listing: string -> seq<Entry>, listing2: string -> seq<Entry>)
    requires Valid(r)
    ensures var o := InitWatcher(r, fuzzer, output, resolve, listing);
      o.Done? ==> InitWatcher(o.state, fuzzer, output, resolve, listing2) == Done(o.state)
  {
  }
}
