/** The enumerations and the watcher cache key shared by the watcher and the synchroniser. */
module MyType {
  import opened Wrappers
  import opened Strings

  /** The three supported workers. */
  datatype FuzzerType = AFLGo | DAFL | WindRanger

  /** The enumeration value of a worker type. */
  function Value(t: FuzzerType): (s: string)
    ensures 1 <= |s| && AllAlnum(s)
  {
    match t
    case AFLGo => "aflgo"
    case DAFL => "dafl"
    case WindRanger => "windranger"
  }

  /** `FuzzerType(s)`: `None` stands for the `ValueError` raised on any other string. */
  function FuzzerTypeOf(s: string): (r: Option<FuzzerType>)
    ensures r.Some? <==> (s == "aflgo" || s == "dafl" || s == "windranger")
    ensures r.Some? ==> Value(r.value) == s
  {
    if s == "aflgo" then Some(AFLGo)
    else if s == "dafl" then Some(DAFL)
    else if s == "windranger" then Some(WindRanger)
    else None
  }

  /** Looking a type up by its own value gives the type back. */
  lemma FuzzerTypeRoundTrip(t: FuzzerType)
    ensures FuzzerTypeOf(Value(t)) == Some(t)
  {
  }

  /** The kind of a seed, from the directory it sits in. */
  datatype SeedType = Normal | Crash | Hang

  /** A watcher cache key: a worker type and its output directory, compared after resolution. */
  datatype WatcherConfig = WatcherConfig(fuzzer: FuzzerType, outputDir: string)

  /** `WatcherConfig.__eq__`, over the path resolution function of the file system. */
  predicate ConfigEq(a: WatcherConfig, b: WatcherConfig, resolve: string -> string) {
    a.fuzzer == b.fuzzer && resolve(a.outputDir) == resolve(b.outputDir)
  }

  /** The string `WatcherConfig.__hash__` hands to Python's `hash`. */
  function HashKey(c: WatcherConfig, resolve: string -> string): string {
    Value(c.fuzzer) + resolve(c.outputDir)
  }

  /** `WatcherConfig.__hash__`, over Python's string hash `strHash`. */
  function ConfigHash(c: WatcherConfig, resolve: string -> string, strHash: string -> int): int {
    strHash(HashKey(c, resolve))
  }

  /** Resolution yields absolute paths. */
  ghost predicate Absolute(resolve: string -> string) {
    forall p :: StartsWith(resolve(p), "/")
  }

  lemma SlashFreeValue(t: FuzzerType)
    ensures '/' !in Value(t)
  {
  }

  /**
   * Equal configurations hash alike (the contract a dictionary key needs), and, since
   * resolved paths start with `/` and no type value contains one, the hashed string
   * determines the configuration up to equality.
   */
  lemma {:induction false} ConfigEqIffSameHashKey(a: WatcherConfig, b: WatcherConfig, resolve: string -> string, strHash: string -> int)
    requires Absolute(resolve)
    ensures ConfigEq(a, b, resolve) ==> ConfigHash(a, resolve, strHash) == ConfigHash(b, resolve, strHash)
    ensures ConfigEq(a, b, resolve) <==> HashKey(a, resolve) == HashKey(b, resolve)
  {
    if HashKey(a, resolve) == HashKey(b, resolve) {
      var ka, kb := HashKey(a, resolve), HashKey(b, resolve);
      var va, vb := Value(a.fuzzer), Value(b.fuzzer);
      var ra, rb := resolve(a.outputDir), resolve(b.outputDir);
      assert StartsWith(ra, "/") && StartsWith(rb, "/");
      SlashFreeValue(a.fuzzer);
      SlashFreeValue(b.fuzzer);
      FirstSlash(va, ra);
      FirstSlash(vb, rb);
      assert |va| == |vb|;
      assert va == ka[..|va|] && vb == kb[..|vb|];
      assert ra == ka[|va|..] && rb == kb[|vb|..];
    }
  }

  lemma FirstSlash(v: string, r: string)
    requires '/' !in v && StartsWith(r, "/")
    ensures IndexOf(v + r, '/') == |v|
  {
    var s := v + r;
    assert s[|v|] == '/';
    assert forall j :: 0 <= j < |v| ==> s[j] == v[j];
    IndexOfFirst(s, '/', |v|);
  }
}
