/**
 * The DAFL benchmark script's work lists and its crash triage: which fuzzing, slicing and
 * replay jobs a run schedules, and whether a replayed crash counts as the targeted one.
 * The per-bug triage checkers and the stack-trace helpers are not part of this model: they
 * appear as function parameters.
 */
module Benchmark {
  import opened Wrappers
  import opened Strings

  // ----- the target tables -----

  /**
   * One fuzz target: its binary, command line, input source, and its triage checkers as the
   * (triage version, checker) pairs of a dictionary in insertion order.
   */
  datatype FuzzTarget = FuzzTarget(prog: string, cmdline: string, src: string, checkers: seq<(string, string)>)

  /** `crash_checker.get(ver)`: the checker paired with the version, `None` when no pair has it. */
  function Checker(checkers: seq<(string, string)>, ver: string): (r: Option<string>)
    ensures r.None? <==> forall k :: 0 <= k < |checkers| ==> checkers[k].0 != ver
    ensures r.Some? ==> (ver, r.value) in checkers
    decreases |checkers|
  {
    if |checkers| == 0 then None
    else if checkers[0].0 == ver then Some(checkers[0].1)
    else
      assert forall k :: 1 <= k < |checkers| ==> checkers[k] == checkers[1..][k - 1];
      Checker(checkers[1..], ver)
  }

  /** A target with the single `asan` checker. */
  function Asan(prog: string, cmdline: string, src: string, checker: string): FuzzTarget {
    FuzzTarget(prog, cmdline, src, [("asan", checker)])
  }

  /** `FUZZ_TARGETS`, in table order; each checker is named by its triage function. */
  const FuzzTargets: seq<FuzzTarget> := [
    Asan("cxxfilt-2016-4487", "", "stdin", "check_cxxfilt_2016_4487"),
    Asan("cxxfilt-2016-4489", "", "stdin", "check_cxxfilt_2016_4489"),
    Asan("cxxfilt-2016-4490", "", "stdin", "check_cxxfilt_2016_4490"),
    Asan("cxxfilt-2016-4491", "", "stdin", "check_cxxfilt_2016_4491"),
    Asan("cxxfilt-2016-4492", "", "stdin", "check_cxxfilt_2016_4492"),
    Asan("cxxfilt-2016-6131", "", "stdin", "check_cxxfilt_2016_6131"),
    Asan("nm-2017-8397", "-A -a -l -S -s --special-syms --synthetic --with-symbol-versions -D @@", "file", "check_nm_2017_14940"),
    Asan("objdump-2017-8392", "-SD @@", "file", "check_objdump_2017_8392"),
    Asan("objdump-2017-8396", "-W @@", "file", "check_objdump_2017_8396"),
    Asan("objdump-2017-8397", "-W @@", "file", "check_objdump_2017_8397"),
    Asan("objdump-2017-8398", "-W @@", "file", "check_objdump_2017_8398"),
    Asan("cxxfilt-2016-4489-crash", "", "stdin", "check_cxxfilt_2016_4489"),
    Asan("cxxfilt-2016-4489-caller", "", "stdin", "check_cxxfilt_2016_4489"),
    Asan("cxxfilt-2016-4492-crash1", "", "stdin", "check_cxxfilt_2016_4492"),
    Asan("cxxfilt-2016-4492-crash2", "", "stdin", "check_cxxfilt_2016_4492"),
    Asan("swftophp-2016-9827", "@@", "file", "check_swftophp_2016_9827"),
    Asan("swftophp-2016-9829", "@@", "file", "check_swftophp_2016_9829"),
    FuzzTarget("swftophp-2016-9831", "@@", "file", [
      ("asan", "check_swftophp_2016_9831_v3"),
      ("asan-a", "check_swftophp_2016_9831_v1"),
      ("asan-b", "check_swftophp_2016_9831_v2"),
      ("asan-c", "check_swftophp_2016_9831_v3")]),
    Asan("swftophp-2017-9988", "@@", "file", "check_swftophp_2017_9988"),
    Asan("swftophp-2017-11728", "@@", "file", "check_swftophp_2017_11728"),
    Asan("swftophp-2017-11729", "@@", "file", "check_swftophp_2017_11729"),
    Asan("swftophp-2018-7868", "@@", "file", "check_swftophp_2018_7868"),
    Asan("swftophp-2018-8807", "@@", "file", "check_swftophp_2018_8807"),
    Asan("swftophp-2018-8962", "@@", "file", "check_swftophp_2018_8962"),
    Asan("swftophp-2018-11095", "@@", "file", "check_swftophp_2018_11095"),
    Asan("swftophp-2018-11225", "@@", "file", "check_swftophp_2018_11225"),
    Asan("swftophp-2018-11226", "@@", "file", "check_swftophp_2018_11226"),
    Asan("swftophp-2018-20427", "@@", "file", "check_swftophp_2018_20427"),
    Asan("swftophp-2019-12982", "@@", "file", "check_swftophp_2019_12982"),
    Asan("swftophp-2019-9114", "@@", "file", "check_swftophp_2019_9114"),
    Asan("swftophp-2020-6628", "@@", "file", "check_swftophp_2020_6628")
  ]

  /** One slicing target: the analysis frontend, the entry point and the bugs it covers. */
  datatype SliceTarget = SliceTarget(frontend: string, entryPoint: string, bugs: seq<string>)

  /** `SLICE_TARGETS`, as its key-value pairs in insertion order. */
  const SliceTargets: seq<(string, SliceTarget)> := [
    ("swftophp", SliceTarget("cil", "main", ["2016-9827", "2016-9829", "2016-9831", "2017-9988", "2017-11728", "2017-11729"])),
    ("swftophp-4.8", SliceTarget("cil", "main", ["2018-7868", "2018-8807", "2018-8962", "2018-11095", "2018-11225", "2018-11226", "2018-20427", "2019-12982", "2020-6628"])),
    ("swftophp-4.8.1", SliceTarget("cil", "main", ["2019-9114"])),
    ("cxxfilt", SliceTarget("cil", "main", ["2016-4487", "2016-4489", "2016-4490", "2016-4491", "2016-4492", "2016-6131",
                                            "2016-4489-crash", "2016-4489-caller", "2016-4492-crash1", "2016-4492-crash2"])),
    ("nm", SliceTarget("cil", "main", ["2017-14940"])),
    ("objdump", SliceTarget("cil", "main", ["2017-8392", "2017-8396", "2017-8397", "2017-8398"]))
  ]

  /** `SLICE_TARGETS.keys()`, in order. */
  function SliceKeys(table: seq<(string, SliceTarget)>): (keys: seq<string>)
    ensures |keys| == |table|
    ensures forall i :: 0 <= i < |table| ==> keys[i] == table[i].0
  {
    seq(|table|, i requires 0 <= i < |table| => table[i].0)
  }

  // ----- the fuzzing and replay work lists -----

  /**
   * What `targ_prog in target_list` tests: membership when the caller passes a list of
   * names, and a substring test when it passes a single string.
   */
  datatype TargetList = Names(names: seq<string>) | Text(text: string)

  predicate Listed(l: TargetList, prog: string) {
    match l
    case Names(ns) => prog in ns
    case Text(t) => Contains(t, prog)
  }

  /** The input sources the fuzzing work list accepts. */
  predicate ValidSrc(src: string) {
    src == "stdin" || src == "file"
  }

  /** One fuzzing job: the target's binary, command line and input source, and the iteration's name. */
  datatype WorkItem = WorkItem(prog: string, cmdline: string, src: string, iterId: string)

  /** `"iter-%d" % i` */
  function IterId(i: nat): string {
    "iter-" + NatToString(i)
  }

  /** How many times `range(iteration)` runs. */
  function Iterations(iteration: int): nat {
    if iteration < 0 then 0 else iteration
  }

  /** The targets a list selects, in table order. */
  function Matches(targets: seq<FuzzTarget>, l: TargetList): (r: seq<FuzzTarget>)
    ensures |r| <= |targets|
    ensures forall t :: t in r <==> t in targets && Listed(l, t.prog)
    decreases |targets|
  {
    if |targets| == 0 then []
    else
      var rest := Matches(targets[1..], l);
      assert forall t :: t in targets <==> t == targets[0] || t in targets[1..];
      if Listed(l, targets[0].prog) then [targets[0]] + rest else rest
  }

  /** Selecting from a table in two parts selects from each part in turn. */
  lemma {:induction false} MatchesAppend(a: seq<FuzzTarget>, b: seq<FuzzTarget>, l: TargetList)
    ensures Matches(a + b, l) == Matches(a, l) + Matches(b, l)
    decreases |a|
  {
    if |a| == 0 {
      assert a + b == b;
    } else {
      assert (a + b)[0] == a[0];
      assert (a + b)[1..] == a[1..] + b;
      MatchesAppend(a[1..], b, l);
    }
  }

  /** A one-entry table selects its entry iff the list names it; with MatchesAppend, selection is an order-keeping filter. */
  lemma MatchesOne(t: FuzzTarget, l: TargetList)
    ensures Matches([t], l) == if Listed(l, t.prog) then [t] else []
  {
    assert [t][1..] == [];
  }

  /** The jobs of one target: one per iteration, in order. */
  function Runs(t: FuzzTarget, n: nat): (r: seq<WorkItem>)
    ensures |r| == n
    ensures forall i :: 0 <= i < n ==> r[i] == WorkItem(t.prog, t.cmdline, t.src, IterId(i))
  {
    seq(n, i requires 0 <= i < n => WorkItem(t.prog, t.cmdline, t.src, IterId(i)))
  }

  /**
   * `generate_fuzzing_worklist`: every iteration of every selected target, target by target
   * in table order; a selected target whose input source is neither `stdin` nor `file` ends
   * the program with exit status 1.
   */
  function FuzzingWorklist(targets: seq<FuzzTarget>, l: TargetList, iteration: int): (r: Result<seq<WorkItem>>)
    ensures r.Err? <==> exists i :: 0 <= i < |targets| && Listed(l, targets[i].prog) && !ValidSrc(targets[i].src)
    ensures r.Err? ==> r.error == Exit(1)
    decreases |targets|
  {
    if |targets| == 0 then Ok([])
    else
      var t := targets[0];
      var n := Iterations(iteration);
      assert forall i :: 1 <= i < |targets| ==> targets[i] == targets[1..][i - 1];
      if !Listed(l, t.prog) then FuzzingWorklist(targets[1..], l, iteration)
      else if !ValidSrc(t.src) then Err(Exit(1))
      else
        match FuzzingWorklist(targets[1..], l, iteration)
        case Err(e) => Err(e)
        case Ok(rest) => Ok(Runs(t, n) + rest)
  }

  /** The jobs of each target in turn, `n` iterations apiece. */
  function Jobs(ms: seq<FuzzTarget>, n: nat): (r: seq<WorkItem>)
    ensures |r| == |ms| * n
    decreases |ms|
  {
    if |ms| == 0 then []
    else
      var rest := Jobs(ms[1..], n);
      assert |ms| * n == n + (|ms| - 1) * n;
      Runs(ms[0], n) + rest
  }

  /** Job `j * n + i` of the jobs is iteration `i` of the `j`-th target. */
  lemma {:induction false} JobsItem(ms: seq<FuzzTarget>, n: nat, j: nat, i: nat)
    requires j < |ms| && i < n
    ensures j * n + i < |Jobs(ms, n)|
    ensures Jobs(ms, n)[j * n + i] == WorkItem(ms[j].prog, ms[j].cmdline, ms[j].src, IterId(i))
    decreases |ms|
  {
    SlotBelow(j, |ms|, n, i);
    var rest := Jobs(ms[1..], n);
    assert Jobs(ms, n) == Runs(ms[0], n) + rest;
    if j == 0 {
      assert j * n + i == i;
    } else {
      JobsItem(ms[1..], n, j - 1, i);
      SlotStep(j, n, i);
      assert Jobs(ms, n)[j * n + i] == rest[(j - 1) * n + i];
    }
  }

  /** Slot `i` of block `j` lies inside `m` blocks of `n`. */
  lemma SlotBelow(j: nat, m: nat, n: nat, i: nat)
    requires j < m && i < n
    ensures j * n + i < m * n
  {
    assert (j + 1) * n == j * n + n;
    assert (j + 1) * n <= m * n;
  }

  /** Slot `i` of block `j > 0` is slot `i` of block `j - 1` after one block of `n`. */
  lemma SlotStep(j: nat, n: nat, i: nat)
    requires j > 0
    ensures j * n + i == n + ((j - 1) * n + i)
  {
  }

  /** A fuzzing work list that does not exit is the selected targets' jobs, in table order. */
  lemma {:induction false} FuzzingWorklistJobs(targets: seq<FuzzTarget>, l: TargetList, iteration: int)
    requires FuzzingWorklist(targets, l, iteration).Ok?
    ensures FuzzingWorklist(targets, l, iteration).value == Jobs(Matches(targets, l), Iterations(iteration))
    decreases |targets|
  {
    if |targets| > 0 {
      FuzzingWorklistJobs(targets[1..], l, iteration);
      if Listed(l, targets[0].prog) {
        assert Matches(targets, l) == [targets[0]] + Matches(targets[1..], l);
        assert Matches(targets, l)[1..] == Matches(targets[1..], l);
      }
    }
  }

  /**
   * Job `j * n + i` of the fuzzing work list is iteration `i` of the `j`-th selected target,
   * where `n` is the number of iterations.
   */
  lemma FuzzingWorklistItem(targets: seq<FuzzTarget>, l: TargetList, iteration: int, j: nat, i: nat)
    requires FuzzingWorklist(targets, l, iteration).Ok?
    requires j < |Matches(targets, l)| && i < Iterations(iteration)
    ensures var n := Iterations(iteration);
      var t := Matches(targets, l)[j];
      0 <= j * n + i < |FuzzingWorklist(targets, l, iteration).value|
      && FuzzingWorklist(targets, l, iteration).value[j * n + i] == WorkItem(t.prog, t.cmdline, t.src, IterId(i))
  {
    FuzzingWorklistJobs(targets, l, iteration);
    JobsAt(FuzzingWorklist(targets, l, iteration).value, Matches(targets, l), Iterations(iteration), j, i);
  }

  /** `JobsItem` for a list known to equal the jobs. */
  lemma JobsAt(w: seq<WorkItem>, ms: seq<FuzzTarget>, n: nat, j: nat, i: nat)
    requires w == Jobs(ms, n) && j < |ms| && i < n
    ensures 0 <= j * n + i < |w| && w[j * n + i] == WorkItem(ms[j].prog, ms[j].cmdline, ms[j].src, IterId(i))
  {
    JobsItem(ms, n, j, i);
  }

  /** Every input source in the target table is valid, so the table's fuzzing work lists never exit. */
  lemma FuzzTargetsWorklist(l: TargetList, iteration: int)
    ensures FuzzingWorklist(FuzzTargets, l, iteration).Ok?
  {
    assert forall i :: 0 <= i < |FuzzTargets| ==> ValidSrc(FuzzTargets[i].src);
  }

  /** `generate_replay_worklist`: the fuzzing work list of the table, given the benchmark's name as a single string. */
  function ReplayWorklist(benchmark: string, iteration: int): (r: Result<seq<WorkItem>>)
    ensures r.Ok?
    ensures r.value == Jobs(Matches(FuzzTargets, Text(benchmark)), Iterations(iteration))
  {
    FuzzTargetsWorklist(Text(benchmark), iteration);
    FuzzingWorklistJobs(FuzzTargets, Text(benchmark), iteration);
    FuzzingWorklist(FuzzTargets, Text(benchmark), iteration)
  }

  /** A single name selects every target whose name occurs in it, the named one included. */
  lemma ReplaySelectsInfixes(benchmark: string, prog: string, u: string, v: string)
    requires benchmark == u + prog + v
    ensures Listed(Text(benchmark), prog)
    ensures Listed(Text(benchmark), benchmark)
  {
    StartsWithSelf(prog + v);
    ContainsPrefix(prog + v, prog, "");
    assert prog + v + "" == prog + v;
    ContainsSuffix(u, prog + v, prog);
    assert u + (prog + v) == benchmark;
    StartsWithSelf(benchmark);
  }

  lemma StartsWithSelf(s: string)
    ensures Contains(s, s)
  {
    assert s[..|s|] == s;
  }

  lemma {:induction false} ContainsSuffix(u: string, s: string, sub: string)
    requires Contains(s, sub)
    ensures Contains(u + s, sub)
    decreases |u|
  {
    if |u| > 0 {
      ContainsSuffix(u[1..], s, sub);
      assert (u + s)[1..] == u[1..] + s;
    } else {
      assert u + s == s;
    }
  }

  /**
   * Replaying `cxxfilt-2016-4489-crash` also replays `cxxfilt-2016-4489`, which a list
   * holding just that name would not select.
   */
  lemma ReplayCrashVariant()
    ensures Listed(Text("cxxfilt-2016-4489-crash"), "cxxfilt-2016-4489")
    ensures !Listed(Names(["cxxfilt-2016-4489-crash"]), "cxxfilt-2016-4489")
  {
    ReplaySelectsInfixes("cxxfilt-2016-4489-crash", "cxxfilt-2016-4489", "", "-crash");
  }

  // ----- the slicing work list -----

  /**
   * `generate_slicing_worklist`: `all` lists every slicing target in order, a known target
   * lists itself, and anything else ends the program with exit status 1.
   */
  function SlicingWorklist(table: seq<(string, SliceTarget)>, benchmark: string): (r: Result<seq<string>>)
    ensures r.Err? <==> benchmark != "all" && benchmark !in SliceKeys(table)
    ensures r.Err? ==> r.error == Exit(1)
    ensures r.Ok? ==> forall x :: x in r.value ==> x in SliceKeys(table)
    ensures r.Ok? && benchmark != "all" ==> r.value == [benchmark]
    ensures benchmark == "all" ==> r == Ok(SliceKeys(table))
  {
    if benchmark == "all" then Ok(SliceKeys(table))
    else if benchmark in SliceKeys(table) then Ok([benchmark])
    else Err(Exit(1))
  }

  /** Every target the `all` list names is also accepted on its own, as a list of itself. */
  lemma SlicingAllEach(table: seq<(string, SliceTarget)>, x: string)
    requires x in SlicingWorklist(table, "all").value
    requires x != "all"
    ensures SlicingWorklist(table, x) == Ok([x])
  {
  }

  /** On the script's table, `all` lists the six programs in the order the table gives them. */
  lemma SlicingAllPrograms()
    ensures SlicingWorklist(SliceTargets, "all") == Ok(["swftophp", "swftophp-4.8", "swftophp-4.8.1", "cxxfilt", "nm", "objdump"])
  {
    var keys := SliceKeys(SliceTargets);
    assert keys[0] == "swftophp" && keys[1] == "swftophp-4.8" && keys[2] == "swftophp-4.8.1";
    assert keys[3] == "cxxfilt" && keys[4] == "nm" && keys[5] == "objdump";
    assert |keys| == 6;
    assert keys == ["swftophp", "swftophp-4.8", "swftophp-4.8.1", "cxxfilt", "nm", "objdump"];
  }

  // ----- crash triage -----

  /** Entry `i` is the first target of the table named `targ`. */
  predicate FirstNamed(targets: seq<FuzzTarget>, targ: string, i: int) {
    0 <= i < |targets| && targets[i].prog == targ && forall j :: 0 <= j < i ==> targets[j].prog != targ
  }

  /**
   * `check_targeted_crash_asan`: the first target named `targ` decides the checker for the
   * triage version, and the checker's verdict on the replay output is the answer; an unknown
   * target or version ends the program with exit status 1. `triage(checker, output)` is the
   * named checker's verdict.
   */
  function CheckTargetedCrashAsan(targets: seq<FuzzTarget>, targ: string, replay: string, ver: string,
                                  triage: (string, string) -> bool): (r: Result<bool>)
    ensures r.Err? ==> r.error == Exit(1)
    ensures r.Ok? <==> exists i :: FirstNamed(targets, targ, i) && Checker(targets[i].checkers, ver).Some?
    ensures forall i :: FirstNamed(targets, targ, i) && Checker(targets[i].checkers, ver).Some? ==>
      r == Ok(triage(Checker(targets[i].checkers, ver).value, replay))
    decreases |targets|
  {
    if |targets| == 0 then Err(Exit(1))
    else if targets[0].prog == targ then
      assert FirstNamed(targets, targ, 0);
      match Checker(targets[0].checkers, ver)
      case None => Err(Exit(1))
      case Some(check) => Ok(triage(check, replay))
    else
      var r := CheckTargetedCrashAsan(targets[1..], targ, replay, ver, triage);
      assert forall i :: FirstNamed(targets, targ, i) <==> i >= 1 && FirstNamed(targets[1..], targ, i - 1);
      r
  }

  /** On a table where every target has an `asan` checker, the `asan` version triages every target the table names. */
  lemma AsanTriagesNamed(targets: seq<FuzzTarget>, targ: string, replay: string, triage: (string, string) -> bool, i: int)
    requires 0 <= i < |targets| && targets[i].prog == targ
    requires forall k :: 0 <= k < |targets| ==> Checker(targets[k].checkers, "asan").Some?
    ensures CheckTargetedCrashAsan(targets, targ, replay, "asan", triage).Ok?
  {
    var k := FirstIndex(targets, targ, i);
  }

  /** A version only the target at `v` has triages no other target, and triages that one with its checker. */
  lemma AsanVersionOfOne(targets: seq<FuzzTarget>, targ: string, replay: string, ver: string,
                         triage: (string, string) -> bool, v: int)
    requires 0 <= v < |targets|
    requires forall k :: 0 <= k < |targets| && k != v ==> Checker(targets[k].checkers, ver).None?
    requires forall j :: 0 <= j < v ==> targets[j].prog != targets[v].prog
    ensures CheckTargetedCrashAsan(targets, targ, replay, ver, triage).Ok? ==> targ == targets[v].prog
    ensures targ == targets[v].prog && Checker(targets[v].checkers, ver).Some? ==>
      CheckTargetedCrashAsan(targets, targ, replay, ver, triage) == Ok(triage(Checker(targets[v].checkers, ver).value, replay))
  {
    if targ == targets[v].prog {
      assert FirstNamed(targets, targ, v);
    }
  }

  /** Every target of the script's table has an `asan` checker. */
  lemma TableHasAsan()
    ensures forall k :: 0 <= k < |FuzzTargets| ==> Checker(FuzzTargets[k].checkers, "asan").Some?
  {
  }

  /** Only `swftophp-2016-9831`, entry 17 of the script's table, has checkers besides `asan`. */
  lemma TableVariants(ver: string)
    requires ver != "asan"
    ensures forall k :: 0 <= k < |FuzzTargets| && k != 17 ==> Checker(FuzzTargets[k].checkers, ver).None?
    ensures FuzzTargets[17].prog == "swftophp-2016-9831"
    ensures forall j :: 0 <= j < 17 ==> FuzzTargets[j].prog != "swftophp-2016-9831"
  {
  }

  /** On the script's table, the `asan` version triages every target. */
  lemma AsanTriagesAll(targ: string, replay: string, triage: (string, string) -> bool, i: int)
    requires 0 <= i < |FuzzTargets| && FuzzTargets[i].prog == targ
    ensures CheckTargetedCrashAsan(FuzzTargets, targ, replay, "asan", triage).Ok?
  {
    TableHasAsan();
    AsanTriagesNamed(FuzzTargets, targ, replay, triage, i);
  }

  /** On the script's table, any version other than `asan` triages only `swftophp-2016-9831`. */
  lemma AsanVariantsOnlyOne(targ: string, replay: string, ver: string, triage: (string, string) -> bool)
    requires ver != "asan"
    ensures CheckTargetedCrashAsan(FuzzTargets, targ, replay, ver, triage).Ok? ==> targ == "swftophp-2016-9831"
  {
    TableVariants(ver);
    AsanVersionOfOne(FuzzTargets, targ, replay, ver, triage, 17);
  }

  /** The `asan-a` checker of `swftophp-2016-9831` is the first variant of its triage function. */
  lemma TableVariantA()
    ensures Checker(FuzzTargets[17].checkers, "asan-a") == Some("check_swftophp_2016_9831_v1")
  {
  }

  /** On the script's table, `asan-a` triages `swftophp-2016-9831` with the first variant of its checker. */
  lemma AsanVariantA(replay: string, triage: (string, string) -> bool)
    ensures CheckTargetedCrashAsan(FuzzTargets, "swftophp-2016-9831", replay, "asan-a", triage)
         == Ok(triage("check_swftophp_2016_9831_v1", replay))
  {
    TableVariants("asan-a");
    TableVariantA();
    AsanVersionOfOne(FuzzTargets, "swftophp-2016-9831", replay, "asan-a", triage, 17);
  }

  /** Any entry named `targ` means there is a first such entry, at or before it. */
  lemma {:induction false} FirstIndex(targets: seq<FuzzTarget>, targ: string, i: int) returns (k: int)
    requires 0 <= i < |targets| && targets[i].prog == targ
    ensures k <= i && FirstNamed(targets, targ, k)
    decreases i
  {
    if exists j :: 0 <= j < i && targets[j].prog == targ {
      var j :| 0 <= j < i && targets[j].prog == targ;
      k := FirstIndex(targets, targ, j);
    } else {
      k := i;
    }
  }

  /**
   * What makes a patch triage count a crash as removed by the patch, as one condition:
   * neither run shows the ignored `d_find_pack` crash, the patched run neither timed out nor
   * failed to start, the two runs crash in different functions, and two stack overflows share
   * no function of their traces.
   */
  ghost predicate PatchRemovesCrash(orig: string, patch: string, crashFunc: string -> string,
                                    overflows: string -> bool, funcs: string -> set<string>) {
    && !Contains(orig, "d_find_pack") && !Contains(patch, "d_find_pack")
    && !Contains(patch, "TIMEOUT")
    && !Contains(patch, "No such file or directory")
    && crashFunc(orig) != crashFunc(patch)
    && (overflows(orig) && overflows(patch) ==> forall f :: f in funcs(orig) ==> f !in funcs(patch))
  }

  /**
   * `check_targeted_crash_patch`: whether a crash of the original binary is gone in the
   * patched one, by the ordered checks of the script. `crashFunc` is the crash function of a
   * trace, `overflows` whether a trace reports a stack overflow, `funcs` the functions of a
   * trace; `targ` only names the target in a warning.
   */
  function CheckTargetedCrashPatch(targ: string, orig: string, patch: string, crashFunc: string -> string,
                                   overflows: string -> bool, funcs: string -> set<string>): (r: bool)
    ensures r <==> PatchRemovesCrash(orig, patch, crashFunc, overflows, funcs)
  {
    if Contains(orig, "d_find_pack") || Contains(patch, "d_find_pack") then false
    else if Contains(patch, "TIMEOUT") then false
    else if crashFunc(orig) != crashFunc(patch) then
      if Contains(patch, "No such file or directory") then false
      else if overflows(orig) && overflows(patch) && |funcs(orig) * funcs(patch)| > 0 then
        SharedFunction(funcs(orig), funcs(patch));
        false
      else
        assert forall f :: f in funcs(orig) ==> f in funcs(orig) * funcs(patch) || f !in funcs(patch);
        true
    else false
  }

  /** Two sets whose intersection is not empty share an element. */
  lemma SharedFunction(a: set<string>, b: set<string>)
    requires |a * b| > 0
    ensures exists f :: f in a && f in b
  {
    if forall f :: f !in a * b { assert false; }
    var f :| f in a * b;
  }

  /** A patched run that timed out, or that crashes where the original does, never counts as a removed crash. */
  lemma PatchNeverCounts(targ: string, orig: string, patch: string, crashFunc: string -> string,
                         overflows: string -> bool, funcs: string -> set<string>)
    requires Contains(patch, "TIMEOUT") || crashFunc(orig) == crashFunc(patch)
    ensures !CheckTargetedCrashPatch(targ, orig, patch, crashFunc, overflows, funcs)
  {
  }

  /** Two stack overflows whose traces share a function are the same crash, whatever else differs. */
  lemma PatchSharedOverflow(targ: string, orig: string, patch: string, crashFunc: string -> string,
                            overflows: string -> bool, funcs: string -> set<string>, f: string)
    requires overflows(orig) && overflows(patch) && f in funcs(orig) && f in funcs(patch)
    ensures !CheckTargetedCrashPatch(targ, orig, patch, crashFunc, overflows, funcs)
  {
  }

  /**
   * Without the three markers, a change of crash function counts as removed unless both
   * traces overflow the stack; the stack traces are consulted only in that case.
   */
  lemma PatchCountsWithoutOverflow(targ: string, orig: string, patch: string, crashFunc: string -> string,
                                   overflows: string -> bool, funcs: string -> set<string>)
    requires !Contains(orig, "d_find_pack") && !Contains(patch, "d_find_pack")
    requires !Contains(patch, "TIMEOUT") && !Contains(patch, "No such file or directory")
    requires crashFunc(orig) != crashFunc(patch) && !(overflows(orig) && overflows(patch))
    ensures CheckTargetedCrashPatch(targ, orig, patch, crashFunc, overflows, funcs)
    ensures forall funcs2: string -> set<string> ::
      CheckTargetedCrashPatch(targ, orig, patch, crashFunc, overflows, funcs2)
  {
  }

  /** The target name only appears in a warning: it never changes the verdict. */
  lemma PatchIgnoresTarget(targ: string, targ2: string, orig: string, patch: string, crashFunc: string -> string,
                           overflows: string -> bool, funcs: string -> set<string>)
    ensures CheckTargetedCrashPatch(targ, orig, patch, crashFunc, overflows, funcs)
         == CheckTargetedCrashPatch(targ2, orig, patch, crashFunc, overflows, funcs)
  {
  }

  /**
   * Growing a trace never turns a rejected crash into an accepted one through the text
   * checks: if a patched trace is rejected for a marker it holds, any longer trace starting
   * with it is rejected too.
   */
  lemma PatchMarkerPersists(targ: string, orig: string, patch: string, more: string, crashFunc: string -> string,
                            overflows: string -> bool, funcs: string -> set<string>)
    requires Contains(patch, "TIMEOUT") || Contains(patch, "d_find_pack")
    ensures !CheckTargetedCrashPatch(targ, orig, patch + more, crashFunc, overflows, funcs)
  {
    if Contains(patch, "TIMEOUT") {
      ContainsPrefix(patch, "TIMEOUT", more);
    } else {
      ContainsPrefix(patch, "d_find_pack", more);
    }
  }
}
