/**
 * The fuzzer drivers: each tool's argument vector, launch environment and `fuzzer_stats`
 * parser, and the AFLGo controller's bookkeeping over its persisted worker records.
 */
module Drivers {
  import opened Wrappers
  import opened Strings
  import opened Process
  import opened Keyed

  /** The three driver classes: AFLGo, DAFL, and the WindRanger driver (whose class is also named `AFLGo`). */
  datatype Kind = AFLGoTool | DAFLTool | WindRangerTool

  /** A tool's entry of `config['fuzzer']`. */
  datatype ToolConfig = ToolConfig(command: string, targetRoot: string)

  /** The entry of `config['fuzzer']` a driver reads: the WindRanger driver reads the `aflgo` one. */
  function EntryName(k: Kind): string {
    match k
    case DAFLTool => "dafl"
    case _ => "aflgo"
  }

  /** The constructor arguments of a driver. */
  datatype Worker = Worker(seed: string, output: string, group: string, program: string,
                           argument: string, cgroupPath: string)

  /** `target`: the program under the entry's target root; a missing entry raises `KeyError`. */
  function Target(cfg: map<string, ToolConfig>, k: Kind, w: Worker): (r: Result<string>)
    ensures r.Err? <==> EntryName(k) !in cfg
    ensures r.Err? ==> r.error == KeyError
  {
    if EntryName(k) in cfg then Ok(PathJoin(cfg[EntryName(k)].targetRoot, w.program)) else Err(KeyError)
  }

  /** The `cgexec` prefix, present iff a cgroup path is given. */
  function CgroupPrefix(cgroupPath: string): seq<string> {
    if cgroupPath == "" then [] else ["cgexec", "-g", "cpu:" + cgroupPath]
  }

  /** The tool-specific flags between `-m none` and `--`. */
  function ToolFlags(k: Kind): seq<string> {
    match k
    case AFLGoTool => ["-d", "-z", "exp", "-c", "20h"]
    case DAFLTool => ["-d"]
    case WindRangerTool => ["-z", "exp", "-c", "45m"]
  }

  /** `gen_run_args`: `check` first (the target must exist on disk), then the vector. */
  function GenRunArgs(cfg: map<string, ToolConfig>, k: Kind, w: Worker, onDisk: string -> bool): (r: Result<seq<string>>)
    ensures r.Err? <==> EntryName(k) !in cfg || !onDisk(Target(cfg, k, w).value)
    ensures r.Err? ==> r.error == (if EntryName(k) in cfg then FuzzerDriverException else KeyError)
  {
    var target :- Target(cfg, k, w);
    if !onDisk(target) then Err(FuzzerDriverException)
    else
      Ok(CgroupPrefix(w.cgroupPath)
         + [cfg[EntryName(k)].command, "-i", w.seed, "-o", w.output, "-m", "none"]
         + ToolFlags(k) + ["--", target] + SplitOn(w.argument, ' '))
  }

  /**
   * The layout of a successful vector: the `cgexec` prefix iff a cgroup is given, the fixed
   * options, the tool's flags, `--` and the target; the remaining words join back to the
   * program's argument string.
   */
  lemma GenRunArgsLayout(cfg: map<string, ToolConfig>, k: Kind, w: Worker, onDisk: string -> bool)
    requires GenRunArgs(cfg, k, w, onDisk).Ok?
    ensures var args := GenRunArgs(cfg, k, w, onDisk).value;
      var p := if w.cgroupPath == "" then 0 else 3;
      var q := p + 7 + |ToolFlags(k)|;
      && |args| >= q + 3
      && (w.cgroupPath != "" ==> args[..3] == ["cgexec", "-g", "cpu:" + w.cgroupPath])
      && args[p..p + 7] == [cfg[EntryName(k)].command, "-i", w.seed, "-o", w.output, "-m", "none"]
      && args[p + 7..q] == ToolFlags(k)
      && args[q] == "--" && args[q + 1] == Target(cfg, k, w).value
      && Join(args[q + 2..], ' ') == w.argument
  {
    var args := GenRunArgs(cfg, k, w, onDisk).value;
    var p := if w.cgroupPath == "" then 0 else 3;
    var q := p + 7 + |ToolFlags(k)|;
    var core := [cfg[EntryName(k)].command, "-i", w.seed, "-o", w.output, "-m", "none"];
    var tail := ["--", Target(cfg, k, w).value];
    var words := SplitOn(w.argument, ' ');
    var pre := CgroupPrefix(w.cgroupPath);
    assert args == pre + core + ToolFlags(k) + tail + words;
    assert |pre| == p && |core| == 7 && |tail| == 2;
    FiveParts(pre, core, ToolFlags(k), tail, words);
    JoinSplitOn(w.argument, ' ');
  }

  /** Each part of a five-way concatenation is the slice at its offset. */
  lemma FiveParts(a: seq<string>, b: seq<string>, c: seq<string>, d: seq<string>, e: seq<string>)
    ensures var s := a + b + c + d + e;
      var i, j, k, l := |a|, |a| + |b|, |a| + |b| + |c|, |a| + |b| + |c| + |d|;
      && |s| == l + |e|
      && s[..i] == a && s[i..j] == b && s[j..k] == c && s[k..l] == d && s[l..] == e
  {
    var s := a + b + c + d + e;
    assert s == a + b + (c + d + e);
    ThreeParts(a, b, c + d + e);
    assert s == (a + b) + c + (d + e);
    ThreeParts(a + b, c, d + e);
    ThreeParts(a + b + c, d, e);
  }

  /** The three parts of a concatenation are its slices. */
  lemma ThreeParts(x: seq<string>, y: seq<string>, z: seq<string>)
    ensures (x + y + z)[..|x|] == x && (x + y + z)[|x|..|x| + |y|] == y && (x + y + z)[|x| + |y|..] == z
  {
    var s := x + y + z;
    assert s[|x|..] == y + z;
    assert s[|x|..|x| + |y|] == (y + z)[..|y|];
  }

  /** An empty argument string still contributes one empty word after the target. */
  lemma EmptyArgument(cfg: map<string, ToolConfig>, k: Kind, w: Worker, onDisk: string -> bool)
    requires GenRunArgs(cfg, k, w, onDisk).Ok? && w.argument == ""
    ensures var args := GenRunArgs(cfg, k, w, onDisk).value;
      args[|args| - 2..] == [Target(cfg, k, w).value, ""]
  {
    assert IndexOf("", ' ') == 0;
  }

  /** The WindRanger driver launches the AFLGo entry's command on the AFLGo entry's target. */
  lemma WindRangerReadsAflgo(cfg: map<string, ToolConfig>, w: Worker, onDisk: string -> bool)
    ensures Target(cfg, WindRangerTool, w) == Target(cfg, AFLGoTool, w)
    ensures GenRunArgs(cfg, WindRangerTool, w, onDisk).Ok? <==> GenRunArgs(cfg, AFLGoTool, w, onDisk).Ok?
    ensures GenRunArgs(cfg, WindRangerTool, w, onDisk).Ok? ==>
      var p := |CgroupPrefix(w.cgroupPath)|;
      GenRunArgs(cfg, WindRangerTool, w, onDisk).value[p] == cfg["aflgo"].command
  {
  }

  /** `gen_env`: the same six variables for every tool. */
  const DriverEnv: map<string, string> := map[
    "AFL_NO_UI" := "1",
    "AFL_SKIP_CPUFREQ" := "1",
    "AFL_NO_AFFINITY" := "1",
    "AFL_SKIP_CRASHES" := "1",
    "AFL_I_DONT_CARE_ABOUT_MISSING_CRASHES" := "1",
    "UBSAN_OPTIONS" := "print_stacktrace=1:halt_on_error=1"]

  /**
   * The launch environment carries the six variables, and an inherited `ASAN_OPTIONS` survives:
   * the `pop` acts on the driver's own dictionary, never on the merged one.
   */
  lemma LaunchEnvOfDriver(inherited: map<string, string>)
    ensures var env := LaunchEnv(inherited, DriverEnv);
      && (forall k :: k in DriverEnv ==> k in env && env[k] == DriverEnv[k])
      && ("ASAN_OPTIONS" in env <==> "ASAN_OPTIONS" in inherited)
      && ("ASAN_OPTIONS" in inherited ==> env["ASAN_OPTIONS"] == inherited["ASAN_OPTIONS"])
  {
    assert "ASAN_OPTIONS" !in DriverEnv;
  }

  // ----- fuzzer_stats -----

  /** One stats line: the stripped text before the first `:` and between the first and second; `arr[1]` raises without a colon. */
  function StatsLine(l: string): (kv: Result<(string, string)>)
    ensures kv.Err? <==> ':' !in l
    ensures kv.Err? ==> kv.error == IndexError
  {
    var arr := SplitOn(l, ':');
    assert IndexOf(l, ':') < |l| ==> |arr| >= 2;
    if |arr| < 2 then Err(IndexError) else Ok((Strip(arr[0]), Strip(arr[1])))
  }

  /** Every line parsed on its own. */
  function StatsRows(lines: seq<string>): (rows: seq<Result<(string, string)>>)
    ensures |rows| == |lines|
    ensures forall i :: 0 <= i < |lines| ==> rows[i] == StatsLine(lines[i])
  {
    seq(|lines|, i requires 0 <= i < |lines| => StatsLine(lines[i]))
  }

  /** `parse_fuzzer_stats`: `None` without a stats file; otherwise the parsed lines, asserted non-empty. */
  function ParseFuzzerStats(present: bool, lines: seq<string>): (r: Result<Option<map<string, string>>>)
    ensures !present ==> r == Ok(None)
    ensures r.Ok? && r.value.Some? ==> |r.value.value| > 0
  {
    if !present then Ok(None)
    else
      var m :- Collect(StatsRows(lines));
      if |m| == 0 then Err(AssertionError) else Ok(Some(m))
  }

  /**
   * `parse_fuzzer_stats` on a present file: `IndexError` iff a line has no colon, the failed
   * assertion iff the file is empty, and otherwise exactly the keys some line sets, each with
   * the value on the last line that sets it.
   */
  lemma ParseFuzzerStatsSpec(lines: seq<string>)
    ensures var r := ParseFuzzerStats(true, lines);
      var rows := StatsRows(lines);
      && (r == Err(IndexError) <==> exists i :: 0 <= i < |lines| && ':' !in lines[i])
      && (r == Err(AssertionError) <==> |lines| == 0)
      && (r.Ok? ==> r.value.Some?)
      && (r.Ok? ==> forall k :: k in r.value.value <==> exists i :: LastSetter(rows, i, k))
      && (r.Ok? ==> forall i, k :: LastSetter(rows, i, k) ==> k in r.value.value && r.value.value[k] == rows[i].value.1)
  {
    var rows := StatsRows(lines);
    CollectFails(rows);
    if Collect(rows).Err? {
      var i :| FirstFailure(rows, i) && Collect(rows).error == rows[i].error;
    } else {
      CollectSpec(rows);
    }
  }

  // ----- the AFLGo controller -----

  /** An `AFLGoModel` row. */
  datatype Record = Record(seed: string, output: string, group: string, program: string, argument: string, pid: nat)

  /** A driver instance: its constructor arguments and its process handle. */
  datatype Driver = Driver(w: Worker, h: Handle)

  /** An `AFLGOController`: its constructor arguments and the drivers it holds. */
  datatype Controller = Controller(w: Worker, drivers: seq<Driver>)

  /** What the controller acts on: the process table, the two database tables and the `ready` marker. */
  datatype Site = Site(t: Table, records: seq<Record>, scale: seq<int>, ready: bool)

  /** The driver `init` builds from a record: the recorded pid, and the controller's own cgroup. */
  function Revive(c: Controller, r: Record): Driver {
    Driver(Worker(r.seed, r.output, r.group, r.program, r.argument, c.w.cgroupPath), Handle(Some(r.pid), false, None))
  }

  /** `init`: one driver per persisted record, in order. */
  function Init(c: Controller, s: Site): (c': Controller)
    ensures c'.w == c.w && |c'.drivers| == |c.drivers| + |s.records|
    ensures forall i :: 0 <= i < |c.drivers| ==> c'.drivers[i] == c.drivers[i]
    ensures forall i :: 0 <= i < |s.records| ==> c'.drivers[|c.drivers| + i] == Revive(c, s.records[i])
  {
    c.(drivers := c.drivers + seq(|s.records|, i requires 0 <= i < |s.records| => Revive(c, s.records[i])))
  }

  /** The record `start` persists for a launched worker. */
  function RecordOf(w: Worker, pid: nat): Record {
    Record(w.seed, w.output, w.group, w.program, w.argument, pid)
  }

  /** The working directory of a launch: the directory of the target. */
  function LaunchDir(cfg: map<string, ToolConfig>, w: Worker): Option<string> {
    match Target(cfg, AFLGoTool, w)
    case Ok(target) => Some(Dirname(target))
    case Err(_) => None
  }

  /**
   * `start`: nothing when the controller holds drivers; otherwise launch one AFLGo worker,
   * persist its record and one scale row, and touch `output/ready`. The new driver is not
   * kept in the controller.
   */
  function StartController(c: Controller, s: Site, cfg: map<string, ToolConfig>, onDisk: string -> bool,
                           inherited: map<string, string>, spawn: Option<nat>): (r: Result<Site>)
    requires Spawnable(spawn, s.t)
    ensures |c.drivers| > 0 ==> r == Ok(s)
    ensures |c.drivers| == 0 ==> (r.Err? <==> GenRunArgs(cfg, AFLGoTool, c.w, onDisk).Err? || spawn.None?)
    ensures |c.drivers| == 0 && r.Ok? ==>
      && r.value.t == s.t[spawn.value := Proc(Running, [])]
      && r.value.records == s.records + [RecordOf(c.w, spawn.value)]
      && r.value.scale == s.scale + [1]
      && r.value.ready
  {
    if |c.drivers| > 0 then Ok(s)
    else
      var st :- Start(Handle(None, false, None), s.t, GenRunArgs(cfg, AFLGoTool, c.w, onDisk),
                      LaunchDir(cfg, c.w), inherited, DriverEnv, spawn);
      Ok(Site(st.t, s.records + [RecordOf(c.w, st.h.pid.value)], s.scale + [1], true))
  }

  /**
   * `start` as written: the `AFLGoModel` row it creates leaves out the schema's `thread`
   * column, which may not be null, so once the worker has been spawned the insert raises
   * `IntegrityError`. The worker keeps running, but no record or scale row is written and
   * `ready` is not touched.
   */
  function StartControllerAsWritten(c: Controller, s: Site, cfg: map<string, ToolConfig>, onDisk: string -> bool,
                                    inherited: map<string, string>, spawn: Option<nat>): (o: Outcome<Site>)
    requires Spawnable(spawn, s.t)
    ensures |c.drivers| > 0 ==> o == Done(s)
    ensures |c.drivers| == 0 ==> o.Raised? && o.state.records == s.records && o.state.scale == s.scale
                                 && o.state.ready == s.ready
    ensures |c.drivers| == 0 ==> (o.exc == IntegrityError <==> GenRunArgs(cfg, AFLGoTool, c.w, onDisk).Ok? && spawn.Some?)
    ensures |c.drivers| == 0 && o.exc == IntegrityError ==> o.state.t == s.t[spawn.value := Proc(Running, [])]
    ensures |c.drivers| == 0 && o.exc != IntegrityError ==> o.state == s
  {
    if |c.drivers| > 0 then Done(s)
    else
      match Start(Handle(None, false, None), s.t, GenRunArgs(cfg, AFLGoTool, c.w, onDisk),
                  LaunchDir(cfg, c.w), inherited, DriverEnv, spawn)
      case Err(e) => Raised(s, e)
      case Ok(st) => Raised(s.(t := st.t), IntegrityError)
  }

  /**
   * The two starts spawn the same worker and fail the same way; they differ only in what the
   * insert persists: the written start raises where the corrected one records the worker.
   */
  lemma StartAsWrittenVsCorrected(c: Controller, s: Site, cfg: map<string, ToolConfig>, onDisk: string -> bool,
                                  inherited: map<string, string>, spawn: Option<nat>)
    requires Spawnable(spawn, s.t) && |c.drivers| == 0
    ensures var o := StartControllerAsWritten(c, s, cfg, onDisk, inherited, spawn);
      var r := StartController(c, s, cfg, onDisk, inherited, spawn);
      && (r.Err? ==> o == Raised(s, r.error))
      && (r.Ok? ==> o == Raised(r.value.(records := s.records, scale := s.scale, ready := s.ready), IntegrityError))
  {
  }

  /** Sends every driver `st` in order (`pause` or `resume`); the first driver without a process raises. */
  function SignalAll(ds: seq<Driver>, t: Table, st: Status): (o: Outcome<Table>)
    ensures o.state.Keys == t.Keys
    decreases |ds|
  {
    if |ds| == 0 then Done(t)
    else
      match (if st == Suspended then Pause(ds[0].h, t) else Resume(ds[0].h, t))
      case Err(e) => Raised(t, e)
      case Ok(t1) => SignalAll(ds[1..], t1, st)
  }

  /** `pause`/`resume` over all drivers raise iff some driver tracks no process; otherwise every driver's process has status `st`. */
  lemma SignalAllSpec(ds: seq<Driver>, t: Table, st: Status)
    ensures SignalAll(ds, t, st).Raised? <==> exists i :: 0 <= i < |ds| && Tracked(ds[i].h, t).None?
    ensures SignalAll(ds, t, st).Raised? ==> SignalAll(ds, t, st).exc == FuzzerDriverException
    ensures SignalAll(ds, t, st).Done? ==>
      forall i :: 0 <= i < |ds| ==> SignalAll(ds, t, st).state[ds[i].h.pid.value].status == st
  {
    SignalAllRaises(ds, t, st);
    SignalAllDone(ds, t, st);
  }

  lemma {:induction false} SignalAllRaises(ds: seq<Driver>, t: Table, st: Status)
    ensures SignalAll(ds, t, st).Raised? <==> exists i :: 0 <= i < |ds| && Tracked(ds[i].h, t).None?
    ensures SignalAll(ds, t, st).Raised? ==> SignalAll(ds, t, st).exc == FuzzerDriverException
    decreases |ds|
  {
    if |ds| > 0 {
      var r := if st == Suspended then Pause(ds[0].h, t) else Resume(ds[0].h, t);
      if r.Ok? {
        assert SignalAll(ds, t, st) == SignalAll(ds[1..], r.value, st);
        SignalAllRaises(ds[1..], r.value, st);
        assert forall h :: Tracked(h, r.value) == Tracked(h, t);
        UntrackedAfterFirst(ds, t, r.value);
      }
    }
  }

  /** When the first driver tracks a process, an untracked driver is one of the rest. */
  lemma UntrackedAfterFirst(ds: seq<Driver>, t: Table, t1: Table)
    requires |ds| > 0 && Tracked(ds[0].h, t).Some?
    requires forall h :: Tracked(h, t1) == Tracked(h, t)
    ensures (exists i :: 0 <= i < |ds| && Tracked(ds[i].h, t).None?) <==>
            (exists i :: 0 <= i < |ds[1..]| && Tracked(ds[1..][i].h, t1).None?)
  {
    assert forall i :: 1 <= i < |ds| ==> ds[i] == ds[1..][i - 1];
    if exists i :: 0 <= i < |ds| && Tracked(ds[i].h, t).None? {
      var i :| 0 <= i < |ds| && Tracked(ds[i].h, t).None?;
      assert Tracked(ds[1..][i - 1].h, t1).None?;
    }
  }

  lemma {:induction false} SignalAllDone(ds: seq<Driver>, t: Table, st: Status)
    ensures SignalAll(ds, t, st).Done? ==> forall i :: 0 <= i < |ds| ==>
      ds[i].h.pid.Some? && ds[i].h.pid.value in SignalAll(ds, t, st).state
      && SignalAll(ds, t, st).state[ds[i].h.pid.value].status == st
    decreases |ds|
  {
    if |ds| > 0 {
      var r := if st == Suspended then Pause(ds[0].h, t) else Resume(ds[0].h, t);
      if r.Ok? {
        var t1 := r.value;
        SignalAllDone(ds[1..], t1, st);
        assert forall i :: 1 <= i < |ds| ==> ds[i] == ds[1..][i - 1];
        var root := ds[0].h.pid.value;
        assert root in Group(t, root);
        assert t1[root].status == st;
        SignalAllKeeps(ds[1..], t1, st, root);
      }
    }
  }

  /** A process already given status `st` keeps it through later signals of the same kind. */
  lemma {:induction false} SignalAllKeeps(ds: seq<Driver>, t: Table, st: Status, p: nat)
    requires p in t && t[p].status == st
    ensures p in SignalAll(ds, t, st).state && SignalAll(ds, t, st).state[p].status == st
    decreases |ds|
  {
    if |ds| > 0 {
      var r := if st == Suspended then Pause(ds[0].h, t) else Resume(ds[0].h, t);
      if r.Ok? {
        SignalAllKeeps(ds[1..], r.value, st, p);
      }
    }
  }

  /** `stop` over all drivers, in order. */
  function StopAll(ds: seq<Driver>, t: Table): (r: Table)
    ensures r.Keys <= t.Keys
    ensures forall p :: p in r ==> r[p] == t[p]
    decreases |ds|
  {
    if |ds| == 0 then t else StopAll(ds[1..], Stop(ds[0].h, t))
  }

  /** After stopping every driver, none of them tracks a process. */
  lemma {:induction false} StopAllForgets(ds: seq<Driver>, t: Table)
    ensures forall i :: 0 <= i < |ds| ==> Tracked(ds[i].h, StopAll(ds, t)).None?
    decreases |ds|
  {
    if |ds| > 0 {
      var t1 := Stop(ds[0].h, t);
      StopAllForgets(ds[1..], t1);
      assert forall i :: 1 <= i < |ds| ==> ds[i] == ds[1..][i - 1];
      if Tracked(ds[0].h, t).Some? {
        StopForgets(ds[0].h, t);
      }
    }
  }

  /** The commands of the driver's command line (`scale` does nothing). */
  datatype Command = StartCmd | StopCmd | PauseCmd | ResumeCmd | ScaleCmd

  /**
   * One command-line invocation: a fresh controller, `init` over the persisted records, then
   * the command. `resume` first reads the scale row (`ControllerModel.get()`); `stop` drops
   * both tables.
   */
  function Drive(w: Worker, cmd: Command, s: Site, cfg: map<string, ToolConfig>, onDisk: string -> bool,
                 inherited: map<string, string>, spawn: Option<nat>): (o: Outcome<Site>)
    requires Spawnable(spawn, s.t)
    ensures cmd == ScaleCmd ==> o == Done(s)
    ensures cmd == StopCmd ==> o.Done? && o.state.records == [] && o.state.scale == []
  {
    var c := Init(Controller(w, []), s);
    match cmd
    case StartCmd =>
      (match StartController(c, s, cfg, onDisk, inherited, spawn)
       case Ok(s1) => Done(s1)
       case Err(e) => Raised(s, e))
    case StopCmd => Done(Site(StopAll(c.drivers, s.t), [], [], s.ready))
    case PauseCmd =>
      var o := SignalAll(c.drivers, s.t, Suspended);
      if o.Done? then Done(s.(t := o.state)) else Raised(s.(t := o.state), o.exc)
    case ResumeCmd =>
      if |s.scale| == 0 then Raised(s, DoesNotExist)
      else
        var o := SignalAll(c.drivers, s.t, Running);
        if o.Done? then Done(s.(t := o.state)) else Raised(s.(t := o.state), o.exc)
    case ScaleCmd => Done(s)
  }

  /**
   * Starting from the command line twice launches once: the record persisted by the first
   * start becomes a driver at the second `init`, so the second start does nothing.
   */
  lemma DriveStartIdempotent(w: Worker, s: Site, cfg: map<string, ToolConfig>, onDisk: string -> bool,
                             inherited: map<string, string>, spawn: Option<nat>,
                             onDisk2: string -> bool, inherited2: map<string, string>, spawn2: Option<nat>)
    requires Spawnable(spawn, s.t)
    requires Drive(w, StartCmd, s, cfg, onDisk, inherited, spawn).Done?
    ensures var s1 := Drive(w, StartCmd, s, cfg, onDisk, inherited, spawn).state;
      Spawnable(spawn2, s1.t) ==> Drive(w, StartCmd, s1, cfg, onDisk2, inherited2, spawn2) == Done(s1)
  {
  }

  /** On an empty database, a start that succeeds launches a worker that a later `pause` suspends. */
  lemma DriveStartThenPause(w: Worker, s: Site, cfg: map<string, ToolConfig>, onDisk: string -> bool,
                            inherited: map<string, string>, p: nat)
    requires s.records == [] && Spawnable(Some(p), s.t)
    requires Drive(w, StartCmd, s, cfg, onDisk, inherited, Some(p)).Done?
    ensures var s1 := Drive(w, StartCmd, s, cfg, onDisk, inherited, Some(p)).state;
      var o := Drive(w, PauseCmd, s1, cfg, onDisk, inherited, None);
      o.Done? && o.state.t[p].status == Suspended
  {
    var s1 := Drive(w, StartCmd, s, cfg, onDisk, inherited, Some(p)).state;
    var c := Init(Controller(w, []), s1);
    assert c.drivers == [Revive(Controller(w, []), RecordOf(w, p))];
    SignalAllSpec(c.drivers, s1.t, Suspended);
  }

  /** One command-line invocation with `start` as written; the other commands are unaffected. */
  function DriveAsWritten(w: Worker, cmd: Command, s: Site, cfg: map<string, ToolConfig>, onDisk: string -> bool,
                          inherited: map<string, string>, spawn: Option<nat>): (o: Outcome<Site>)
    requires Spawnable(spawn, s.t)
    ensures cmd != StartCmd ==> o == Drive(w, cmd, s, cfg, onDisk, inherited, spawn)
    ensures cmd == StartCmd && |s.records| > 0 ==> o == Done(s)
    ensures cmd == StartCmd && |s.records| == 0 ==> o.Raised? && o.state.records == []
  {
    if cmd == StartCmd then StartControllerAsWritten(Init(Controller(w, []), s), s, cfg, onDisk, inherited, spawn)
    else Drive(w, cmd, s, cfg, onDisk, inherited, spawn)
  }

  /**
   * On an empty database the written `start` spawns worker `p` and raises `IntegrityError`
   * with nothing recorded; a second `start` then spawns another worker `p2`, and `pause`
   * suspends neither.
   */
  lemma DriveStartAsWrittenSpawnsAgain(w: Worker, s: Site, cfg: map<string, ToolConfig>, onDisk: string -> bool,
                                       inherited: map<string, string>, p: nat, p2: nat)
    requires s.records == [] && Spawnable(Some(p), s.t)
    requires GenRunArgs(cfg, AFLGoTool, w, onDisk).Ok?
    requires p2 != 0 && p2 != p && p2 !in s.t
    ensures var o1 := DriveAsWritten(w, StartCmd, s, cfg, onDisk, inherited, Some(p));
      var o2 := DriveAsWritten(w, StartCmd, o1.state, cfg, onDisk, inherited, Some(p2));
      var o3 := DriveAsWritten(w, PauseCmd, o2.state, cfg, onDisk, inherited, None);
      && o1 == Raised(s.(t := s.t[p := Proc(Running, [])]), IntegrityError)
      && o2 == Raised(s.(t := s.t[p := Proc(Running, [])][p2 := Proc(Running, [])]), IntegrityError)
      && o3 == Done(o2.state)
      && o3.state.t[p].status == Running && o3.state.t[p2].status == Running
  {
  }

  /** After `stop` from the command line no record remains and no persisted worker is tracked any more. */
  lemma DriveStopForgets(w: Worker, s: Site, cfg: map<string, ToolConfig>, onDisk: string -> bool,
                         inherited: map<string, string>)
    ensures var s1 := Drive(w, StopCmd, s, cfg, onDisk, inherited, None).state;
      && s1.records == []
      && forall i :: 0 <= i < |s.records| ==> Tracked(Revive(Controller(w, []), s.records[i]).h, s1.t).None?
  {
    var c := Init(Controller(w, []), s);
    StopAllForgets(c.drivers, s.t);
  }
}
