/**
 * The life cycle of one fuzzer worker (`PSFuzzer`): a handle holding a pid that acts on an
 * abstract process table standing in for psutil and subprocess.
 */
module Process {
  import opened Wrappers

  /** A process either runs or is stopped by a suspend signal. */
  datatype Status = Running | Suspended

  /**
   * One entry of the process table: its status and the pids that `children(recursive=True)`
   * reports for it, in the order they are reported.
   */
  datatype Proc = Proc(status: Status, descendants: seq<nat>)

  /** The live processes by pid; a killed process leaves the table. */
  type Table = map<nat, Proc>

  /** What a launch hands to the operating system. */
  datatype Launch = Launch(args: seq<string>, env: map<string, string>, cwd: Option<string>)

  /** A `PSFuzzer`: the pid it tracks (`None` when unset) and its debug settings. */
  datatype Handle = Handle(pid: Option<nat>, debug: bool, debugFile: Option<string>)

  /** `proc`: the tracked process, when a pid is set, is not 0, and names a live process. */
  function Tracked(h: Handle, t: Table): (p: Option<nat>)
    ensures p.None? <==> h.pid.None? || h.pid.value == 0 || h.pid.value !in t
    ensures p.Some? ==> h.pid == Some(p.value) && p.value in t
  {
    if h.pid.None? || h.pid.value == 0 then None
    else if h.pid.value in t then Some(h.pid.value)
    else None
  }

  /** The launch environment: the inherited one, overridden key by key by the driver's `gen_env`. */
  function LaunchEnv(inherited: map<string, string>, overrides: map<string, string>): (env: map<string, string>)
    ensures env.Keys == inherited.Keys + overrides.Keys
    ensures forall k :: k in overrides ==> env[k] == overrides[k]
    ensures forall k :: k in inherited && k !in overrides ==> env[k] == inherited[k]
  {
    inherited + overrides
  }

  /** The state after `run`/`start` and the launch it performed, if any. */
  datatype Started = Started(h: Handle, t: Table, launched: Option<Launch>)

  /** The pid the operating system may hand to a new process. */
  predicate Spawnable(spawn: Option<nat>, t: Table) {
    spawn.Some? ==> spawn.value != 0 && spawn.value !in t
  }

  /**
   * `run`: nothing when a process is tracked. Otherwise the driver's argument vector `args`
   * (an error when the driver's check fails), the merged environment, the debug-file
   * assertion, and the launch itself; `spawn` is the new pid, `None` when the launch fails.
   */
  function Run(h: Handle, t: Table, args: Result<seq<string>>, cwd: Option<string>,
               inherited: map<string, string>, overrides: map<string, string>, spawn: Option<nat>): (r: Result<Started>)
    requires Spawnable(spawn, t)
    ensures Tracked(h, t).Some? ==> r == Ok(Started(h, t, None))
    ensures r.Err? <==> Tracked(h, t).None? && (args.Err? || (h.debug && h.debugFile.None?) || spawn.None?)
    ensures r.Err? ==> r.error == (if args.Err? then args.error else if h.debug && h.debugFile.None? then AssertionError else OSError)
    ensures r.Ok? ==> Tracked(r.value.h, r.value.t).Some?
    ensures r.Ok? && Tracked(h, t).None? ==>
      && r.value.h == h.(pid := spawn)
      && r.value.t == t[spawn.value := Proc(Running, [])]
      && r.value.launched == Some(Launch(args.value, LaunchEnv(inherited, overrides), cwd))
  {
    if Tracked(h, t).Some? then Ok(Started(h, t, None))
    else
      var argv :- args;
      var env := LaunchEnv(inherited, overrides);
      if h.debug && h.debugFile.None? then Err(AssertionError)
      else if spawn.None? then Err(OSError)
      else
        var p := spawn.value;
        Ok(Started(h.(pid := Some(p)), t[p := Proc(Running, [])], Some(Launch(argv, env, cwd))))
  }

  /** `start`: with a process already tracked it only reports so; otherwise it runs. */
  function Start(h: Handle, t: Table, args: Result<seq<string>>, cwd: Option<string>,
                 inherited: map<string, string>, overrides: map<string, string>, spawn: Option<nat>): (r: Result<Started>)
    requires Spawnable(spawn, t)
    ensures Tracked(h, t).Some? ==> r == Ok(Started(h, t, None))
    ensures r.Ok? ==> Tracked(r.value.h, r.value.t).Some?
  {
    if Tracked(h, t).Some? then Ok(Started(h, t, None))
    else Run(h, t, args, cwd, inherited, overrides, spawn)
  }

  /** A second `start` after a successful one launches nothing and changes nothing, whatever its inputs. */
  lemma StartIdempotent(h: Handle, t: Table, args: Result<seq<string>>, cwd: Option<string>,
                        inherited: map<string, string>, overrides: map<string, string>, spawn: Option<nat>,
                        args2: Result<seq<string>>, cwd2: Option<string>,
                        inherited2: map<string, string>, overrides2: map<string, string>, spawn2: Option<nat>)
    requires Spawnable(spawn, t)
    requires Start(h, t, args, cwd, inherited, overrides, spawn).Ok?
    ensures var s := Start(h, t, args, cwd, inherited, overrides, spawn).value;
      Spawnable(spawn2, s.t) ==>
      Start(s.h, s.t, args2, cwd2, inherited2, overrides2, spawn2) == Ok(Started(s.h, s.t, None))
  {
  }

  /** The processes a signal reaches: every descendant, then the root. */
  function Group(t: Table, root: nat): seq<nat>
    requires root in t
  {
    t[root].descendants + [root]
  }

  /** Signals `pids` in order, giving each live one status `st`; a vanished one is skipped. */
  function SetStatus(t: Table, pids: seq<nat>, st: Status): (r: Table)
    ensures r.Keys == t.Keys
    ensures forall p :: p in t ==> r[p] == (if p in pids then t[p].(status := st) else t[p])
    decreases |pids|
  {
    if |pids| == 0 then t
    else
      var p := pids[0];
      var t1 := if p in t then t[p := t[p].(status := st)] else t;
      var r := SetStatus(t1, pids[1..], st);
      assert forall q :: q in pids <==> q == p || q in pids[1..];
      r
  }

  /** `pause`: raises without a tracked process; otherwise suspends the descendants, then the root. */
  function Pause(h: Handle, t: Table): (r: Result<Table>)
    ensures r.Err? <==> Tracked(h, t).None?
    ensures r.Err? ==> r.error == FuzzerDriverException
    ensures r.Ok? ==> r.value.Keys == t.Keys
    ensures r.Ok? ==> forall p :: p in t ==> r.value[p].descendants == t[p].descendants
    ensures r.Ok? ==> forall p :: p in t ==>
      r.value[p].status == (if p in Group(t, h.pid.value) then Suspended else t[p].status)
  {
    match Tracked(h, t)
    case None => Err(FuzzerDriverException)
    case Some(root) => Ok(SetStatus(t, Group(t, root), Suspended))
  }

  /** `resume`: raises without a tracked process; otherwise resumes the descendants, then the root. */
  function Resume(h: Handle, t: Table): (r: Result<Table>)
    ensures r.Err? <==> Tracked(h, t).None?
    ensures r.Err? ==> r.error == FuzzerDriverException
    ensures r.Ok? ==> r.value.Keys == t.Keys
    ensures r.Ok? ==> forall p :: p in t ==> r.value[p].descendants == t[p].descendants
    ensures r.Ok? ==> forall p :: p in t ==>
      r.value[p].status == (if p in Group(t, h.pid.value) then Running else t[p].status)
  {
    match Tracked(h, t)
    case None => Err(FuzzerDriverException)
    case Some(root) => Ok(SetStatus(t, Group(t, root), Running))
  }

  /** Kills `pids` in order; a vanished one is skipped. */
  function Kill(t: Table, pids: seq<nat>): (r: Table)
    ensures r.Keys == t.Keys - set p | p in pids
    ensures forall p :: p in r ==> r[p] == t[p]
    decreases |pids|
  {
    if |pids| == 0 then t
    else
      var p := pids[0];
      var r := Kill(t - {p}, pids[1..]);
      assert forall q :: q in pids <==> q == p || q in pids[1..];
      r
  }

  /** `stop`: nothing without a tracked process; otherwise kills the descendants, then the root. */
  function Stop(h: Handle, t: Table): (r: Table)
    ensures Tracked(h, t).None? ==> r == t
    ensures Tracked(h, t).Some? ==>
      && r.Keys == t.Keys - set p | p in Group(t, h.pid.value)
      && forall p :: p in r ==> p in t && r[p] == t[p]
  {
    match Tracked(h, t)
    case None => t
    case Some(root) => Kill(t, Group(t, root))
  }

  /** Every process of the worker's group has status `st`. */
  ghost predicate GroupIs(h: Handle, t: Table, st: Status) {
    Tracked(h, t).Some? && forall p :: p in Group(t, h.pid.value) && p in t ==> t[p].status == st
  }

  /** Resuming a paused worker whose processes all ran restores the table exactly. */
  lemma PauseResume(h: Handle, t: Table)
    requires GroupIs(h, t, Running)
    ensures Pause(h, t).Ok? && Resume(h, Pause(h, t).value) == Ok(t)
  {
    var t1 := Pause(h, t).value;
    var t2 := Resume(h, t1).value;
    assert Group(t1, h.pid.value) == Group(t, h.pid.value);
    assert forall p :: p in t ==> t2[p] == t[p];
    assert t2.Keys == t.Keys;
    assert t2 == t;
  }

  /** Pausing a resumed worker whose processes were all suspended restores the table exactly. */
  lemma ResumePause(h: Handle, t: Table)
    requires GroupIs(h, t, Suspended)
    ensures Resume(h, t).Ok? && Pause(h, Resume(h, t).value) == Ok(t)
  {
    var t1 := Resume(h, t).value;
    var t2 := Pause(h, t1).value;
    assert Group(t1, h.pid.value) == Group(t, h.pid.value);
    assert forall p :: p in t ==> t2[p] == t[p];
    assert t2.Keys == t.Keys;
    assert t2 == t;
  }

  /** Pausing twice is pausing once. */
  lemma PauseIdempotent(h: Handle, t: Table)
    requires Pause(h, t).Ok?
    ensures Pause(h, Pause(h, t).value) == Pause(h, t)
  {
    var t1 := Pause(h, t).value;
    var t2 := Pause(h, t1).value;
    assert Group(t1, h.pid.value) == Group(t, h.pid.value);
    assert forall p :: p in t ==> t2[p] == t1[p];
    assert t2.Keys == t1.Keys;
    assert t2 == t1;
  }

  /**
   * After `stop` the handle tracks nothing: `pause` and `resume` raise, a second `stop` is a
   * no-op, and `start` launches afresh.
   */
  lemma StopForgets(h: Handle, t: Table)
    requires Tracked(h, t).Some?
    ensures var t1 := Stop(h, t);
      && Tracked(h, t1).None?
      && Pause(h, t1) == Err(FuzzerDriverException)
      && Resume(h, t1) == Err(FuzzerDriverException)
      && Stop(h, t1) == t1
  {
    assert h.pid.value in Group(t, h.pid.value);
  }

  /** A freshly started worker pauses exactly its new process: it has no descendants yet. */
  lemma StartThenPause(h: Handle, t: Table, args: seq<string>, cwd: Option<string>,
                       inherited: map<string, string>, overrides: map<string, string>, p: nat)
    requires Tracked(h, t).None? && !(h.debug && h.debugFile.None?)
    requires Spawnable(Some(p), t)
    ensures var s := Start(h, t, Ok(args), cwd, inherited, overrides, Some(p)).value;
      Pause(s.h, s.t) == Ok(t[p := Proc(Suspended, [])])
  {
    var s := Start(h, t, Ok(args), cwd, inherited, overrides, Some(p)).value;
    assert Group(s.t, p) == [p];
    var t2 := Pause(s.h, s.t).value;
    assert forall q :: q in t2 ==> t2[q] == t[p := Proc(Suspended, [])][q];
    assert t2.Keys == t[p := Proc(Suspended, [])].Keys;
    assert t2 == t[p := Proc(Suspended, [])];
  }
}
