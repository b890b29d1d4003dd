/** `sandbox create` (sandbox.js lines 23-77): scan the options, reject bad
    input, make sure the runtime is up, plan the mounts, launch the sandbox,
    import every directory, run the script, and tear the sandbox down again
    when a step after the launch fails. */
module Creator {
  import opened Results
  import opened Seqs
  import opened Text
  import opened Messages
  import opened Args
  import opened Planner
  import opened Runtime

  /** How the invocation ends: the sandbox is ready (exit 0), the usage text
      is shown (exit 0), or an error is reported (exit 1). */
  datatype Status = Ready | Usage | Halted(error: CreateError)

  /** Everything an invocation does that can be observed: the commands issued
      to the runtime in order, the lines written to standard output, and how
      it ends. */
  datatype Report = Report(trace: seq<Command>, out: seq<string>, status: Status)

  /** A command to issue, and the line printed once it succeeds. */
  datatype Step = Step(cmd: Command, note: Option<string>)

  /** How far a run of steps got: the commands issued, the lines printed, and
      the message of the failure that stopped it, if one did. */
  datatype Progress = Progress(issued: seq<Command>, out: seq<string>, error: Option<Refusal>)

  /** The lines printed by a run of steps that all succeed. */
  function Notes(steps: seq<Step>): seq<string>
    decreases |steps|
  {
    if |steps| == 0 then []
    else NoteOf(steps[0]) + Notes(steps[1..])
  }

  /** The runtime acknowledged every command of `t` at positions `lo` up to
      `hi`, each given the commands before it in `t`. */
  ghost predicate Acked(rt: Oracle, t: seq<Command>, lo: int, hi: int) {
    && 0 <= lo && hi <= |t|
    && forall k :: lo <= k < hi ==> rt(t[..k], t[k]).Done?
  }

  /** The runtime refused the last command of `t`. */
  ghost predicate LastRefused(rt: Oracle, t: seq<Command>) {
    |t| > 0 && rt(t[..|t| - 1], t[|t| - 1]).Failed?
  }

  /** The runtime's refusal of the last command of `t`. */
  ghost function LastRefusal(rt: Oracle, t: seq<Command>): Refusal
    requires LastRefused(rt, t)
  {
    Refusal(t[|t| - 1], rt(t[..|t| - 1], t[|t| - 1]).stderr)
  }

  /** The line a step prints once it succeeds, if any. */
  function NoteOf(s: Step): seq<string> {
    if s.note.Some? then [s.note.value] else []
  }

  /** Issues the steps one at a time after the commands `hist`, stopping at
      the first one the runtime refuses. */
  function Perform(steps: seq<Step>, rt: Oracle, hist: seq<Command>): (p: Progress)
    ensures |p.issued| <= |steps|
    ensures forall k :: 0 <= k < |p.issued| ==> p.issued[k] == steps[k].cmd
    ensures p.error.None? ==> |p.issued| == |steps|
    ensures p.error.Some? ==> |p.issued| > 0
    decreases |steps|
  {
    if |steps| == 0 then Progress([], [], None)
    else
      var c := steps[0].cmd;
      match rt(hist, c)
      case Failed(e) => Progress([c], [], Some(Refusal(c, e)))
      case Done =>
        var rest := Perform(steps[1..], rt, hist + [c]);
        var issued := [c] + rest.issued;
        assert forall k :: 1 <= k < |issued| ==> issued[k] == rest.issued[k - 1] == steps[1..][k - 1].cmd;
        Progress(issued, NoteOf(steps[0]) + rest.out, rest.error)
  }

  /** Prepending an acknowledged command to acknowledged commands. */
  lemma AckedCons(rt: Oracle, hist: seq<Command>, c: Command, rest: seq<Command>, n: int)
    requires rt(hist, c).Done?
    requires 0 <= n <= |rest|
    requires Acked(rt, (hist + [c]) + rest, |hist| + 1, |hist| + 1 + n)
    ensures Acked(rt, hist + ([c] + rest), |hist|, |hist| + 1 + n)
  {
    var t := hist + ([c] + rest);
    assert t == (hist + [c]) + rest;
    assert t[..|hist|] == hist;
  }

  /** A run whose first step is acknowledged continues with the rest of the
      steps after it. */
  lemma PerformDone(steps: seq<Step>, rt: Oracle, hist: seq<Command>)
    requires |steps| > 0 && rt(hist, steps[0].cmd).Done?
    ensures var c, rest := steps[0].cmd, Perform(steps[1..], rt, hist + [steps[0].cmd]);
      Perform(steps, rt, hist) == Progress([c] + rest.issued, NoteOf(steps[0]) + rest.out, rest.error)
  {
  }

  /** A run whose first step is refused stops there with that refusal's message. */
  lemma PerformFailed(steps: seq<Step>, rt: Oracle, hist: seq<Command>)
    requires |steps| > 0 && rt(hist, steps[0].cmd).Failed?
    ensures var c := steps[0].cmd;
      Perform(steps, rt, hist) == Progress([c], [], Some(Refusal(c, rt(hist, c).stderr)))
  {
  }

  /** The commands `Perform` issued were acknowledged, except the last one
      when it stopped, which the runtime refused and whose message it reports. */
  lemma PerformAcked(steps: seq<Step>, rt: Oracle, hist: seq<Command>)
    ensures var p := Perform(steps, rt, hist);
      && (p.error.None? ==> Acked(rt, hist + p.issued, |hist|, |hist| + |p.issued|))
      && (p.error.Some? ==>
           && Acked(rt, hist + p.issued, |hist|, |hist| + |p.issued| - 1)
           && LastRefused(rt, hist + p.issued)
           && p.error.value == LastRefusal(rt, hist + p.issued))
  {
    PerformAckedPrefix(steps, rt, hist);
    PerformRefusedLast(steps, rt, hist);
  }

  /** Every command `Perform` issued but the one it stopped at was acknowledged. */
  lemma {:induction false} PerformAckedPrefix(steps: seq<Step>, rt: Oracle, hist: seq<Command>)
    ensures var p := Perform(steps, rt, hist);
      Acked(rt, hist + p.issued, |hist|, |hist| + |p.issued| - (if p.error.Some? then 1 else 0))
    decreases |steps|
  {
    if |steps| > 0 {
      var c := steps[0].cmd;
      if rt(hist, c).Done? {
        var p := Perform(steps, rt, hist);
        var rest := Perform(steps[1..], rt, hist + [c]);
        PerformAckedPrefix(steps[1..], rt, hist + [c]);
        var n := |rest.issued| - (if rest.error.Some? then 1 else 0);
        assert p.issued == [c] + rest.issued;
        AckedCons(rt, hist, c, rest.issued, n);
      }
    }
  }

  /** When `Perform` stopped, the runtime refused the last command it issued,
      and the message is that refusal's. */
  lemma {:induction false} PerformRefusedLast(steps: seq<Step>, rt: Oracle, hist: seq<Command>)
    ensures var p := Perform(steps, rt, hist);
      p.error.Some? ==> LastRefused(rt, hist + p.issued) && p.error.value == LastRefusal(rt, hist + p.issued)
    decreases |steps|
  {
    if |steps| > 0 {
      var c := steps[0].cmd;
      if rt(hist, c).Failed? {
        RefusedLast(rt, hist, c);
        PerformFailed(steps, rt, hist);
      } else {
        var p := Perform(steps, rt, hist);
        var rest := Perform(steps[1..], rt, hist + [c]);
        PerformDone(steps, rt, hist);
        if rest.error.Some? {
          PerformRefusedLast(steps[1..], rt, hist + [c]);
          RefusedAfter(rt, hist, c, rest.issued, hist + p.issued, rest.error.value);
        }
      }
    }
  }

  /** The last refusal after `hist` and `c`, seen from the whole trace. */
  lemma RefusedAfter(rt: Oracle, hist: seq<Command>, c: Command, rest: seq<Command>, t: seq<Command>, m: Refusal)
    requires t == hist + ([c] + rest)
    requires LastRefused(rt, (hist + [c]) + rest) && m == LastRefusal(rt, (hist + [c]) + rest)
    ensures LastRefused(rt, t) && m == LastRefusal(rt, t)
  {
    AppendAssoc(hist, [c], rest);
  }


  /** A refused command is the last of the commands up to it. */
  lemma RefusedLast(rt: Oracle, hist: seq<Command>, c: Command)
    requires rt(hist, c).Failed?
    ensures LastRefused(rt, hist + [c])
    ensures LastRefusal(rt, hist + [c]) == Refusal(c, rt(hist, c).stderr)
  {
    assert (hist + [c])[..|hist|] == hist;
  }

  /** The lines `Perform` printed are those of the steps it completed. */
  lemma {:induction false} PerformOut(steps: seq<Step>, rt: Oracle, hist: seq<Command>)
    ensures var p := Perform(steps, rt, hist);
      p.out == Notes(steps[..|p.issued| - (if p.error.Some? then 1 else 0)])
    decreases |steps|
  {
    if |steps| > 0 {
      var c := steps[0].cmd;
      if rt(hist, c).Done? {
        var rest := Perform(steps[1..], rt, hist + [c]);
        PerformOut(steps[1..], rt, hist + [c]);
        var n := |rest.issued| - (if rest.error.Some? then 1 else 0);
        assert steps[..n + 1][1..] == steps[1..][..n];
      } else {
        assert steps[..0] == [];
      }
    }
  }

  /** A run that stops after its first step was acknowledged issued at least
      two commands. */
  lemma PerformPastFirst(steps: seq<Step>, rt: Oracle, hist: seq<Command>)
    requires |steps| > 0 && rt(hist, steps[0].cmd).Done?
    requires Perform(steps, rt, hist).error.Some?
    ensures |Perform(steps, rt, hist).issued| >= 2
  {
    var rest := Perform(steps[1..], rt, hist + [steps[0].cmd]);
    assert rest.error.Some?;
  }

  /** The readiness probe: the runtime is present, and its daemon is started. */
  const ReadinessSteps: seq<Step> := [Step(Version, None), Step(SystemStart, None)]

  /** Creates the destination of an imported directory. */
  function MkdirStep(name: string, x: Item): Step {
    Step(Exec(name, ["mkdir", "-p", x.dst], false), None)
  }

  /** Copies the contents of a directory's slot to its destination and reports the copy. */
  function CopyStep(name: string, x: Item): Step {
    Step(Exec(name, ["cp", "-R", x.src + "/.", x.dst + "/"], false), Some(CopiedLine(x)))
  }

  /** The two steps that import each directory, in plan order. */
  function ImportSteps(name: string, items: seq<Item>): (r: seq<Step>)
    ensures |r| == 2 * |items|
    ensures forall k :: 0 <= k < |items| ==> r[2 * k] == MkdirStep(name, items[k]) && r[2 * k + 1] == CopyStep(name, items[k])
    ensures forall k :: 0 <= k < |r| ==> r[k].cmd.Exec? && r[k].cmd.name == name
    decreases |items|
  {
    if |items| == 0 then []
    else
      var rest := ImportSteps(name, items[1..]);
      var r := [MkdirStep(name, items[0]), CopyStep(name, items[0])] + rest;
      assert forall k :: 1 <= k < |items| ==> r[2 * k] == MkdirStep(name, items[k]) && r[2 * k + 1] == CopyStep(name, items[k]) by {
        forall k | 1 <= k < |items| ensures r[2 * k] == MkdirStep(name, items[k]) && r[2 * k + 1] == CopyStep(name, items[k]) {
          assert r[2 * k] == rest[2 * (k - 1)];
          assert r[2 * k + 1] == rest[2 * (k - 1) + 1];
          assert items[k] == items[1..][k - 1];
        }
      }
      r
  }

  /** The mounts of the launch: one per planned directory, in order, then the
      script directory if there is a script. */
  function Mounts(plan: Plan): seq<string> {
    seq(|plan.items|, k requires 0 <= k < |plan.items| => plan.items[k].mount)
    + (if plan.script.Some? then [BindMount(plan.script.value.dir, ScriptMountPoint)] else [])
  }

  /** The launch command. */
  function LaunchCommand(o: Options, plan: Plan): Command {
    Run(o.name, Mounts(plan), o.image)
  }

  /** The script run, in the terminal, from its mount point. */
  function ScriptStep(o: Options, s: ScriptSpec): Step {
    Step(Exec(o.name, ["sh", ScriptMountPoint + "/" + s.name], true), None)
  }

  /** The steps after a successful launch: the import root, every import, then the script. */
  function AfterLaunch(o: Options, plan: Plan): seq<Step> {
    [Step(Exec(o.name, ["mkdir", "-p", o.base + "/host"], false), None)]
    + ImportSteps(o.name, plan.items)
    + (if plan.script.Some? then [ScriptStep(o, plan.script.value)] else [])
  }

  /** The commands of a run of steps. */
  function Commands(steps: seq<Step>): seq<Command> {
    seq(|steps|, k requires 0 <= k < |steps| => steps[k].cmd)
  }

  predicate IsTeardown(c: Command) {
    c.Stop? || c.Delete?
  }

  /** Every step after the launch is an `exec` in the sandbox. */
  lemma AfterLaunchExecs(o: Options, plan: Plan)
    ensures forall k :: 0 <= k < |AfterLaunch(o, plan)| ==>
      AfterLaunch(o, plan)[k].cmd.Exec? && AfterLaunch(o, plan)[k].cmd.name == o.name
  {
    var steps := AfterLaunch(o, plan);
    var imports := ImportSteps(o.name, plan.items);
    forall k | 0 <= k < |steps| ensures steps[k].cmd.Exec? && steps[k].cmd.name == o.name {
      if 1 <= k < 1 + |imports| {
        assert steps[k] == imports[k - 1];
      }
    }
  }

  /** The steps inside create's handler: the launch, then everything after it. */
  function GuardedSteps(o: Options, plan: Plan): seq<Step> {
    [Step(LaunchCommand(o, plan), None)] + AfterLaunch(o, plan)
  }

  /** The guarded part of create: launch, then the remaining steps; a failure
      after the launch stops and deletes the sandbox before it is reported. */
  function LaunchAndImport(o: Options, plan: Plan, rt: Oracle, hist: seq<Command>): (r: Report)
    ensures |r.trace| > 0 && r.trace[0] == LaunchCommand(o, plan)
    ensures !r.status.Usage?
    ensures r.status.Ready? ==> |r.out| > 0 && r.out[|r.out| - 1] == "Ready: " + o.name
  {
    var p := Perform(GuardedSteps(o, plan), rt, hist);
    var created := rt(hist, LaunchCommand(o, plan)).Done?;
    match p.error
    case None => Report(p.issued, p.out + ["Ready: " + o.name], Ready)
    case Some(m) =>
      var teardown := if created then [Stop(o.name), Delete(o.name)] else [];
      Report(p.issued + teardown, p.out, Halted(Aborted(o.name, m)))
  }

  /** A refused launch is reported, through create's handler, and nothing
      else is issued: no rollback, since nothing was created. */
  lemma LaunchRefused(o: Options, plan: Plan, rt: Oracle, hist: seq<Command>)
    requires rt(hist, LaunchCommand(o, plan)).Failed?
    ensures var r := LaunchAndImport(o, plan, rt, hist);
      && r.trace == [LaunchCommand(o, plan)] && r.out == []
      && r.status == Halted(Aborted(o.name, Refusal(LaunchCommand(o, plan), rt(hist, LaunchCommand(o, plan)).stderr)))
  {
  }

  /** When the sandbox is ready, every guarded step was issued and
      acknowledged, and every copy was reported before "Ready". */
  lemma LaunchReady(o: Options, plan: Plan, rt: Oracle, hist: seq<Command>)
    requires LaunchAndImport(o, plan, rt, hist).status.Ready?
    ensures var r := LaunchAndImport(o, plan, rt, hist);
      && r.trace == Commands(GuardedSteps(o, plan))
      && Acked(rt, hist + r.trace, |hist|, |hist| + |r.trace|)
      && r.out == Notes(AfterLaunch(o, plan)) + ["Ready: " + o.name]
  {
    var steps := GuardedSteps(o, plan);
    var p := Perform(steps, rt, hist);
    PerformAcked(steps, rt, hist);
    PerformOut(steps, rt, hist);
    assert p.issued == Commands(steps);
    assert steps[..|p.issued|] == steps;
    assert steps[1..] == AfterLaunch(o, plan);
  }

  /** After an acknowledged launch, a refused later step is the last command
      before the sandbox is stopped and deleted, and its message is reported. */
  lemma LaunchRolledBack(o: Options, plan: Plan, rt: Oracle, hist: seq<Command>)
    requires rt(hist, LaunchCommand(o, plan)).Done?
    requires !LaunchAndImport(o, plan, rt, hist).status.Ready?
    ensures var r := LaunchAndImport(o, plan, rt, hist);
      var u := hist + r.trace[..|r.trace| - 2];
      && r.status.Halted?
      && |r.trace| >= 4
      && r.trace[|r.trace| - 2..] == [Stop(o.name), Delete(o.name)]
      && Acked(rt, u, |hist|, |u| - 1)
      && LastRefused(rt, u)
      && r.status.error == Aborted(o.name, LastRefusal(rt, u))
  {
    var steps := GuardedSteps(o, plan);
    var p := Perform(steps, rt, hist);
    PerformAcked(steps, rt, hist);
    PerformPastFirst(steps, rt, hist);
    assert p.error.Some?;
    TornDown(rt, hist, p, o.name, LaunchAndImport(o, plan, rt, hist));
  }

  /** A report that tears the sandbox down after a refusal keeps, before
      the teardown, exactly the commands issued up to that refusal. */
  lemma TornDown(rt: Oracle, hist: seq<Command>, p: Progress, name: string, r: Report)
    requires p.error.Some? && |p.issued| >= 2
    requires Acked(rt, hist + p.issued, |hist|, |hist| + |p.issued| - 1)
    requires LastRefused(rt, hist + p.issued) && p.error.value == LastRefusal(rt, hist + p.issued)
    requires r == Report(p.issued + [Stop(name), Delete(name)], p.out, Halted(Aborted(name, p.error.value)))
    ensures var u := hist + r.trace[..|r.trace| - 2];
      && r.status.Halted?
      && |r.trace| >= 4
      && r.trace[|r.trace| - 2..] == [Stop(name), Delete(name)]
      && Acked(rt, u, |hist|, |u| - 1)
      && LastRefused(rt, u)
      && r.status.error == Aborted(name, LastRefusal(rt, u))
  {
    assert r.trace[..|r.trace| - 2] == p.issued;
  }

  /** In the guarded trace the launch comes first and never again, and a
      teardown command, when issued, is among the last two commands, after a
      failure that followed an acknowledged launch. */
  lemma LaunchTraceShape(o: Options, plan: Plan, rt: Oracle, hist: seq<Command>)
    ensures var r := LaunchAndImport(o, plan, rt, hist);
      forall k :: 0 <= k < |r.trace| ==>
        && (IsTeardown(r.trace[k]) ==> k >= |r.trace| - 2 && r.status.Halted? && rt(hist, LaunchCommand(o, plan)).Done?)
        && (r.trace[k].Run? ==> k == 0)
  {
    var steps := GuardedSteps(o, plan);
    var p := Perform(steps, rt, hist);
    AfterLaunchExecs(o, plan);
    forall k | 0 < k < |p.issued| ensures p.issued[k].Exec? {
      assert p.issued[k] == steps[k].cmd == AfterLaunch(o, plan)[k - 1].cmd;
    }
  }

  /** The input checks that precede every runtime command. */
  predicate RejectedEarly(args: seq<string>) {
    || "-h" in args || "--help" in args
    || Scan(args).Err?
    || |Scan(args).value.dirs| == 0
    || !StartsWith(Scan(args).value.base, "/")
  }

  /** `sandbox create` with the tokens `args`, the host filesystem `fs` and the runtime `rt`. */
  function Create(args: seq<string>, fs: FileSystem, rt: Oracle): (r: Report)
    ensures r.status.Usage? <==> "-h" in args || "--help" in args
    ensures r.trace == [] ==> r.out == []
    ensures r.trace != [] ==> r.trace[0] == Version
    ensures r.status.Ready? ==>
      Scan(args).Ok? && |r.out| > 0 && r.out[|r.out| - 1] == "Ready: " + Scan(args).value.name
  {
    if "-h" in args || "--help" in args then Report([], [], Usage)
    else
      match Scan(args)
      case Err(flag) => Report([], [], Halted(MissingValue(flag)))
      case Ok(o) =>
        if |o.dirs| == 0 then Report([], [], Halted(NoDirectories))
        else if !StartsWith(o.base, "/") then Report([], [], Halted(RelativeBase(o.base)))
        else
          var r := Provision(o, fs, rt);
          assert !r.status.Usage? && r.trace != [] && r.trace[0] == Version;
          r
  }

  /** What create does once its input passed the checks: the readiness
      probe, planning, then the guarded launch. */
  function Provision(o: Options, fs: FileSystem, rt: Oracle): (r: Report)
    ensures |r.trace| > 0 && r.trace[0] == Version
    ensures !r.status.Usage?
    ensures r.status.Ready? ==>
      PlanCreate(fs, o).Ok? && |r.out| > 0 && r.out[|r.out| - 1] == "Ready: " + o.name
  {
    var ready := Perform(ReadinessSteps, rt, []);
    if ready.error.Some? then Report(ready.issued, [], Halted(ProbeFailed(ready.error.value)))
    else
      match PlanCreate(fs, o)
      case Err(e) => Report(ready.issued, [], Halted(e))
      case Ok(plan) =>
        var r := LaunchAndImport(o, plan, rt, ready.issued);
        Report(ready.issued + r.trace, r.out, r.status)
  }

  /** Input that passed the checks is provisioned. */
  lemma Admitted(args: seq<string>, fs: FileSystem, rt: Oracle)
    requires !RejectedEarly(args)
    ensures Create(args, fs, rt) == Provision(Scan(args).value, fs, rt)
  {
  }

  /** The outcome of the readiness probe: the version check, then the start
      of the daemon, each issued only if the one before was acknowledged. */
  lemma ReadinessOutcome(rt: Oracle)
    ensures var p := Perform(ReadinessSteps, rt, []);
      && (rt([], Version).Failed? ==>
           p.issued == [Version] && p.error == Some(Refusal(Version, rt([], Version).stderr)))
      && (rt([], Version).Done? && rt([Version], SystemStart).Failed? ==>
           p.issued == [Version, SystemStart] && p.error == Some(Refusal(SystemStart, rt([Version], SystemStart).stderr)))
      && (p.error.None? <==> rt([], Version).Done? && rt([Version], SystemStart).Done?)
      && (p.error.None? ==> p.issued == [Version, SystemStart])
      && p.out == []
  {
    if rt([], Version).Failed? {
      PerformFailed(ReadinessSteps, rt, []);
    } else {
      VersionAcked(rt);
    }
  }

  /** Once the version check is acknowledged, the probe goes on with the
      start of the daemon. */
  lemma VersionAcked(rt: Oracle)
    requires rt([], Version).Done?
    ensures var p := Perform(ReadinessSteps, rt, []);
      && (rt([Version], SystemStart).Failed? ==>
           p == Progress([Version, SystemStart], [], Some(Refusal(SystemStart, rt([Version], SystemStart).stderr))))
      && (rt([Version], SystemStart).Done? ==> p == Progress([Version, SystemStart], [], None))
  {
    var s := ReadinessSteps;
    var s1 := [Step(SystemStart, None)];
    assert s[1..] == s1;
    assert [] + [Version] == [Version];
    PerformDone(s, rt, []);
    if rt([Version], SystemStart).Failed? {
      PerformFailed(s1, rt, [Version]);
    } else {
      PerformDone(s1, rt, [Version]);
      assert s1[1..] == [];
    }
  }

  /** The runtime acknowledges every command. */
  ghost predicate AlwaysDone(rt: Oracle) {
    forall h, c :: rt(h, c) == Done
  }

  /** The runtime acknowledged a launch somewhere in `t`. */
  ghost predicate Launched(rt: Oracle, t: seq<Command>) {
    exists j :: 0 <= j < |t| && t[j].Run? && rt(t[..j], t[j]).Done?
  }

  /** `t` holds a teardown command. */
  predicate HasTeardown(t: seq<Command>) {
    exists k :: 0 <= k < |t| && IsTeardown(t[k])
  }

  /** Help, a missing value, no directory and a relative base are all decided
      before the runtime is asked anything, whatever the host and runtime; every
      other invocation starts with the version check. */
  lemma EarlyRejection(args: seq<string>, fs: FileSystem, rt: Oracle, fs2: FileSystem, rt2: Oracle)
    ensures Create(args, fs, rt).trace == [] <==> RejectedEarly(args)
    ensures RejectedEarly(args) ==> Create(args, fs, rt) == Create(args, fs2, rt2) && Create(args, fs, rt).out == []
    ensures !RejectedEarly(args) ==> Create(args, fs, rt).trace[0] == Version
  {
    if !RejectedEarly(args) {
      ReadinessOutcome(rt);
    }
  }

  /** The error each early rejection reports, checked in the source's order. */
  lemma EarlyErrors(args: seq<string>, fs: FileSystem, rt: Oracle)
    ensures ("-h" in args || "--help" in args) ==> Create(args, fs, rt).status == Usage
    ensures !("-h" in args || "--help" in args) && Scan(args).Err? ==>
      Create(args, fs, rt).status == Halted(MissingValue(Scan(args).error)) && IsFlag(Scan(args).error)
    ensures !("-h" in args || "--help" in args) && Scan(args).Ok? && Scan(args).value.dirs == [] ==>
      Create(args, fs, rt).status == Halted(NoDirectories)
    ensures !("-h" in args || "--help" in args) && Scan(args).Ok? && Scan(args).value.dirs != [] && !StartsWith(Scan(args).value.base, "/") ==>
      Create(args, fs, rt).status == Halted(RelativeBase(Scan(args).value.base))
  {
  }

  /** A flag left without a value stops create with that flag named, however
      the tokens before it scanned. */
  lemma MissingValueHalts(a: seq<string>, flag: string, rest: seq<string>, fs: FileSystem, rt: Oracle)
    requires Scan(a).Ok? && IsFlag(flag)
    requires rest == [] || rest[0] == ""
    requires "-h" !in a + [flag] + rest && "--help" !in a + [flag] + rest
    ensures Create(a + [flag] + rest, fs, rt) == Report([], [], Halted(MissingValue(flag)))
  {
    MissingValueReported(a, flag, rest);
  }

  /** A refused readiness probe issued a prefix of the two probe commands,
      the last of which was refused. */
  lemma ProbeRefused(rt: Oracle)
    requires Perform(ReadinessSteps, rt, []).error.Some?
    ensures var p := Perform(ReadinessSteps, rt, []);
      && 1 <= |p.issued| <= 2 && p.issued == [Version, SystemStart][..|p.issued|]
      && Acked(rt, p.issued, 0, |p.issued| - 1)
      && LastRefused(rt, p.issued)
      && p.error.value == LastRefusal(rt, p.issued)
  {
    var p := Perform(ReadinessSteps, rt, []);
    var t := [Version, SystemStart];
    assert ReadinessSteps[0].cmd == Version && ReadinessSteps[1..][0].cmd == SystemStart;
    if rt([], Version).Failed? {
      assert p.issued == t[..1];
    } else {
      assert ReadinessSteps[1..][1..] == [];
      assert [] + [Version] == t[..1];
      assert p.issued == t;
      assert t[..1] == [Version];
    }
  }

  /** A refused readiness command ends create: nothing else is issued, the
      filesystem is never consulted, and its message is reported as thrown, so
      it is never rewritten into a name conflict. */
  lemma ReadinessRefused(o: Options, fs: FileSystem, rt: Oracle, fs2: FileSystem)
    requires Perform(ReadinessSteps, rt, []).error.Some?
    ensures var r := Provision(o, fs, rt);
      && 1 <= |r.trace| <= 2 && r.trace == [Version, SystemStart][..|r.trace|]
      && Acked(rt, r.trace, 0, |r.trace| - 1)
      && LastRefused(rt, r.trace)
      && r.status == Halted(ProbeFailed(LastRefusal(rt, r.trace)))
      && r.out == []
      && r == Provision(o, fs2, rt)
  {
    var p := Perform(ReadinessSteps, rt, []);
    ProbeRefused(rt);
    assert Provision(o, fs, rt) == Report(p.issued, [], Halted(ProbeFailed(p.error.value)));
    assert Provision(o, fs2, rt) == Report(p.issued, [], Halted(ProbeFailed(p.error.value)));
  }

  /** A refused plan ends create after the readiness probe and before the
      launch: the planning error is reported as it is. */
  lemma PlanRefused(o: Options, fs: FileSystem, rt: Oracle)
    requires rt([], Version).Done? && rt([Version], SystemStart).Done?
    requires PlanCreate(fs, o).Err?
    ensures Provision(o, fs, rt) == Report([Version, SystemStart], [], Halted(PlanCreate(fs, o).error))
  {
    ReadinessOutcome(rt);
  }

  /** The first refused directory is unique. */
  lemma FirstRefusedUnique(fs: FileSystem, dirs: seq<string>, i: int, j: int)
    requires FirstRefused(fs, dirs, i) && FirstRefused(fs, dirs, j)
    ensures i == j
  {
  }

  /** With an acceptable script (or none), the first refused directory decides
      the error, after the readiness probe and before the launch. */
  lemma DirectoryRefused(o: Options, fs: FileSystem, rt: Oracle, j: int)
    requires rt([], Version).Done? && rt([Version], SystemStart).Done?
    requires PlanScript(fs, o.script).Ok?
    requires FirstRefused(fs, o.dirs, j)
    ensures Provision(o, fs, rt) == Report([Version, SystemStart], [], Halted(ItemError(fs, o.dirs[j])))
  {
    var items := PlanItems(fs, o.base, o.dirs);
    assert items.Err?;
    var i :| FirstRefused(fs, o.dirs, i) && items.error == ItemError(fs, o.dirs[i]);
    FirstRefusedUnique(fs, o.dirs, i, j);
    PlanRefused(o, fs, rt);
  }

  /** The lines of two runs of steps, one after the other. */
  lemma {:induction false} NotesConcat(a: seq<Step>, b: seq<Step>)
    ensures Notes(a + b) == Notes(a) + Notes(b)
    decreases |a|
  {
    if |a| > 0 {
      assert (a + b)[1..] == a[1..] + b;
      NotesConcat(a[1..], b);
    } else {
      assert a + b == b;
    }
  }

  /** The report line of a copy. */
  function CopiedLine(x: Item): string {
    "Copied: " + x.abs + " -> " + x.dst
  }

  /** Importing one directory prints its copy line and nothing else. */
  lemma PairNotes(name: string, x: Item)
    ensures Notes([MkdirStep(name, x), CopyStep(name, x)]) == [CopiedLine(x)]
  {
    var head := [MkdirStep(name, x), CopyStep(name, x)];
    assert head[1..][1..] == [];
    assert Notes(head[1..]) == [CopiedLine(x)];
  }

  /** The copy lines of the items, in order. */
  function CopyLines(items: seq<Item>): (r: seq<string>)
    ensures |r| == |items|
    ensures forall k :: 0 <= k < |items| ==> r[k] == CopiedLine(items[k])
    decreases |items|
  {
    if |items| == 0 then []
    else
      var rest := CopyLines(items[1..]);
      assert forall k :: 1 <= k < |items| ==> items[1..][k - 1] == items[k];
      [CopiedLine(items[0])] + rest
  }

  /** Importing the items prints their copy lines, in order. */
  lemma {:induction false} ImportNotes(name: string, items: seq<Item>)
    ensures Notes(ImportSteps(name, items)) == CopyLines(items)
    decreases |items|
  {
    if |items| > 0 {
      var head := [MkdirStep(name, items[0]), CopyStep(name, items[0])];
      var rest := ImportSteps(name, items[1..]);
      ImportNotes(name, items[1..]);
      NotesConcat(head, rest);
      PairNotes(name, items[0]);
      assert ImportSteps(name, items) == head + rest;
    }
  }

  /** Once the launch is acknowledged, standard output gets exactly one line
      per directory copied, in plan order; the import root and the script
      print nothing of their own. */
  lemma CopyNotes(o: Options, plan: Plan)
    ensures Notes(AfterLaunch(o, plan)) == CopyLines(plan.items)
  {
    var root := [Step(Exec(o.name, ["mkdir", "-p", o.base + "/host"], false), None)];
    var imports := ImportSteps(o.name, plan.items);
    var tail := if plan.script.Some? then [ScriptStep(o, plan.script.value)] else [];
    assert AfterLaunch(o, plan) == root + imports + tail;
    NotesConcat(root + imports, tail);
    NotesConcat(root, imports);
    assert Notes(root) == [] && Notes(tail) == [];
    ImportNotes(o.name, plan.items);
    assert Notes(root) + Notes(imports) + Notes(tail) == Notes(imports);
  }

  /** The launch mounts every planned directory at its slot, in plan order,
      and then the script directory if there is a script. */
  lemma MountsShape(plan: Plan)
    ensures var m := Mounts(plan);
      && |m| == |plan.items| + (if plan.script.Some? then 1 else 0)
      && (forall k :: 0 <= k < |plan.items| ==> m[k] == plan.items[k].mount)
      && (plan.script.Some? ==> m[|m| - 1] == BindMount(plan.script.value.dir, ScriptMountPoint))
  {
  }

  /** Every descriptor the launch passes, for the directories and for the
      script alike, splits at its commas into exactly four fields naming its
      source path and its mount point: the runtime reads each as meant. */
  lemma LaunchMountFields(fs: FileSystem, o: Options)
    requires PlanCreate(fs, o).Ok?
    ensures var plan := PlanCreate(fs, o).value;
      var m := Mounts(plan);
      && (forall k :: 0 <= k < |m| ==> |Split(m[k], ',')| == 4)
      && (forall k :: 0 <= k < |plan.items| ==>
            Split(m[k], ',') == ["type=bind", "source=" + plan.items[k].abs, "target=" + ImportSlot(k), "readonly"])
      && (plan.script.Some? ==>
            Split(m[|m| - 1], ',') == ["type=bind", "source=" + plan.script.value.dir, "target=" + ScriptMountPoint, "readonly"])
  {
    var plan := PlanCreate(fs, o).value;
    MountsShape(plan);
    forall k | 0 <= k < |plan.items|
      ensures Split(plan.items[k].mount, ',') == ["type=bind", "source=" + plan.items[k].abs, "target=" + ImportSlot(k), "readonly"]
    {
      PlanMountFields(fs, o.base, o.dirs, k);
    }
    if plan.script.Some? {
      assert ',' !in ScriptMountPoint;
      BindMountFields(plan.script.value.dir, ScriptMountPoint);
    }
  }

  /** The commands of the guarded part when every one goes through: the
      launch, the import root, a `mkdir` and a `cp` per directory in plan
      order, then the script, run live. */
  lemma GuardedCommands(o: Options, plan: Plan)
    ensures var t := Commands(GuardedSteps(o, plan));
      var n := |plan.items|;
      && |t| == 2 + 2 * n + (if plan.script.Some? then 1 else 0)
      && t[0] == Run(o.name, Mounts(plan), o.image)
      && t[1] == Exec(o.name, ["mkdir", "-p", o.base + "/host"], false)
      && (forall k :: 0 <= k < n ==>
           && t[2 + 2 * k] == Exec(o.name, ["mkdir", "-p", plan.items[k].dst], false)
           && t[3 + 2 * k] == Exec(o.name, ["cp", "-R", plan.items[k].src + "/.", plan.items[k].dst + "/"], false))
      && (plan.script.Some? ==> t[|t| - 1] == Exec(o.name, ["sh", ScriptMountPoint + "/" + plan.script.value.name], true))
  {
    var steps := GuardedSteps(o, plan);
    var imports := ImportSteps(o.name, plan.items);
    assert forall k :: 0 <= k < |imports| ==> steps[2 + k] == imports[k];
  }

  /** A runtime that acknowledges everything lets every step through. */
  lemma {:induction false} PerformAllDone(steps: seq<Step>, rt: Oracle, hist: seq<Command>)
    requires AlwaysDone(rt)
    ensures Perform(steps, rt, hist).error.None?
    decreases |steps|
  {
    if |steps| > 0 {
      assert rt(hist, steps[0].cmd) == Done;
      PerformAllDone(steps[1..], rt, hist + [steps[0].cmd]);
    }
  }

  /** With a runtime that acknowledges everything and a plan that succeeds,
      the sandbox is ready: the probe, the launch, the imports and the script
      are issued in that order, one copy line per directory is printed, then
      "Ready", and nothing is torn down. */
  lemma SuccessTrace(o: Options, fs: FileSystem, rt: Oracle)
    requires AlwaysDone(rt)
    requires PlanCreate(fs, o).Ok?
    ensures var r := Provision(o, fs, rt);
      var plan := PlanCreate(fs, o).value;
      && r.status == Ready
      && r.trace == [Version, SystemStart] + Commands(GuardedSteps(o, plan))
      && r.out == Notes(AfterLaunch(o, plan)) + ["Ready: " + o.name]
  {
    var plan := PlanCreate(fs, o).value;
    assert rt([], Version) == Done && rt([Version], SystemStart) == Done;
    ReadinessOutcome(rt);
    PerformAllDone(GuardedSteps(o, plan), rt, [Version, SystemStart]);
    LaunchReady(o, plan, rt, [Version, SystemStart]);
  }

  /** A refused launch, after the probe, is the last command issued: the
      failure is reported through create's handler and nothing is torn down. */
  lemma LaunchRefusedReport(o: Options, fs: FileSystem, rt: Oracle)
    requires rt([], Version).Done? && rt([Version], SystemStart).Done?
    requires PlanCreate(fs, o).Ok?
    requires rt([Version, SystemStart], LaunchCommand(o, PlanCreate(fs, o).value)).Failed?
    ensures var launch := LaunchCommand(o, PlanCreate(fs, o).value);
      Provision(o, fs, rt) == Report([Version, SystemStart, launch], [],
        Halted(Aborted(o.name, Refusal(launch, rt([Version, SystemStart], launch).stderr))))
  {
    var plan := PlanCreate(fs, o).value;
    ProvisionLaunched(o, fs, rt);
    LaunchRefused(o, plan, rt, [Version, SystemStart]);
  }

  /** Acknowledgements of the probe and of the guarded part make up the
      acknowledgement of the whole trace. */
  lemma AckedAfterProbe(rt: Oracle, rest: seq<Command>)
    requires rt([], Version).Done? && rt([Version], SystemStart).Done?
    requires Acked(rt, [Version, SystemStart] + rest, 2, 2 + |rest|)
    ensures Acked(rt, [Version, SystemStart] + rest, 0, 2 + |rest|)
  {
    var t := [Version, SystemStart] + rest;
    assert t[..0] == [] && t[..1] == [Version];
  }

  /** A command refused at its place in `t` means `t` was not acknowledged. */
  lemma RefusedInside(rt: Oracle, t: seq<Command>, k: int)
    requires 0 <= k < |t| && rt(t[..k], t[k]).Failed?
    ensures !Acked(rt, t, 0, |t|)
  {
  }

  /** A refusal followed by the teardown, seen from the trace with more
      commands in front. */
  lemma RefusalBeforeTail(rt: Oracle, hist: seq<Command>, tr: seq<Command>, t: seq<Command>, name: string, e: CreateError)
    requires t == hist + tr
    requires |tr| >= 2 && tr[|tr| - 2..] == [Stop(name), Delete(name)]
    requires LastRefused(rt, hist + tr[..|tr| - 2])
    requires e == Aborted(name, LastRefusal(rt, hist + tr[..|tr| - 2]))
    ensures |t| >= 3
    ensures t[|t| - 2..] == [Stop(name), Delete(name)]
    ensures rt(t[..|t| - 3], t[|t| - 3]).Failed?
    ensures LastRefused(rt, t[..|t| - 2])
    ensures e == Aborted(name, LastRefusal(rt, t[..|t| - 2]))
  {
    var u := hist + tr[..|tr| - 2];
    AppendSlices(hist, tr, |tr| - 2);
    TakeTake(t, |t| - 2, |t| - 3);
  }

  /** Once the probe is acknowledged and the plan succeeds, create's report
      is the probe followed by the guarded part. */
  lemma ProvisionLaunched(o: Options, fs: FileSystem, rt: Oracle)
    requires rt([], Version).Done? && rt([Version], SystemStart).Done?
    requires PlanCreate(fs, o).Ok?
    ensures var g := LaunchAndImport(o, PlanCreate(fs, o).value, rt, [Version, SystemStart]);
      Provision(o, fs, rt) == Report([Version, SystemStart] + g.trace, g.out, g.status)
  {
    ReadinessOutcome(rt);
  }

  /** With a plan that succeeds, create ends ready exactly when the runtime
      acknowledged every command it was given. */
  lemma ReadyIffAcked(o: Options, fs: FileSystem, rt: Oracle)
    requires PlanCreate(fs, o).Ok?
    ensures var r := Provision(o, fs, rt);
      r.status.Ready? <==> Acked(rt, r.trace, 0, |r.trace|)
  {
    var r := Provision(o, fs, rt);
    if Perform(ReadinessSteps, rt, []).error.Some? {
      ReadinessRefused(o, fs, rt, fs);
      RefusedInside(rt, r.trace, |r.trace| - 1);
    } else {
      ReadinessOutcome(rt);
      var plan := PlanCreate(fs, o).value;
      var g := LaunchAndImport(o, plan, rt, [Version, SystemStart]);
      ProvisionLaunched(o, fs, rt);
      GuardedReadyIffAcked(o, plan, rt, g, r.trace);
    }
  }

  /** After an acknowledged probe, the guarded part ends ready exactly when
      the runtime acknowledged every command of the whole trace. */
  lemma GuardedReadyIffAcked(o: Options, plan: Plan, rt: Oracle, g: Report, t: seq<Command>)
    requires rt([], Version).Done? && rt([Version], SystemStart).Done?
    requires g == LaunchAndImport(o, plan, rt, [Version, SystemStart])
    requires t == [Version, SystemStart] + g.trace
    ensures g.status.Ready? <==> Acked(rt, t, 0, |t|)
  {
    var hist := [Version, SystemStart];
    if rt(hist, LaunchCommand(o, plan)).Failed? {
      LaunchRefused(o, plan, rt, hist);
      assert t[..2] == hist;
      RefusedInside(rt, t, 2);
    } else if g.status.Ready? {
      LaunchReady(o, plan, rt, hist);
      AckedAfterProbe(rt, g.trace);
    } else {
      RolledBackNotAcked(o, plan, rt, g, t);
    }
  }

  /** A rollback after the probe leaves a refused command in the trace. */
  lemma RolledBackNotAcked(o: Options, plan: Plan, rt: Oracle, g: Report, t: seq<Command>)
    requires rt([Version, SystemStart], LaunchCommand(o, plan)).Done?
    requires g == LaunchAndImport(o, plan, rt, [Version, SystemStart])
    requires !g.status.Ready?
    requires t == [Version, SystemStart] + g.trace
    ensures !Acked(rt, t, 0, |t|)
  {
    LaunchRolledBack(o, plan, rt, [Version, SystemStart]);
    RefusalBeforeTail(rt, [Version, SystemStart], g.trace, t, o.name, g.status.error);
    RefusedInside(rt, t, |t| - 3);
  }

  /** Commands that neither launch nor tear down. */
  predicate Plain(hist: seq<Command>) {
    forall k :: 0 <= k < |hist| ==> !hist[k].Run? && !IsTeardown(hist[k])
  }

  /** Plain commands hold no teardown and no acknowledged launch. */
  lemma PlainQuiet(rt: Oracle, t: seq<Command>)
    requires Plain(t)
    ensures !HasTeardown(t) && !Launched(rt, t)
  {
  }

  /** The probe commands, and every prefix of them, are plain. */
  lemma ProbePlain(t: seq<Command>)
    requires |t| <= 2 && t == [Version, SystemStart][..|t|]
    ensures Plain(t)
  {
    assert forall k :: 0 <= k < |t| ==> t[k] == Version || t[k] == SystemStart;
  }

  /** A teardown after plain commands comes from a guarded part that failed
      after an acknowledged launch. */
  lemma TeardownMeansLaunched(o: Options, plan: Plan, rt: Oracle, hist: seq<Command>)
    requires Plain(hist)
    requires HasTeardown(hist + LaunchAndImport(o, plan, rt, hist).trace)
    ensures var g := LaunchAndImport(o, plan, rt, hist);
      g.status.Halted? && Launched(rt, hist + g.trace)
  {
    var g := LaunchAndImport(o, plan, rt, hist);
    var t := hist + g.trace;
    LaunchTraceShape(o, plan, rt, hist);
    var k :| 0 <= k < |t| && IsTeardown(t[k]);
    assert t[k] == g.trace[k - |hist|];
    assert t[..|hist|] == hist && t[|hist|] == g.trace[0];
  }

  /** After plain commands, the only launch a guarded part issues is its
      first command. */
  lemma LaunchedFirst(o: Options, plan: Plan, rt: Oracle, hist: seq<Command>)
    requires Plain(hist)
    requires Launched(rt, hist + LaunchAndImport(o, plan, rt, hist).trace)
    ensures rt(hist, LaunchCommand(o, plan)).Done?
  {
    var g := LaunchAndImport(o, plan, rt, hist);
    var t := hist + g.trace;
    LaunchTraceShape(o, plan, rt, hist);
    var j :| 0 <= j < |t| && t[j].Run? && rt(t[..j], t[j]).Done?;
    assert j >= |hist|;
    assert t[j] == g.trace[j - |hist|];
    assert t[..|hist|] == hist;
  }

  /** Create stops and deletes the sandbox exactly when it fails after the
      runtime acknowledged the launch; the teardown then closes the trace,
      right after the refused command, whose message is the one reported. */
  lemma RollbackExactly(o: Options, fs: FileSystem, rt: Oracle)
    ensures var r := Provision(o, fs, rt);
      && (HasTeardown(r.trace) <==> r.status.Halted? && Launched(rt, r.trace))
      && (HasTeardown(r.trace) ==>
           && |r.trace| >= 3
           && r.trace[|r.trace| - 2..] == [Stop(o.name), Delete(o.name)]
           && rt(r.trace[..|r.trace| - 3], r.trace[|r.trace| - 3]).Failed?
           && LastRefused(rt, r.trace[..|r.trace| - 2])
           && r.status == Halted(Aborted(o.name, LastRefusal(rt, r.trace[..|r.trace| - 2]))))
  {
    var r := Provision(o, fs, rt);
    if Perform(ReadinessSteps, rt, []).error.Some? {
      ReadinessRefused(o, fs, rt, fs);
      ProbePlain(r.trace);
      PlainQuiet(rt, r.trace);
    } else {
      ReadinessOutcome(rt);
      if PlanCreate(fs, o).Err? {
        PlanRefused(o, fs, rt);
        ProbePlain(r.trace);
        PlainQuiet(rt, r.trace);
      } else {
        RollbackAfterPlan(o, fs, rt);
      }
    }
  }

  /** The rollback property once the probe and the plan have succeeded. */
  lemma RollbackAfterPlan(o: Options, fs: FileSystem, rt: Oracle)
    requires rt([], Version).Done? && rt([Version], SystemStart).Done?
    requires PlanCreate(fs, o).Ok?
    ensures var r := Provision(o, fs, rt);
      && (HasTeardown(r.trace) <==> r.status.Halted? && Launched(rt, r.trace))
      && (HasTeardown(r.trace) ==>
           && |r.trace| >= 3
           && r.trace[|r.trace| - 2..] == [Stop(o.name), Delete(o.name)]
           && rt(r.trace[..|r.trace| - 3], r.trace[|r.trace| - 3]).Failed?
           && LastRefused(rt, r.trace[..|r.trace| - 2])
           && r.status == Halted(Aborted(o.name, LastRefusal(rt, r.trace[..|r.trace| - 2]))))
  {
    var plan := PlanCreate(fs, o).value;
    var hist := [Version, SystemStart];
    ProvisionLaunched(o, fs, rt);
    ProbePlain([Version, SystemStart]);
    GuardedTeardownIff(o, plan, rt, hist);
    var r := Provision(o, fs, rt);
    var g := LaunchAndImport(o, plan, rt, hist);
    assert r.trace == hist + g.trace && r.status == g.status;
    if HasTeardown(r.trace) {
      GuardedTeardownShape(o, plan, rt, hist, g, r.trace);
    }
  }

  /** After plain commands, the guarded part tears down exactly when it
      fails after an acknowledged launch. */
  lemma GuardedTeardownIff(o: Options, plan: Plan, rt: Oracle, hist: seq<Command>)
    requires Plain(hist)
    ensures var g := LaunchAndImport(o, plan, rt, hist);
      HasTeardown(hist + g.trace) <==> g.status.Halted? && Launched(rt, hist + g.trace)
  {
    var g := LaunchAndImport(o, plan, rt, hist);
    var t := hist + g.trace;
    if HasTeardown(t) {
      TeardownMeansLaunched(o, plan, rt, hist);
    }
    if g.status.Halted? && Launched(rt, t) {
      LaunchedFirst(o, plan, rt, hist);
      LaunchRolledBack(o, plan, rt, hist);
      assert IsTeardown(t[|t| - 1]);
    }
  }

  /** After plain commands, a guarded part that tears down ends with the
      teardown, right after the refused command whose message it reports. */
  lemma GuardedTeardownShape(o: Options, plan: Plan, rt: Oracle, hist: seq<Command>, g: Report, t: seq<Command>)
    requires Plain(hist)
    requires g == LaunchAndImport(o, plan, rt, hist) && t == hist + g.trace
    requires HasTeardown(t)
    ensures |t| >= 3
    ensures t[|t| - 2..] == [Stop(o.name), Delete(o.name)]
    ensures rt(t[..|t| - 3], t[|t| - 3]).Failed?
    ensures LastRefused(rt, t[..|t| - 2])
    ensures g.status == Halted(Aborted(o.name, LastRefusal(rt, t[..|t| - 2])))
  {
    TeardownMeansLaunched(o, plan, rt, hist);
    LaunchedFirst(o, plan, rt, hist);
    LaunchRolledBack(o, plan, rt, hist);
    RefusalBeforeTail(rt, hist, g.trace, t, o.name, g.status.error);
  }

  /** For every invocation: create stops and deletes the sandbox exactly when
      it fails after the runtime acknowledged the launch. */
  lemma CreateRollback(args: seq<string>, fs: FileSystem, rt: Oracle)
    ensures var r := Create(args, fs, rt);
      HasTeardown(r.trace) <==> r.status.Halted? && Launched(rt, r.trace)
  {
    if RejectedEarly(args) {
      EarlyRejection(args, fs, rt, fs, rt);
    } else {
      Admitted(args, fs, rt);
      RollbackExactly(Scan(args).value, fs, rt);
    }
  }

  /** For every invocation: create ends ready exactly when its input passes
      the checks, the host allows the plan, and the runtime acknowledged every
      command it was given. */
  lemma CreateReady(args: seq<string>, fs: FileSystem, rt: Oracle)
    ensures var r := Create(args, fs, rt);
      r.status.Ready? <==>
        && !RejectedEarly(args)
        && PlanCreate(fs, Scan(args).value).Ok?
        && Acked(rt, r.trace, 0, |r.trace|)
  {
    if !RejectedEarly(args) {
      var o := Scan(args).value;
      Admitted(args, fs, rt);
      if PlanCreate(fs, o).Ok? {
        ReadyIffAcked(o, fs, rt);
      }
    }
  }
}
