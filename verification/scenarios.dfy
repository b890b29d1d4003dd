/** Typical invocations of `sandbox create`, worked through the model for any
    paths and names: a clean import of two directories, a missing directory,
    a name conflict at launch, and a copy that fails after the launch. */
module Scenarios {
  import opened Results
  import opened Seqs
  import opened Text
  import opened Messages
  import opened Args
  import opened Planner
  import opened Runtime
  import opened Creator

  /** A token the scanner reads as a directory and that does not ask for help. */
  predicate PlainToken(a: string) {
    !IsFlag(a) && a != "-h" && a != "--help"
  }

  /** `create <dirs...> -n <name>` scans to the directories, the name, and
      the defaults otherwise. */
  lemma NamedOptions(dirs: seq<string>, name: string)
    requires forall k :: 0 <= k < |dirs| ==> !IsFlag(dirs[k])
    requires name != ""
    ensures Scan(dirs + ["-n", name]) == Ok(Defaults.(dirs := dirs, name := name))
  {
    PlainTokens(dirs);
    OptionAppended(dirs, "-n", name);
  }

  /** A plan for directories the host accepts, under the default base and
      without a script. */
  lemma DefaultPlan(fs: FileSystem, dirs: seq<string>, name: string)
    requires forall k :: 0 <= k < |dirs| ==> Importable(fs, dirs[k])
    ensures var plan := PlanCreate(fs, Defaults.(dirs := dirs, name := name));
      && plan.Ok? && plan.value.script == None
      && |plan.value.items| == |dirs|
      && forall k :: 0 <= k < |dirs| ==> plan.value.items[k] == ItemFor(fs, Defaults.base, dirs[k], k)
  {
  }

  /** The commands and copy lines of the guarded part for two directories
      and no script. */
  lemma TwoGuarded(o: Options, x1: Item, x2: Item)
    ensures var plan := Plan([x1, x2], None);
      && Commands(GuardedSteps(o, plan)) == [
           Run(o.name, [x1.mount, x2.mount], o.image),
           Exec(o.name, ["mkdir", "-p", o.base + "/host"], false),
           Exec(o.name, ["mkdir", "-p", x1.dst], false),
           Exec(o.name, ["cp", "-R", x1.src + "/.", x1.dst + "/"], false),
           Exec(o.name, ["mkdir", "-p", x2.dst], false),
           Exec(o.name, ["cp", "-R", x2.src + "/.", x2.dst + "/"], false)]
      && Notes(AfterLaunch(o, plan)) == [CopiedLine(x1), CopiedLine(x2)]
  {
    var plan := Plan([x1, x2], None);
    GuardedCommands(o, plan);
    CopyNotes(o, plan);
    MountsShape(plan);
    assert Mounts(plan) == [x1.mount, x2.mount];
    var t := Commands(GuardedSteps(o, plan));
    assert |t| == 6;
    assert t[2] == Exec(o.name, ["mkdir", "-p", x1.dst], false) && t[3] == Exec(o.name, ["cp", "-R", x1.src + "/.", x1.dst + "/"], false);
    assert t[2 + 2 * 1] == Exec(o.name, ["mkdir", "-p", x2.dst], false) && t[3 + 2 * 1] == Exec(o.name, ["cp", "-R", x2.src + "/.", x2.dst + "/"], false);
    var n := Notes(AfterLaunch(o, plan));
    assert |n| == 2 && n[0] == CopiedLine(x1) && n[1] == CopiedLine(x2);
  }

  /** Provisioning a plan of two directories with a runtime that
      acknowledges everything. */
  lemma ProvisionTwo(o: Options, fs: FileSystem, rt: Oracle, x1: Item, x2: Item)
    requires AlwaysDone(rt)
    requires PlanCreate(fs, o) == Ok(Plan([x1, x2], None))
    ensures Provision(o, fs, rt) == Report(
      [ Version, SystemStart, Run(o.name, [x1.mount, x2.mount], o.image),
        Exec(o.name, ["mkdir", "-p", o.base + "/host"], false),
        Exec(o.name, ["mkdir", "-p", x1.dst], false),
        Exec(o.name, ["cp", "-R", x1.src + "/.", x1.dst + "/"], false),
        Exec(o.name, ["mkdir", "-p", x2.dst], false),
        Exec(o.name, ["cp", "-R", x2.src + "/.", x2.dst + "/"], false)],
      [CopiedLine(x1), CopiedLine(x2), "Ready: " + o.name],
      Ready)
  {
    var plan := Plan([x1, x2], None);
    SuccessTrace(o, fs, rt);
    TwoGuarded(o, x1, x2);
    var t := Commands(GuardedSteps(o, plan));
    PrefixSix(Version, SystemStart, t);
    var n := Notes(AfterLaunch(o, plan));
    AppendToTwo(n, "Ready: " + o.name);
  }

  /** `sandbox create d1 d2 -n name`, with both directories on the host and a
      runtime that acknowledges everything: the probe, the launch with both
      mounts, the import root, a `mkdir` and a `cp` per directory, one copy
      line each, then "Ready". */
  lemma ImportTwo(d1: string, d2: string, name: string, fs: FileSystem, rt: Oracle)
    requires PlainToken(d1) && PlainToken(d2) && name != "" && name != "-h" && name != "--help"
    requires Importable(fs, d1) && Importable(fs, d2)
    requires AlwaysDone(rt)
    ensures var x1, x2 := ItemFor(fs, Defaults.base, d1, 0), ItemFor(fs, Defaults.base, d2, 1);
      Create([d1, d2, "-n", name], fs, rt) == Report(
        [ Version, SystemStart, Run(name, [x1.mount, x2.mount], "alpine:3.20"),
          Exec(name, ["mkdir", "-p", Defaults.base + "/host"], false),
          Exec(name, ["mkdir", "-p", x1.dst], false),
          Exec(name, ["cp", "-R", x1.src + "/.", x1.dst + "/"], false),
          Exec(name, ["mkdir", "-p", x2.dst], false),
          Exec(name, ["cp", "-R", x2.src + "/.", x2.dst + "/"], false)],
        [CopiedLine(x1), CopiedLine(x2), "Ready: " + name],
        Ready)
  {
    var o := Defaults.(dirs := [d1, d2], name := name);
    TwoArgs(d1, d2, name, fs, rt);
    TwoPlanned(fs, d1, d2, name);
    ProvisionTwo(o, fs, rt, ItemFor(fs, Defaults.base, d1, 0), ItemFor(fs, Defaults.base, d2, 1));
  }

  /** `d1 d2 -n name` passes the input checks. */
  lemma TwoArgs(d1: string, d2: string, name: string, fs: FileSystem, rt: Oracle)
    requires PlainToken(d1) && PlainToken(d2) && name != "" && name != "-h" && name != "--help"
    ensures Scan([d1, d2, "-n", name]) == Ok(Defaults.(dirs := [d1, d2], name := name))
    ensures !RejectedEarly([d1, d2, "-n", name])
    ensures Create([d1, d2, "-n", name], fs, rt) == Provision(Defaults.(dirs := [d1, d2], name := name), fs, rt)
  {
    var args := [d1, d2, "-n", name];
    NamedOptions([d1, d2], name);
    assert args == [d1, d2] + ["-n", name];
    Admitted(args, fs, rt);
  }

  /** Two directories the host accepts are planned at slots 0 and 1. */
  lemma TwoPlanned(fs: FileSystem, d1: string, d2: string, name: string)
    requires Importable(fs, d1) && Importable(fs, d2)
    ensures PlanCreate(fs, Defaults.(dirs := [d1, d2], name := name))
      == Ok(Plan([ItemFor(fs, Defaults.base, d1, 0), ItemFor(fs, Defaults.base, d2, 1)], None))
  {
    var dirs := [d1, d2];
    DefaultPlan(fs, dirs, name);
    var items := PlanCreate(fs, Defaults.(dirs := dirs, name := name)).value.items;
    assert items == [ItemFor(fs, Defaults.base, d1, 0), ItemFor(fs, Defaults.base, d2, 1)];
  }

  /** `d -n name` passes the input checks. */
  lemma OneArgs(d: string, name: string, fs: FileSystem, rt: Oracle)
    requires PlainToken(d) && name != "" && name != "-h" && name != "--help"
    ensures !RejectedEarly([d, "-n", name])
    ensures Create([d, "-n", name], fs, rt) == Provision(Defaults.(dirs := [d], name := name), fs, rt)
  {
    var args := [d, "-n", name];
    NamedOptions([d], name);
    assert args == [d] + ["-n", name];
    Admitted(args, fs, rt);
  }

  /** A directory the host accepts is planned at slot 0. */
  lemma OnePlanned(fs: FileSystem, d: string, name: string)
    requires Importable(fs, d)
    ensures PlanCreate(fs, Defaults.(dirs := [d], name := name)) == Ok(Plan([ItemFor(fs, Defaults.base, d, 0)], None))
  {
    DefaultPlan(fs, [d], name);
    var items := PlanCreate(fs, Defaults.(dirs := [d], name := name)).value.items;
    assert items == [ItemFor(fs, Defaults.base, d, 0)];
  }

  /** `sandbox create d` for a path the host does not have: after the probe,
      the host's own message is reported, with a leading "Error:" removed,
      and nothing is launched. */
  lemma MissingDirectory(d: string, fs: FileSystem, rt: Oracle)
    requires PlainToken(d) && fs(d).Missing?
    requires rt([], Version).Done? && rt([Version], SystemStart).Done?
    ensures Create([d], fs, rt) == Report([Version, SystemStart], [], Halted(Thrown(fs(d).message)))
    ensures ErrorLine(Thrown(fs(d).message)) == "Error: " + Normalize(fs(d).message)
  {
    PlainTokens([d]);
    assert !RejectedEarly([d]);
    Admitted([d], fs, rt);
    DirectoryRefused(Defaults.(dirs := [d]), fs, rt, 0);
  }

  /** The launch of a one-directory plan without a script. */
  lemma OneLaunch(o: Options, x: Item)
    ensures LaunchCommand(o, Plan([x], None)) == Run(o.name, [x.mount], o.image)
  {
    MountsShape(Plan([x], None));
  }

  /** Provisioning a one-directory plan whose launch the runtime refuses
      after acknowledging the probe. */
  lemma OneRefused(o: Options, fs: FileSystem, rt: Oracle, x: Item, stderr: string)
    requires PlanCreate(fs, o) == Ok(Plan([x], None))
    requires rt([], Version) == Done && rt([Version], SystemStart) == Done
    requires rt([Version, SystemStart], Run(o.name, [x.mount], o.image)) == Failed(stderr)
    ensures var launch := Run(o.name, [x.mount], o.image);
      Provision(o, fs, rt) == Report([Version, SystemStart, launch], [], Halted(Aborted(o.name, Refusal(launch, stderr))))
  {
    OneLaunch(o, x);
    LaunchRefusedReport(o, fs, rt);
  }

  /** `sandbox create d -n name` when the runtime refuses the launch because
      the name is taken: nothing was created, so nothing is torn down, and
      the report is the fixed conflict message naming the sandbox. */
  lemma NameTaken(d: string, name: string, fs: FileSystem, rt: Oracle, stderr: string)
    requires PlainToken(d) && name != "" && name != "-h" && name != "--help"
    requires Importable(fs, d)
    requires rt([], Version) == Done && rt([Version], SystemStart) == Done
    requires rt([Version, SystemStart], Run(name, [ItemFor(fs, Defaults.base, d, 0).mount], "alpine:3.20")) == Failed(stderr)
    requires stderr != "" && SaysExists(Normalize(Trim(stderr)))
    ensures var launch := Run(name, [ItemFor(fs, Defaults.base, d, 0).mount], "alpine:3.20");
      Create([d, "-n", name], fs, rt)
        == Report([Version, SystemStart, launch], [], Halted(Aborted(name, Refusal(launch, stderr))))
    ensures var launch := Run(name, [ItemFor(fs, Defaults.base, d, 0).mount], "alpine:3.20");
      ErrorLine(Aborted(name, Refusal(launch, stderr))) == "Error: " + ConflictMessage(name)
  {
    var o := Defaults.(dirs := [d], name := name);
    var x := ItemFor(fs, Defaults.base, d, 0);
    OneArgs(d, name, fs, rt);
    OnePlanned(fs, d, name);
    assert rt([], Version) == Done && rt([Version], SystemStart) == Done;
    assert rt([Version, SystemStart], Run(o.name, [x.mount], o.image)) == Failed(stderr);
    OneRefused(o, fs, rt, x, stderr);
    var r := Refusal(Run(name, [x.mount], "alpine:3.20"), stderr);
    assert FailureText(r.cmd, r.stderr) == Trim(stderr);
    AbortedReport(name, r);
  }

  /** The guarded steps of a one-directory plan without a script: the
      launch, the import root, then the directory's `mkdir` and `cp`. */
  lemma OneGuarded(o: Options, x: Item)
    ensures GuardedSteps(o, Plan([x], None)) == [
      Step(Run(o.name, [x.mount], o.image), None),
      Step(Exec(o.name, ["mkdir", "-p", o.base + "/host"], false), None),
      MkdirStep(o.name, x), CopyStep(o.name, x)]
  {
    OneLaunch(o, x);
    var imports := ImportSteps(o.name, [x]);
    assert imports == [MkdirStep(o.name, x), CopyStep(o.name, x)];
  }

  /** A one-directory guarded part whose copy the runtime refuses, after
      acknowledging the launch and both `mkdir`s: the sandbox is stopped and
      deleted, no copy line is printed, and the copy's refusal is reported. */
  lemma CopyRefusedGuarded(o: Options, x: Item, rt: Oracle, hist: seq<Command>, stderr: string)
    requires var s := GuardedSteps(o, Plan([x], None));
      && |s| == 4
      && rt(hist, s[0].cmd).Done?
      && rt(hist + [s[0].cmd], s[1].cmd).Done?
      && rt(hist + [s[0].cmd] + [s[1].cmd], s[2].cmd).Done?
      && rt(hist + [s[0].cmd] + [s[1].cmd] + [s[2].cmd], s[3].cmd) == Failed(stderr)
    ensures var s := GuardedSteps(o, Plan([x], None));
      LaunchAndImport(o, Plan([x], None), rt, hist) == Report(
        [s[0].cmd, s[1].cmd, s[2].cmd, s[3].cmd, Stop(o.name), Delete(o.name)], [],
        Halted(Aborted(o.name, Refusal(s[3].cmd, stderr))))
  {
    var s := GuardedSteps(o, Plan([x], None));
    var h1 := hist + [s[0].cmd];
    var h2 := h1 + [s[1].cmd];
    var h3 := h2 + [s[2].cmd];
    PerformDone(s, rt, hist);
    PerformDone(s[1..], rt, h1);
    assert s[1..][0] == s[1] && s[1..][1..] == s[2..];
    PerformDone(s[2..], rt, h2);
    assert s[2..][0] == s[2] && s[2..][1..] == s[3..];
    PerformFailed(s[3..], rt, h3);
    assert s[3..][0] == s[3];
    var p := Perform(s, rt, hist);
    assert p.issued == [s[0].cmd, s[1].cmd, s[2].cmd, s[3].cmd];
    assert p.out == [];
  }

  /** Provisioning a one-directory plan whose copy the runtime refuses,
      after the probe and the first three guarded commands were acknowledged. */
  lemma CopyRefusedProvision(o: Options, fs: FileSystem, rt: Oracle, x: Item, stderr: string)
    requires PlanCreate(fs, o) == Ok(Plan([x], None))
    requires rt([], Version).Done? && rt([Version], SystemStart).Done?
    requires var s := GuardedSteps(o, Plan([x], None));
      var hist := [Version, SystemStart];
      && |s| == 4
      && rt(hist, s[0].cmd).Done?
      && rt(hist + [s[0].cmd], s[1].cmd).Done?
      && rt(hist + [s[0].cmd] + [s[1].cmd], s[2].cmd).Done?
      && rt(hist + [s[0].cmd] + [s[1].cmd] + [s[2].cmd], s[3].cmd) == Failed(stderr)
    ensures var s := GuardedSteps(o, Plan([x], None));
      Provision(o, fs, rt) == Report(
        [Version, SystemStart, s[0].cmd, s[1].cmd, s[2].cmd, s[3].cmd, Stop(o.name), Delete(o.name)], [],
        Halted(Aborted(o.name, Refusal(s[3].cmd, stderr))))
  {
    var g := LaunchAndImport(o, Plan([x], None), rt, [Version, SystemStart]);
    CopyRefusedGuarded(o, x, rt, [Version, SystemStart], stderr);
    PrefixSix(Version, SystemStart, g.trace);
    ProvisionLaunched(o, fs, rt);
  }

  /** The copy refusal of `CopyRefused`, at the level of provisioning. */
  lemma CopyRefusedDefaults(d: string, name: string, fs: FileSystem, rt: Oracle, stderr: string)
    requires Importable(fs, d)
    requires var x := ItemFor(fs, Defaults.base, d, 0);
      var launch := Run(name, [x.mount], "alpine:3.20");
      var root := Exec(name, ["mkdir", "-p", "/sandbox/host"], false);
      var mkdir := Exec(name, ["mkdir", "-p", x.dst], false);
      var copy := Exec(name, ["cp", "-R", x.src + "/.", x.dst + "/"], false);
      && rt([], Version) == Done && rt([Version], SystemStart) == Done
      && rt([Version, SystemStart], launch) == Done
      && rt([Version, SystemStart, launch], root) == Done
      && rt([Version, SystemStart, launch, root], mkdir) == Done
      && rt([Version, SystemStart, launch, root, mkdir], copy) == Failed(stderr)
    ensures var x := ItemFor(fs, Defaults.base, d, 0);
      var launch := Run(name, [x.mount], "alpine:3.20");
      var root := Exec(name, ["mkdir", "-p", "/sandbox/host"], false);
      var mkdir := Exec(name, ["mkdir", "-p", x.dst], false);
      var copy := Exec(name, ["cp", "-R", x.src + "/.", x.dst + "/"], false);
      Provision(Defaults.(dirs := [d], name := name), fs, rt) == Report(
        [Version, SystemStart, launch, root, mkdir, copy, Stop(name), Delete(name)], [],
        Halted(Aborted(name, Refusal(copy, stderr))))
  {
    var o := Defaults.(dirs := [d], name := name);
    var x := ItemFor(fs, Defaults.base, d, 0);
    OnePlanned(fs, d, name);
    OneGuarded(o, x);
    var s := GuardedSteps(o, Plan([x], None));
    assert o.base + "/host" == "/sandbox/host";
    Histories(Version, SystemStart, s[0].cmd, s[1].cmd, s[2].cmd);
    CopyRefusedProvision(o, fs, rt, x, stderr);
  }

  /** `sandbox create d -n name` when the runtime refuses the copy of the
      directory into the sandbox: the sandbox was created, so it is stopped
      and deleted, and the copy's refusal is what is reported. */
  lemma CopyRefused(d: string, name: string, fs: FileSystem, rt: Oracle, stderr: string)
    requires PlainToken(d) && name != "" && name != "-h" && name != "--help"
    requires Importable(fs, d)
    requires var x := ItemFor(fs, Defaults.base, d, 0);
      var launch := Run(name, [x.mount], "alpine:3.20");
      var root := Exec(name, ["mkdir", "-p", "/sandbox/host"], false);
      var mkdir := Exec(name, ["mkdir", "-p", x.dst], false);
      var copy := Exec(name, ["cp", "-R", x.src + "/.", x.dst + "/"], false);
      && rt([], Version) == Done && rt([Version], SystemStart) == Done
      && rt([Version, SystemStart], launch) == Done
      && rt([Version, SystemStart, launch], root) == Done
      && rt([Version, SystemStart, launch, root], mkdir) == Done
      && rt([Version, SystemStart, launch, root, mkdir], copy) == Failed(stderr)
    ensures var x := ItemFor(fs, Defaults.base, d, 0);
      var launch := Run(name, [x.mount], "alpine:3.20");
      var root := Exec(name, ["mkdir", "-p", "/sandbox/host"], false);
      var mkdir := Exec(name, ["mkdir", "-p", x.dst], false);
      var copy := Exec(name, ["cp", "-R", x.src + "/.", x.dst + "/"], false);
      Create([d, "-n", name], fs, rt) == Report(
        [Version, SystemStart, launch, root, mkdir, copy, Stop(name), Delete(name)], [],
        Halted(Aborted(name, Refusal(copy, stderr))))
  {
    OneArgs(d, name, fs, rt);
    CopyRefusedDefaults(d, name, fs, rt, stderr);
  }
}
