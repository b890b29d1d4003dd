/** Up-front validation and the mount plan of `sandbox create` (sandbox.js
    lines 43-57): the script, then every directory in order, is looked up on
    the host and turned into the bind mount and copy destination it needs. */
module Planner {
  import opened Results
  import opened Text
  import opened Messages
  import opened Args

  /** What `statSync` reports about a path. */
  datatype Kind = Directory | RegularFile | OtherKind

  /** The host's answer for one path: `statSync` throws (the message of its
      exception), or the path exists with a kind and a `realpathSync` result. */
  datatype Stat = Missing(message: string) | Found(kind: Kind, resolved: string)

  /** The host filesystem, as far as planning consults it. */
  type FileSystem = string -> Stat

  /** Where the script directory is mounted inside the sandbox. */
  const ScriptMountPoint: string := "/__script"

  /** The transient mount point of the `i`-th directory. */
  function ImportSlot(i: nat): string {
    "/__import/" + Decimal(i)
  }

  /** The destination of a host directory: its absolute path under `base/host`. */
  function Destination(base: string, abs: string): string {
    base + "/host" + abs
  }

  /** The read-only bind-mount descriptor handed to the runtime. */
  function BindMount(source: string, target: string): string {
    "type=bind" + "," + "source=" + source + "," + "target=" + target + "," + "readonly"
  }

  /** One host directory to import. */
  datatype Item = Item(abs: string, src: string, dst: string, mount: string)

  /** The script to run once the directories are imported. */
  datatype ScriptSpec = ScriptSpec(abs: string, dir: string, name: string)

  /** Everything the launch needs. */
  datatype Plan = Plan(items: seq<Item>, script: Option<ScriptSpec>)

  /** A directory argument that planning accepts: it exists, is a directory,
      and its resolved path holds no comma. */
  predicate Importable(fs: FileSystem, d: string) {
    fs(d).Found? && fs(d).kind == Directory && ',' !in fs(d).resolved
  }

  /** Why a directory argument is refused. */
  function ItemError(fs: FileSystem, d: string): (e: CreateError)
    requires !Importable(fs, d)
    ensures fs(d).Missing? ==> e == Thrown(fs(d).message)
    ensures fs(d).Found? && fs(d).kind != Directory ==> e == NotADirectory(d)
    ensures fs(d).Found? && fs(d).kind == Directory ==> e == CommaInPath(fs(d).resolved) && ',' in fs(d).resolved
  {
    match fs(d)
    case Missing(m) => Thrown(m)
    case Found(kind, resolved) => if kind != Directory then NotADirectory(d) else CommaInPath(resolved)
  }

  /** `j` is the first directory argument that planning refuses. */
  predicate FirstRefused(fs: FileSystem, dirs: seq<string>, j: int) {
    0 <= j < |dirs| && !Importable(fs, dirs[j]) && forall k :: 0 <= k < j ==> Importable(fs, dirs[k])
  }

  /** The plan item of the `i`-th directory argument, found on the host:
      its resolved path, its slot, its destination under `base`, and the
      descriptor that mounts the path at the slot. */
  function ItemFor(fs: FileSystem, base: string, d: string, i: nat): (x: Item)
    requires Importable(fs, d)
    ensures x.abs == fs(d).resolved && x.src == ImportSlot(i)
    ensures x.dst == Destination(base, x.abs)
    ensures Split(x.mount, ',') == ["type=bind", "source=" + x.abs, "target=" + x.src, "readonly"]
  {
    var abs := fs(d).resolved;
    ImportSlotHasNoComma(i);
    BindMountFields(abs, ImportSlot(i));
    Item(abs, ImportSlot(i), Destination(base, abs), BindMount(abs, ImportSlot(i)))
  }

  /** One plan item per directory, in order; the first refused directory stops planning. */
  function PlanItems(fs: FileSystem, base: string, dirs: seq<string>): (r: Result<seq<Item>, CreateError>)
    ensures r.Ok? <==> forall k :: 0 <= k < |dirs| ==> Importable(fs, dirs[k])
    ensures r.Err? ==> exists j :: FirstRefused(fs, dirs, j) && r.error == ItemError(fs, dirs[j])
    ensures r.Ok? ==> |r.value| == |dirs|
    ensures r.Ok? ==> forall k :: 0 <= k < |dirs| ==> r.value[k] == ItemFor(fs, base, dirs[k], k)
    decreases |dirs|
  {
    if |dirs| == 0 then Ok([])
    else
      var n := |dirs| - 1;
      var init := dirs[..n];
      match PlanItems(fs, base, init)
      case Err(e) =>
        var j :| FirstRefused(fs, init, j) && e == ItemError(fs, init[j]);
        RefusedInPrefix(fs, dirs, n, j);
        Err(e)
      case Ok(items) =>
        if !Importable(fs, dirs[n]) then
          RefusedInPrefix(fs, dirs, n, n);
          Err(ItemError(fs, dirs[n]))
        else
          assert forall k :: 0 <= k < n ==> dirs[k] == init[k];
          ItemsExtended(fs, base, dirs, items);
          Ok(items + [ItemFor(fs, base, dirs[n], n)])
  }

  /** A first refusal among the first `n` directories, or at position `n`
      after `n` accepted ones, is the first refusal of them all. */
  lemma RefusedInPrefix(fs: FileSystem, dirs: seq<string>, n: int, j: int)
    requires 0 <= j <= n < |dirs|
    requires (j < n && FirstRefused(fs, dirs[..n], j))
          || (j == n && !Importable(fs, dirs[n]) && forall k :: 0 <= k < n ==> Importable(fs, dirs[..n][k]))
    ensures FirstRefused(fs, dirs, j)
  {
    assert forall k :: 0 <= k < n ==> dirs[..n][k] == dirs[k];
  }

  /** The items of all directories but the last, followed by the item of the
      last one. */
  lemma ItemsExtended(fs: FileSystem, base: string, dirs: seq<string>, items: seq<Item>)
    requires |dirs| > 0 && |items| == |dirs| - 1
    requires forall k :: 0 <= k < |dirs| ==> Importable(fs, dirs[k])
    requires forall k :: 0 <= k < |items| ==> items[k] == ItemFor(fs, base, dirs[k], k)
    ensures var r := items + [ItemFor(fs, base, dirs[|items|], |items|)];
      |r| == |dirs| && forall k :: 0 <= k < |dirs| ==> r[k] == ItemFor(fs, base, dirs[k], k)
  {
    var r := items + [ItemFor(fs, base, dirs[|items|], |items|)];
    forall k | 0 <= k < |dirs| ensures r[k] == ItemFor(fs, base, dirs[k], k) {
      if k < |items| {
        assert r[k] == items[k];
      }
    }
  }

  /** The script spec for the `--script` value; the empty value means no script. */
  function PlanScript(fs: FileSystem, script: string): (r: Result<Option<ScriptSpec>, CreateError>)
    ensures script == "" ==> r == Ok(None)
    ensures script != "" && fs(script).Missing? ==> r == Err(Thrown(fs(script).message))
    ensures script != "" && fs(script).Found? && fs(script).kind != RegularFile ==> r == Err(NotAFile(script))
    ensures r.Ok? && script != "" ==>
      && fs(script).Found? && fs(script).kind == RegularFile
      && r.value.Some? && r.value.value.abs == fs(script).resolved
      && r.value.value.dir == DirName(fs(script).resolved)
      && r.value.value.name == BaseName(fs(script).resolved)
      && ',' !in r.value.value.dir
    ensures r.Ok? && r.value.Some? && StartsWith(r.value.value.abs, "/") ==>
      && StartsWith(r.value.value.dir, "/")
      && '/' !in r.value.value.name
      && (r.value.value.abs == r.value.value.dir + "/" + r.value.value.name
          || (r.value.value.dir == "/" && r.value.value.abs == "/" + r.value.value.name))
    ensures r.Err? && script != "" && fs(script).Found? && fs(script).kind == RegularFile ==>
      r == Err(CommaInPath(DirName(fs(script).resolved))) && ',' in DirName(fs(script).resolved)
  {
    if script == "" then Ok(None)
    else
      match fs(script)
      case Missing(m) => Err(Thrown(m))
      case Found(kind, abs) =>
        if kind != RegularFile then Err(NotAFile(script))
        else
          var dir := DirName(abs);
          if ',' in dir then Err(CommaInPath(dir))
          else
            DirBaseName(abs);
            Ok(Some(ScriptSpec(abs, dir, BaseName(abs))))
  }

  /** The plan for the scanned options: the script is checked first, then the
      directories in order. */
  function PlanCreate(fs: FileSystem, o: Options): (r: Result<Plan, CreateError>)
    ensures PlanScript(fs, o.script).Err? ==> r == Err(PlanScript(fs, o.script).error)
    ensures PlanScript(fs, o.script).Ok? && PlanItems(fs, o.base, o.dirs).Err? ==> r == Err(PlanItems(fs, o.base, o.dirs).error)
    ensures r.Ok? <==> PlanScript(fs, o.script).Ok? && PlanItems(fs, o.base, o.dirs).Ok?
    ensures r.Ok? ==>
      && r.value.items == PlanItems(fs, o.base, o.dirs).value
      && r.value.script == PlanScript(fs, o.script).value
  {
    match PlanScript(fs, o.script)
    case Err(e) => Err(e)
    case Ok(script) =>
      match PlanItems(fs, o.base, o.dirs)
      case Err(e) => Err(e)
      case Ok(items) => Ok(Plan(items, script))
  }

  /** Import slots are distinct: two directories never share a mount point. */
  lemma ImportSlotsDistinct(i: nat, j: nat)
    ensures ImportSlot(i) == ImportSlot(j) <==> i == j
  {
    if ImportSlot(i) == ImportSlot(j) {
      assert Decimal(i) == ImportSlot(i)[|"/__import/"|..];
      assert Decimal(j) == ImportSlot(j)[|"/__import/"|..];
      DecimalInjective(i, j);
    }
  }

  /** Destinations under one base coincide exactly when the resolved paths do. */
  lemma DestinationsDistinct(base: string, a: string, b: string)
    ensures Destination(base, a) == Destination(base, b) <==> a == b
  {
    if Destination(base, a) == Destination(base, b) {
      var n := |base + "/host"|;
      assert a == Destination(base, a)[n..];
      assert b == Destination(base, b)[n..];
    }
  }

  /** In a plan, items have distinct slots, and distinct destinations exactly
      when their resolved paths are distinct. */
  lemma PlanDistinct(fs: FileSystem, base: string, dirs: seq<string>, i: int, j: int)
    requires PlanItems(fs, base, dirs).Ok?
    requires 0 <= i < |dirs| && 0 <= j < |dirs|
    ensures var items := PlanItems(fs, base, dirs).value;
      && (items[i].src == items[j].src <==> i == j)
      && (items[i].dst == items[j].dst <==> fs(dirs[i]).resolved == fs(dirs[j]).resolved)
  {
    ImportSlotsDistinct(i, j);
    DestinationsDistinct(base, fs(dirs[i]).resolved, fs(dirs[j]).resolved);
  }

  /** A slot name holds no comma. */
  lemma ImportSlotHasNoComma(i: nat)
    ensures ',' !in ImportSlot(i)
  {
    var s := ImportSlot(i);
    forall k | 0 <= k < |s| ensures s[k] != ',' {
      if k >= |"/__import/"| {
        assert s[k] == Decimal(i)[k - |"/__import/"|];
      }
    }
  }

  /** A descriptor whose paths hold no comma splits at its commas into
      exactly its four fields, the source field naming the source path. */
  lemma BindMountFields(source: string, target: string)
    requires ',' !in source && ',' !in target
    ensures Split(BindMount(source, target), ',') == ["type=bind", "source=" + source, "target=" + target, "readonly"]
  {
    var f0, f1, f2, f3 := "type=bind", "source=" + source, "target=" + target, "readonly";
    assert BindMount(source, target) == f0 + [','] + f1 + [','] + f2 + [','] + f3;
    assert ',' !in f1 && ',' !in f2;
    SplitFourFields(f0, f1, f2, f3, ',');
  }

  /** A descriptor whose source or target holds a comma splits into more than
      four fields, so the runtime would misread it. */
  lemma BindMountCommaBreaks(source: string, target: string)
    requires ',' in source || ',' in target
    ensures |Split(BindMount(source, target), ',')| > 4
  {
    var f0, f1, f2, f3 := "type=bind", "source=" + source, "target=" + target, "readonly";
    assert BindMount(source, target) == f0 + [','] + f1 + [','] + f2 + [','] + f3;
    if ',' in source {
      var k := IndexOfComma(source);
      assert f1[|"source="| + k] == ',';
    } else {
      var k := IndexOfComma(target);
      assert f2[|"target="| + k] == ',';
    }
    SplitFourOverflow(f0, f1, f2, f3, ',');
  }

  /** A position of a comma in `s`. */
  function IndexOfComma(s: string): (k: nat)
    requires ',' in s
    ensures k < |s| && s[k] == ','
  {
    if s[0] == ',' then 0 else 1 + IndexOfComma(s[1..])
  }

  /** Every planned descriptor names its resolved path as the source and its
      slot as the target, and splits into exactly those four fields. */
  lemma PlanMountFields(fs: FileSystem, base: string, dirs: seq<string>, k: int)
    requires PlanItems(fs, base, dirs).Ok?
    requires 0 <= k < |dirs|
    ensures var item := PlanItems(fs, base, dirs).value[k];
      Split(item.mount, ',') == ["type=bind", "source=" + item.abs, "target=" + item.src, "readonly"]
  {
    ImportSlotHasNoComma(k);
    var item := PlanItems(fs, base, dirs).value[k];
    BindMountFields(item.abs, item.src);
  }
}
