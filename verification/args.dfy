/** The option scanner of `sandbox create` (sandbox.js lines 24-39): option
    flags take the next token as their value, the last occurrence of an option
    wins, and every other token names a directory, in order. */
module Args {
  import opened Results

  /** What the scanner extracts from the tokens after `create`. */
  datatype Options = Options(image: string, name: string, base: string, script: string, dirs: seq<string>)

  /** The values before any token is read; no script and no directory. */
  const Defaults: Options := Options("alpine:3.20", "sandbox", "/sandbox", "", [])

  /** The eight option flags; each consumes the token after it. */
  const Flags: seq<string> := ["-i", "--image", "-n", "--name", "-d", "--dest-base", "-s", "--script"]

  predicate IsFlag(a: string) {
    a in Flags
  }

  /** The options a flag can set. */
  datatype Field = Image | Name | Base | Script

  /** The option a flag sets; each has a short and a long spelling. */
  function FieldOf(flag: string): Field
    requires IsFlag(flag)
  {
    if flag == "-i" || flag == "--image" then Image
    else if flag == "-n" || flag == "--name" then Name
    else if flag == "-d" || flag == "--dest-base" then Base
    else Script
  }

  /** The value of option `f` in `o`. */
  function Get(o: Options, f: Field): string {
    match f
    case Image => o.image
    case Name => o.name
    case Base => o.base
    case Script => o.script
  }

  /** `o` with the field of `flag` set to `v`. */
  function Assign(o: Options, flag: string, v: string): Options
    requires IsFlag(flag)
  {
    if flag == "-i" || flag == "--image" then o.(image := v)
    else if flag == "-n" || flag == "--name" then o.(name := v)
    else if flag == "-d" || flag == "--dest-base" then o.(base := v)
    else o.(script := v)
  }

  /** Setting an option changes its own field and nothing else. */
  lemma AssignSets(o: Options, flag: string, v: string)
    requires IsFlag(flag)
    ensures Get(Assign(o, flag, v), FieldOf(flag)) == v
    ensures forall f :: f != FieldOf(flag) ==> Get(Assign(o, flag, v), f) == Get(o, f)
    ensures Assign(o, flag, v).dirs == o.dirs
  {
  }

  /** Scans `args` on top of the values `o` already holds; the error is the
      flag whose value is missing or empty. */
  function ScanFrom(args: seq<string>, o: Options): (r: Result<Options, string>)
    ensures r.Err? ==> IsFlag(r.error) && r.error in args
    ensures r.Ok? ==> o.dirs <= r.value.dirs && |r.value.dirs| <= |o.dirs| + |args|
    ensures r.Ok? ==> forall k :: |o.dirs| <= k < |r.value.dirs| ==> r.value.dirs[k] in args && !IsFlag(r.value.dirs[k])
    ensures r.Ok? ==> forall f :: Get(r.value, f) == Get(o, f) || (Get(r.value, f) in args && Get(r.value, f) != "")
    decreases |args|
  {
    if |args| == 0 then Ok(o)
    else if IsFlag(args[0]) then
      if |args| < 2 || args[1] == "" then Err(args[0])
      else
        var r := ScanFrom(args[2..], Assign(o, args[0], args[1]));
        AssignSets(o, args[0], args[1]);
        r
    else ScanFrom(args[1..], o.(dirs := o.dirs + [args[0]]))
  }

  /** The scan of the tokens after `create`: it fails only at a flag among
      the tokens, and otherwise every directory is one of the tokens, none
      looks like a flag, and no option is left empty. */
  function Scan(args: seq<string>): (r: Result<Options, string>)
    ensures r.Err? ==> IsFlag(r.error) && r.error in args
    ensures r.Ok? ==> Renderable(r.value)
    ensures r.Ok? ==> forall k :: 0 <= k < |r.value.dirs| ==> r.value.dirs[k] in args
  {
    var r := ScanFrom(args, Defaults);
    assert r.Ok? ==> Get(r.value, Image) != "" && Get(r.value, Name) != "" && Get(r.value, Base) != "";
    r
  }

  /** The scanner as the source writes it: one pass with an index that skips
      the value of each option flag. */
  method ScanLoop(args: seq<string>) returns (r: Result<Options, string>)
    ensures r == Scan(args)
  {
    var o := Defaults;
    var i := 0;
    while i < |args|
      invariant i <= |args|
      invariant ScanFrom(args[i..], o) == Scan(args)
    {
      var a := args[i];
      if IsFlag(a) {
        if i + 1 >= |args| || args[i + 1] == "" {
          return Err(a);
        }
        assert args[i..][2..] == args[i + 2..];
        o := Assign(o, a, args[i + 1]);
        i := i + 2;
      } else {
        assert args[i..][1..] == args[i + 1..];
        o := o.(dirs := o.dirs + [a]);
        i := i + 1;
      }
    }
    r := Ok(o);
  }

  /** Scanning is compositional: once a prefix scans cleanly, the rest is
      scanned from where the prefix left off. */
  lemma {:induction false} ScanConcat(a: seq<string>, b: seq<string>, o: Options)
    requires ScanFrom(a, o).Ok?
    ensures ScanFrom(a + b, o) == ScanFrom(b, ScanFrom(a, o).value)
    decreases |a|
  {
    if |a| > 0 {
      if IsFlag(a[0]) {
        assert (a + b)[2..] == a[2..] + b;
        ScanConcat(a[2..], b, Assign(o, a[0], a[1]));
      } else {
        assert (a + b)[1..] == a[1..] + b;
        ScanConcat(a[1..], b, o.(dirs := o.dirs + [a[0]]));
      }
    } else {
      assert a + b == b;
    }
  }

  /** A token that is not an option flag is appended to the directories. */
  lemma DirectoryAppended(a: seq<string>, d: string)
    requires Scan(a).Ok? && !IsFlag(d)
    ensures Scan(a + [d]) == Ok(Scan(a).value.(dirs := Scan(a).value.dirs + [d]))
  {
    ScanConcat(a, [d], Defaults);
  }

  /** Tokens none of which is an option flag are all directories, in their
      order, and every option keeps its default. */
  lemma {:induction false} PlainTokens(args: seq<string>)
    requires forall k :: 0 <= k < |args| ==> !IsFlag(args[k])
    ensures Scan(args) == Ok(Defaults.(dirs := args))
    decreases |args|
  {
    if |args| > 0 {
      var init := args[..|args| - 1];
      PlainTokens(init);
      DirectoryAppended(init, args[|args| - 1]);
      assert init + [args[|args| - 1]] == args;
    }
  }

  /** An option flag followed by a non-empty value sets that option. */
  lemma OptionAppended(a: seq<string>, flag: string, v: string)
    requires Scan(a).Ok? && IsFlag(flag) && v != ""
    ensures Scan(a + [flag, v]) == Ok(Assign(Scan(a).value, flag, v))
  {
    ScanConcat(a, [flag, v], Defaults);
    assert [flag, v][2..] == [];
  }

  /** Tokens that never mention an option leave it unchanged. */
  lemma {:induction false} OptionKept(rest: seq<string>, o: Options, f: Field)
    requires ScanFrom(rest, o).Ok?
    requires forall k :: 0 <= k < |rest| ==> !(IsFlag(rest[k]) && FieldOf(rest[k]) == f)
    ensures Get(ScanFrom(rest, o).value, f) == Get(o, f)
    decreases |rest|
  {
    if |rest| > 0 {
      if IsFlag(rest[0]) {
        AssignSets(o, rest[0], rest[1]);
        OptionKept(rest[2..], Assign(o, rest[0], rest[1]), f);
      } else {
        OptionKept(rest[1..], o.(dirs := o.dirs + [rest[0]]), f);
      }
    }
  }

  /** The last occurrence of an option wins: after `flag v`, tokens that do
      not repeat the option leave it at `v`. */
  lemma LastOccurrenceWins(a: seq<string>, flag: string, v: string, rest: seq<string>)
    requires Scan(a).Ok? && IsFlag(flag) && v != ""
    requires forall k :: 0 <= k < |rest| ==> !(IsFlag(rest[k]) && FieldOf(rest[k]) == FieldOf(flag))
    requires Scan(a + [flag, v] + rest).Ok?
    ensures Get(Scan(a + [flag, v] + rest).value, FieldOf(flag)) == v
  {
    OptionAppended(a, flag, v);
    ScanConcat(a + [flag, v], rest, Defaults);
    OptionKept(rest, Assign(Scan(a).value, flag, v), FieldOf(flag));
    AssignSets(Scan(a).value, flag, v);
  }

  /** An option flag that ends the tokens, or whose value is empty, is
      reported as missing its value, whatever follows. */
  lemma MissingValueReported(a: seq<string>, flag: string, rest: seq<string>)
    requires Scan(a).Ok? && IsFlag(flag)
    requires rest == [] || rest[0] == ""
    ensures Scan(a + [flag] + rest) == Err(flag)
  {
    ScanConcat(a, [flag] + rest, Defaults);
    assert a + [flag] + rest == a + ([flag] + rest);
  }

  /** The tokens that spell out `o` in full: directories first, then every option. */
  function Render(o: Options): seq<string> {
    o.dirs + ["-i", o.image, "-n", o.name, "-d", o.base]
    + (if o.script == "" then [] else ["-s", o.script])
  }

  /** Options that the scanner can produce: no directory looks like a flag
      and no option value is empty (an absent script is the empty string). */
  predicate Renderable(o: Options) {
    && (forall k :: 0 <= k < |o.dirs| ==> !IsFlag(o.dirs[k]))
    && o.image != "" && o.name != "" && o.base != ""
  }

  /** Directories followed by the image, name and base options scan to
      those values, with no script. */
  lemma ScanRenderedOptions(o: Options)
    requires Renderable(o)
    ensures Scan(o.dirs + ["-i", o.image, "-n", o.name, "-d", o.base])
      == Ok(Defaults.(dirs := o.dirs, image := o.image, name := o.name, base := o.base))
  {
    PlainTokens(o.dirs);
    OptionAppended(o.dirs, "-i", o.image);
    OptionAppended(o.dirs + ["-i", o.image], "-n", o.name);
    assert o.dirs + ["-i", o.image] + ["-n", o.name] == o.dirs + ["-i", o.image, "-n", o.name];
    OptionAppended(o.dirs + ["-i", o.image, "-n", o.name], "-d", o.base);
    assert o.dirs + ["-i", o.image, "-n", o.name] + ["-d", o.base] == o.dirs + ["-i", o.image, "-n", o.name, "-d", o.base];
  }

  /** Scanning the rendered tokens gives the options back. */
  lemma ScanRender(o: Options)
    requires Renderable(o)
    ensures Scan(Render(o)) == Ok(o)
  {
    var opts := ["-i", o.image, "-n", o.name, "-d", o.base];
    ScanRenderedOptions(o);
    if o.script != "" {
      OptionAppended(o.dirs + opts, "-s", o.script);
    } else {
      assert Render(o) == o.dirs + opts;
    }
  }

  /** Scanning the rendering of any scan result reproduces it: the options
      the scanner extracts are always spelled out again by `Render`. */
  lemma ScanRenderScanned(args: seq<string>)
    requires Scan(args).Ok?
    ensures Scan(Render(Scan(args).value)) == Scan(args)
  {
    ScanRender(Scan(args).value);
  }
}
