/** The container runtime as `sandbox create` sees it: the commands it issues
    (sandbox.js lines 12, 61-69 and 72), their argument vectors, and the
    runtime's answer to each, decided by an oracle that may depend on every
    command issued before. */
module Runtime {
  import opened Text

  /** A command issued to the `container` executable. */
  datatype Command =
    | Version                                          // container --version
    | SystemStart                                      // container system start
    | Run(name: string, mounts: seq<string>, image: string) // container run -d ...
    | Exec(name: string, argv: seq<string>, live: bool) // container exec ...; `live` inherits the terminal
    | Stop(name: string)                               // container stop
    | Delete(name: string)                             // container delete

  /** The command that keeps the sandbox alive between `exec` calls. */
  const KeepAlive: seq<string> := ["sh", "-lc", "while true; do sleep 3600; done"]

  /** `--mount d` for every descriptor `d`, in order. */
  function MountArgs(mounts: seq<string>): (r: seq<string>)
    ensures |r| == 2 * |mounts|
    ensures forall k :: 0 <= k < |mounts| ==> r[2 * k] == "--mount" && r[2 * k + 1] == mounts[k]
    decreases |mounts|
  {
    if |mounts| == 0 then []
    else
      var rest := MountArgs(mounts[1..]);
      var r := ["--mount", mounts[0]] + rest;
      assert forall k :: 0 <= k < |mounts| ==> r[2 * k] == "--mount" && r[2 * k + 1] == mounts[k] by {
        forall k | 1 <= k < |mounts| ensures r[2 * k] == "--mount" && r[2 * k + 1] == mounts[k] {
          var j := k - 1;
          assert r[2 * k] == rest[2 * j];
          assert r[2 * k + 1] == rest[2 * j + 1];
          assert mounts[k] == mounts[1..][j];
        }
      }
      r
  }

  /** The argument vector of a command. */
  function Argv(c: Command): seq<string> {
    match c
    case Version => ["container", "--version"]
    case SystemStart => ["container", "system", "start"]
    case Run(name, mounts, image) => ["container", "run", "-d", "--name", name] + MountArgs(mounts) + [image] + KeepAlive
    case Exec(name, argv, _) => ["container", "exec", name] + argv
    case Stop(name) => ["container", "stop", name]
    case Delete(name) => ["container", "delete", name]
  }

  /** The launch vector names the sandbox, passes one `--mount` per
      descriptor in order, then the image and the keep-alive command. */
  lemma RunArgv(name: string, mounts: seq<string>, image: string)
    ensures var a := Argv(Run(name, mounts, image));
      && |a| == 9 + 2 * |mounts|
      && a[..5] == ["container", "run", "-d", "--name", name]
      && (forall k :: 0 <= k < |mounts| ==> a[5 + 2 * k] == "--mount" && a[6 + 2 * k] == mounts[k])
      && a[5 + 2 * |mounts|] == image
      && a[6 + 2 * |mounts|..] == KeepAlive
  {
    var a := Argv(Run(name, mounts, image));
    var m := MountArgs(mounts);
    assert a == ["container", "run", "-d", "--name", name] + m + [image] + KeepAlive;
    forall k | 0 <= k < |mounts| ensures a[5 + 2 * k] == "--mount" && a[6 + 2 * k] == mounts[k] {
      assert a[5 + 2 * k] == m[2 * k];
      assert a[6 + 2 * k] == m[2 * k + 1];
    }
  }

  /** The runtime's answer: exit status zero, or a failure with its captured stderr. */
  datatype Reply = Done | Failed(stderr: string)

  /** The runtime: its answer to a command, given every command issued before it. */
  type Oracle = (seq<Command>, Command) -> Reply

  /** A command the runtime refused, with the standard error it captured. */
  datatype Refusal = Refusal(cmd: Command, stderr: string)

  /** The message of the error `run` throws when `c` fails: the captured
      stderr, or the command line followed by "failed" when stderr is empty or
      not captured (a live command inherits the terminal), trimmed. */
  function FailureText(c: Command, stderr: string): string {
    Trim(if stderr == "" || (c.Exec? && c.live) then Join(Argv(c), " ") + " failed" else stderr)
  }

  /** Every argument vector runs the `container` executable with a subcommand. */
  lemma ArgvNamesRuntime(c: Command)
    ensures |Argv(c)| >= 2 && Argv(c)[0] == "container"
  {
  }

  /** A command that fails without captured standard error (none was written,
      or it ran live on the terminal) is reported by its command line followed
      by "failed", which trimming leaves alone; a quiet command that wrote to
      standard error is reported by that output, trimmed. */
  lemma FailureTextCases(c: Command, stderr: string)
    ensures (stderr == "" || (c.Exec? && c.live)) ==>
      FailureText(c, stderr) == Join(Argv(c), " ") + " failed"
    ensures stderr != "" && !(c.Exec? && c.live) ==> FailureText(c, stderr) == Trim(stderr)
  {
    var line := Join(Argv(c), " ") + " failed";
    ArgvNamesRuntime(c);
    JoinStartsWith(Argv(c), " ");
    assert line[0] == 'c' && line[|line| - 1] == 'd';
    TrimUnchanged(line);
  }
}
