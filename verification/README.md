# sandbox create, modelled in Dafny

`sandbox` is a small command-line tool. It starts a throwaway Linux container
through the `container` runtime and copies host directories into it.
This project models its `create` subcommand:

- the option scanner, which reads `-i/--image`, `-n/--name`,
  `-d/--dest-base` and `-s/--script`; every other token names a directory;
- the input checks that run before the runtime is touched: help, a missing
  value, no directory, a relative destination base;
- the readiness probe: `container --version`, then `container system start`;
- validation and planning: the script has to be a regular file and each
  directory a directory; resolved paths may hold no comma; each directory
  gets an import slot `/__import/<i>`, a destination `<base>/host<abs>` and
  a read-only bind-mount descriptor;
- the guarded part: the launch with every mount, the import root, a `mkdir`
  and a `cp` per directory with one `Copied:` line each, the script run
  live, then `Ready:`;
- the rollback: after a failure following an acknowledged launch the
  sandbox is stopped and deleted;
- how errors are reported: `err` strips a leading `Error:`, and any failure
  inside the guarded part whose text says "already exists" or "exists:" is
  rewritten into the name-conflict message.

The host filesystem is a function from a path to what `statSync` and
`realpathSync` report for it. The runtime is an oracle. It answers each
command, given every command issued before it in the same invocation, with
success or a failure carrying its captured standard error. An invocation is
a `Report`: the commands issued in order, the lines written to standard
output, and a `Status` (ready, usage shown, or halted with a `CreateError`).

Modules follow the program's structure:

- `Text`: the JavaScript string operations the program relies on (`includes`,
  `startsWith`, `trim`, `join`, `${n}`, `dirname`, `basename`). It also holds
  `Split`, which the program never calls: it describes how the runtime reads a
  mount descriptor at its commas, which is why a comma in a path is refused;
- `Seqs`: general facts about sequences used by the proofs;
- `Args`: the scanner;
- `Planner`: validation and the mount plan;
- `Runtime`: commands, argument vectors and the runtime's replies;
- `Messages`: the errors and their texts;
- `Creator`: the whole subcommand and its global properties;
- `Scenarios`: concrete invocations worked through end to end.

Three points where the code behaves differently from what its messages suggest; the model follows the code:

- A path that does not exist makes `statSync` throw. The program does not
  catch that inside `create`, so the top-level handler reports the host's
  own message with `Error:` stripped (`Thrown`), not "not a directory".
- A failure of the readiness probe is also reported by the top-level
  handler (`ProbeFailed`), so it is never rewritten into a name conflict.
- The name-conflict rewrite applies to every failure inside the guarded
  part, including a `mkdir` or `cp` that fails after the launch, and not
  only to a refused launch.

## Model

| member | source | states |
|---|---|---|
| Args.ScanFrom | sandbox.js:27-39 | A scan either names a flag that occurs in the tokens, or keeps the directories already collected as a prefix, adds only non-flag tokens, and sets every option to its old value or a non-empty token |
| Args.ScanLoop | sandbox.js:27-39 | The index loop that skips each flag's value computes the recursive scan from the defaults |
| Args.AssignSets | sandbox.js:32-35 | A flag sets its own option to the value and leaves every other option and the directories alone |
| Args.ScanConcat | sandbox.js:27-39 | Once a prefix of the tokens scans cleanly, the rest scans from the options the prefix produced |
| Args.DirectoryAppended | sandbox.js:38 | A token that is not a flag is appended to the directories and changes nothing else |
| Args.PlainTokens | sandbox.js:24-39 | Tokens none of which is a flag all become directories in their order, with every option at its default |
| Args.OptionAppended | sandbox.js:29-36 | A flag followed by a non-empty value sets that option |
| Args.OptionKept | sandbox.js:29-36 | Tokens that never name an option's flags leave that option unchanged |
| Args.LastOccurrenceWins | sandbox.js:29-36 | After `flag v`, later tokens that do not repeat the option leave it at `v` |
| Args.MissingValueReported | sandbox.js:30 | A flag at the end of the tokens, or followed by an empty value, is the error, whatever follows |
| Args.ScanRenderedOptions | sandbox.js:24-39 | Directories followed by image, name and base flags scan to exactly those values, with no script |
| Args.ScanRender | sandbox.js:24-39 | Any options the scanner can produce are recovered by scanning their rendering as tokens |
| Args.Scan | sandbox.js:24-39 | A refused scan names a flag that occurs in the tokens; an accepted one has a non-empty image, name and base, and every directory it collects is one of the tokens |
| Args.ScanRenderScanned | sandbox.js:24-39 | Scanning the rendering of an accepted scan's options gives the same scan result |
| Text.ContainsIff | sandbox.js:74 | `includes` holds exactly when the pattern occurs at some position |
| Text.OccurrenceContained | sandbox.js:74 | An occurrence at any position is found by `includes` |
| Text.ContainedOccurs | sandbox.js:74 | What `includes` finds is an occurrence at some position |
| Text.ContainsMiddle | sandbox.js:74 | A string contains each of its pieces |
| Text.ContainsWithin | sandbox.js:74 | What occurs in a piece occurs in the whole |
| Text.TrimStart | sandbox.js:7 | Only white space is dropped from the front, and the result starts with no white space |
| Text.TrimEnd | sandbox.js:10 | Only white space is dropped from the back, and the result ends with no white space |
| Text.Trim | sandbox.js:10 | The result is a middle piece of the input, neither starting nor ending with white space, with only white space cut off either side |
| Text.TrimmedPieces | sandbox.js:10 | Trimming the front and then the back cuts the input down to its middle piece |
| Text.TrimUnchanged | sandbox.js:10 | A string that neither starts nor ends with white space is its own trim |
| Text.JoinStartsWith | sandbox.js:10 | A join of one or more parts starts with the first part |
| Text.Split | sandbox.js:56 | How the runtime reads the descriptor built here at its commas: there is at least one field, and no field holds the separator |
| Text.JoinSplit | sandbox.js:56 | Splitting at a separator and joining back with it restores the string |
| Text.SplitJoin | sandbox.js:56 | Splitting a join of separator-free fields gives the fields back |
| Text.SplitWithout | sandbox.js:56 | A string without the separator is a single field |
| Text.SplitAround | sandbox.js:56 | A separator between two strings separates their fields |
| Text.SplitFour | sandbox.js:56 | Four pieces joined by the separator split into the fields of each piece |
| Text.SplitFourFields | sandbox.js:56 | Four separator-free pieces joined by the separator split back into exactly those four |
| Text.SplitFourOverflow | sandbox.js:56 | Four pieces, one of which holds the separator, split into more than four fields |
| Text.SplitHasTwo | sandbox.js:56 | A string holding the separator splits into at least two fields |
| Text.Decimal | sandbox.js:56 | The rendering of an index is a non-empty string of digits with no leading zero |
| Text.ParseDecimalInverts | sandbox.js:56 | Reading a rendered index gives the index back |
| Text.DecimalInjective | sandbox.js:56 | Distinct indices render as distinct strings |
| Text.LastSlash | sandbox.js:47-48 | The position found holds the last `/` of the path; none is found only when there is no `/` |
| Text.DirBaseName | sandbox.js:47-48 | An absolute path is its directory, a `/` and its base name (or the root and its base name); the directory is absolute and the base name holds no `/` |
| Runtime.MountArgs | sandbox.js:61 | Each descriptor is passed as `--mount` followed by the descriptor, in order |
| Runtime.RunArgv | sandbox.js:61 | The launch vector names the sandbox, gives one `--mount` per descriptor in order, then the image and the keep-alive shell loop |
| Runtime.ArgvNamesRuntime | sandbox.js:12-72 | Every argument vector has at least two words and starts with `container` |
| Runtime.FailureTextCases | sandbox.js:9-10 | A failure with empty captured error, or of the live script run, reads as the joined command line followed by " failed"; a quiet command that wrote to standard error reads as that text trimmed |
| Planner.PlanItems | sandbox.js:52-57 | Planning succeeds exactly when every directory is on the host as a directory with a comma-free resolved path; it then gives one item per directory in order; otherwise it reports the first refused directory's error |
| Planner.ItemFor | sandbox.js:54-56 | An item holds the resolved path, its slot, the destination under the base, and a descriptor that splits into the bind type, that source, that target and `readonly` |
| Planner.ItemError | sandbox.js:53-55 | A missing directory reports the host's message; a path that is not a directory reports "not a directory" for it; a directory whose resolved path holds a comma reports that path |
| Planner.RefusedInPrefix | sandbox.js:52-57 | The first refusal among the first directories is the first refusal of them all |
| Planner.ItemsExtended | sandbox.js:52-57 | The items of all directories but the last, followed by the last one's item, are the items of every directory |
| Planner.PlanScript | sandbox.js:43-50 | No script gives no spec; a missing script reports the host's message; a non-file reports "not a file"; a comma in its directory is refused; otherwise the spec's directory and name are the dirname and basename of the resolved path, and the directory is absolute |
| Planner.PlanCreate | sandbox.js:43-57 | The script is checked before any directory, and a plan holds exactly the script spec and the directory items |
| Planner.ImportSlotsDistinct | sandbox.js:56 | Two directories never share an import slot |
| Planner.DestinationsDistinct | sandbox.js:56 | Destinations under one base coincide exactly when the resolved paths do |
| Planner.PlanDistinct | sandbox.js:52-57 | In a plan, slots are pairwise distinct, and destinations are distinct exactly when resolved paths are |
| Planner.ImportSlotHasNoComma | sandbox.js:56 | An import slot holds no comma |
| Planner.BindMountFields | sandbox.js:56 | A descriptor with comma-free paths splits at its commas into exactly its four fields, the second naming the source path |
| Planner.BindMountCommaBreaks | sandbox.js:55-56 | A descriptor whose source or target holds a comma splits into more than four fields, which is why such paths are refused |
| Planner.IndexOfComma | sandbox.js:55 | The position returned holds a comma |
| Planner.PlanMountFields | sandbox.js:52-57 | Every planned descriptor splits into exactly four fields naming its resolved path as source and its slot as target |
| Messages.Normalize | sandbox.js:7 | `err` removes a leading `Error:` and the white space after it, and leaves any other message unchanged |
| Messages.NormalizeStripsPrefix | sandbox.js:7 | On a message that carries the prefix and spaces, `err` returns what follows them |
| Messages.Surface | sandbox.js:74-75 | The result is the conflict message for the sandbox exactly when "already exists" or "exists:" occurs at some position of the text; otherwise it is the text itself |
| Messages.SurfaceIdempotent | sandbox.js:74-75 | A surfaced message surfaces as itself |
| Messages.ConflictMessageContents | sandbox.js:74 | The conflict message says "already exists", names the sandbox, and suggests `-n` or `sandbox delete <name>` |
| Messages.ContainsAlternate | sandbox.js:74 | Each piece of a message assembled from pieces occurs in it |
| Messages.Describe | sandbox.js:30-55 | Every description names its culprit: the flag without a value, the quoted base, the script that is not a file, the path that is not a directory, the path with a comma |
| Messages.AbortedReport | sandbox.js:73-75 | A guarded failure whose normalised text says "already exists" is reported as a conflict naming the sandbox and suggesting its deletion; any other is reported with its normalised text |
| Creator.Perform | sandbox.js:8-11 | Commands are issued in step order; a run that did not stop issued every step, and one that stopped issued at least one |
| Creator.PerformAcked | sandbox.js:8-11 | Every issued command but the one a run stopped at was acknowledged; that one was refused and its refusal is the one reported |
| Creator.PerformAckedPrefix | sandbox.js:8-11 | Every issued command before the stopping one was acknowledged |
| Creator.PerformRefusedLast | sandbox.js:10 | A run that stopped did so at a command the runtime refused, and reports that refusal |
| Creator.PerformOut | sandbox.js:64-68 | The lines printed are those of the steps completed |
| Creator.PerformPastFirst | sandbox.js:8-11 | A run that stops after an acknowledged first step issued at least two commands |
| Creator.ImportSteps | sandbox.js:64-68 | Each directory contributes a `mkdir` of its destination and a `cp` from its slot, in plan order, all in the sandbox |
| Creator.AfterLaunchExecs | sandbox.js:63-69 | Every step after the launch is an `exec` in the named sandbox |
| Creator.LaunchAndImport | sandbox.js:59-76 | The guarded trace starts with the launch and never ends in the usage status; a ready sandbox prints "Ready: " and its name last |
| Creator.LaunchRefused | sandbox.js:61 | A refused launch is the only guarded command: nothing is printed or torn down, and its refusal is reported through the handler |
| Creator.LaunchReady | sandbox.js:61-70 | A ready sandbox saw every guarded command issued and acknowledged, and every copy line printed before "Ready" |
| Creator.LaunchRolledBack | sandbox.js:71-72 | After an acknowledged launch, a refused step is the last command before the stop and delete, and its refusal is reported |
| Creator.TornDown | sandbox.js:71-72 | A report that stops and deletes after a refusal keeps, before the teardown, exactly the commands issued up to that refusal |
| Creator.LaunchTraceShape | sandbox.js:59-72 | The launch is the first guarded command and never repeats; a teardown closes the trace after a failure that followed an acknowledged launch |
| Creator.ReadinessOutcome | sandbox.js:12 | The version check is issued first and the daemon start only if the check was acknowledged; the outcome carries whichever was refused |
| Creator.VersionAcked | sandbox.js:12 | Once the version check is acknowledged, the probe goes on to start the daemon |
| Creator.EarlyRejection | sandbox.js:25-41 | Nothing is issued exactly when help, a missing value, no directory or a relative base is seen; such a result depends on neither host nor runtime; anything else starts with the version check |
| Creator.MissingValueHalts | sandbox.js:30 | A flag left without a value stops create with that flag named |
| Creator.ProbeRefused | sandbox.js:12 | A refused probe issued a prefix of the two probe commands, the last of which was refused |
| Creator.ReadinessRefused | sandbox.js:12 | A refused probe ends create with nothing printed, whatever the filesystem, and reports the refusal as a thrown error, never as a conflict |
| Creator.PlanRefused | sandbox.js:43-57 | A refused plan ends create after the probe and before the launch, with the planning error |
| Creator.FirstRefusedUnique | sandbox.js:52-57 | There is only one first refused directory |
| Creator.DirectoryRefused | sandbox.js:52-55 | With an acceptable script, the first refused directory decides the error, after the probe and before the launch |
| Creator.NotesConcat | sandbox.js:64-68 | The lines of two runs of steps are the lines of each, one after the other |
| Creator.PairNotes | sandbox.js:65-67 | Importing one directory prints its copy line and nothing else |
| Creator.CopyLines | sandbox.js:67 | One `Copied:` line per item, naming its resolved path and destination, in order |
| Creator.ImportNotes | sandbox.js:64-68 | Importing the items prints their copy lines in order |
| Creator.CopyNotes | sandbox.js:63-69 | After the launch, exactly one line per copied directory is printed, in plan order; the import root and the script print nothing of their own |
| Creator.GuardedCommands | sandbox.js:61-69 | The guarded commands are the launch, the import root, a `mkdir` and `cp` per directory in order, then the script run live |
| Creator.LaunchMountFields | sandbox.js:56-61 | Every mount of the launch splits into four fields: each directory's names its resolved path and slot, and the script's names its directory and the script mount point |
| Creator.PerformAllDone | sandbox.js:8-11 | A runtime that acknowledges everything lets every step through |
| Creator.SuccessTrace | sandbox.js:42-70 | With an always-acknowledging runtime and a valid plan, the sandbox is ready after the probe and every guarded command, with the copy lines then "Ready" |
| Creator.LaunchRefusedReport | sandbox.js:61 | A launch refused after the probe ends the trace, and its refusal is reported |
| Creator.AckedAfterProbe | sandbox.js:42-70 | An acknowledged probe followed by an acknowledged guarded part is an acknowledged trace |
| Creator.RefusedInside | sandbox.js:10 | A trace holding a refused command is not acknowledged |
| Creator.RefusalBeforeTail | sandbox.js:71-72 | A refusal followed by the teardown stays the refusal before the teardown with more commands in front |
| Creator.ReadyIffAcked | sandbox.js:59-70 | With a valid plan, create ends ready exactly when the runtime acknowledged every command it was given |
| Creator.GuardedReadyIffAcked | sandbox.js:59-70 | After an acknowledged probe, the guarded part ends ready exactly when every command of the whole trace was acknowledged |
| Creator.RolledBackNotAcked | sandbox.js:71-72 | A rollback after the probe leaves a refused command in the trace |
| Creator.ProbePlain | sandbox.js:12 | Every prefix of the probe commands is plain: it holds only the version check and the daemon start |
| Creator.PlainQuiet | sandbox.js:12 | A trace of probe commands holds no teardown and no launch |
| Creator.TeardownMeansLaunched | sandbox.js:71-72 | A teardown comes only from a failure after an acknowledged launch |
| Creator.LaunchedFirst | sandbox.js:61 | The only launch the guarded part issues is its first command |
| Creator.RollbackExactly | sandbox.js:59-76 | The sandbox is stopped and deleted exactly when create fails after an acknowledged launch; the teardown then closes the trace right after the refused command, whose refusal is reported |
| Creator.RollbackAfterPlan | sandbox.js:59-76 | The rollback property once the probe and the plan succeeded |
| Creator.GuardedTeardownIff | sandbox.js:71-72 | The guarded part tears down exactly when it fails after an acknowledged launch |
| Creator.GuardedTeardownShape | sandbox.js:71-75 | A guarded part that tears down ends with stop and delete, right after the refused command whose refusal it reports |
| Creator.CreateRollback | sandbox.js:23-77 | For every invocation: stop and delete are issued exactly when create fails after an acknowledged launch |
| Creator.CreateReady | sandbox.js:23-77 | For every invocation: create ends ready exactly when the input passes the checks, the host allows the plan, and every command issued was acknowledged |
| Creator.Create | sandbox.js:23-77 | Usage is shown exactly when `-h` or `--help` is among the tokens; nothing is printed unless something was issued; whatever is issued starts with the version check; a ready sandbox had an accepted scan and prints "Ready: " and the scanned name last |
| Creator.Provision | sandbox.js:42-76 | Provisioning always starts with the version check, never shows usage, and ends ready only for a plan the host allowed, printing "Ready: " and the name last |
| Scenarios.NamedOptions | sandbox.js:24-39 | Plain directory tokens then `-n name` scan to those directories and that name, all else at the defaults |
| Scenarios.DefaultPlan | sandbox.js:52-57 | Directories the host accepts are planned at slots 0, 1, … under `/sandbox` with no script |
| Scenarios.TwoGuarded | sandbox.js:61-68 | Two directories and no script give six guarded commands and two copy lines, written out |
| Scenarios.ProvisionTwo | sandbox.js:42-70 | Provisioning two directories with an always-acknowledging runtime gives the eight commands, two copy lines and "Ready" |
| Scenarios.ImportTwo | sandbox.js:23-70 | `sandbox create d1 d2 -n name` with everything accepted gives the probe, the launch with both mounts, the imports, two copy lines and "Ready" |
| Scenarios.TwoArgs | sandbox.js:24-41 | `d1 d2 -n name` passes the input checks |
| Scenarios.TwoPlanned | sandbox.js:52-57 | Two accepted directories are planned at slots 0 and 1 |
| Scenarios.OneArgs | sandbox.js:24-41 | `d -n name` passes the input checks |
| Scenarios.OnePlanned | sandbox.js:52-57 | One accepted directory is planned at slot 0 |
| Scenarios.MissingDirectory | sandbox.js:53 | A directory the host does not have makes create stop after the probe with the host's message, `Error:` stripped |
| Scenarios.OneLaunch | sandbox.js:61 | The launch of one directory mounts it alone, with the image and name from the options |
| Scenarios.OneRefused | sandbox.js:61 | A refused one-directory launch ends create after three commands with that refusal |
| Scenarios.NameTaken | sandbox.js:73-74 | A launch refused because the name is taken is not torn down and is reported as the conflict message naming the sandbox |
| Scenarios.OneGuarded | sandbox.js:61-66 | One directory and no script give the launch, the import root, the `mkdir` and the `cp` |
| Scenarios.CopyRefusedGuarded | sandbox.js:61-72 | A refused copy after three acknowledged commands stops and deletes the sandbox, prints nothing and reports the copy's refusal |
| Scenarios.CopyRefusedProvision | sandbox.js:42-72 | The same, after the probe, for any one-directory plan |
| Scenarios.CopyRefusedDefaults | sandbox.js:42-72 | The same for a directory planned with the default base |
| Scenarios.CopyRefused | sandbox.js:23-75 | `sandbox create d -n name` whose copy is refused issues eight commands, ending with stop and delete, prints nothing, and reports the copy's refusal |

## Left out

- The usage text: asking for help is modelled as the `Usage` status, and the text itself is not.
- The `ls`, `stop` and `delete` subcommands and the dispatch on the first argument (lines 20-21, 79-93) are not part of this model. Only the top-level handler's reporting of errors thrown by `create` is modelled.
- `process.exit`: every exit is a final `Status`. The exit code (0 for ready or usage, 1 for an error) is not represented separately.
- The live standard streams: the script's own output goes to the terminal and is not observed. Only the lines the program prints are in `out`.
- The replies to `container stop` and `container delete` during rollback: the program ignores them, so they are not consulted.
- The filesystem is a function: `statSync` and `realpathSync` are merged into one answer per path. A path that exists but cannot be resolved is not modelled.
- Text.DirName, Text.BaseName: modelled for paths without a trailing separator, which is what `realpathSync` returns for everything but the root.
- Text.Trim: the white-space set is the one `String.prototype.trim` uses. Unicode normalisation and case are not modelled.
- Messages.Normalize: `String(e?.message ?? e)` is modelled as the message text itself. Non-`Error` values are never thrown on these paths.
