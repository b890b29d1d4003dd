/** The errors `sandbox create` reports, the text it prints for each, and the
    two rewrites applied to the text of a failed runtime command: `err`, which
    strips a leading `Error:`, and the rewrite of "already exists" failures into
    an actionable message (sandbox.js lines 6-7 and 73-75). */
module Messages {
  import opened Text
  import opened Runtime

  /** The prefix `err` removes. */
  const ErrorPrefix: string := "Error:"

  /** `err(e)`: one leading `Error:` and the white space after it are removed;
      any other message is left unchanged. */
  function Normalize(m: string): (r: string)
    ensures !StartsWith(m, ErrorPrefix) ==> r == m
    ensures StartsWith(m, ErrorPrefix) ==>
      && |r| <= |m| - |ErrorPrefix|
      && m == ErrorPrefix + m[|ErrorPrefix|..|m| - |r|] + r
      && (forall k :: |ErrorPrefix| <= k < |m| - |r| ==> IsSpace(m[k]))
      && (|r| == 0 || !IsSpace(r[0]))
  {
    if StartsWith(m, ErrorPrefix) then TrimStart(m[|ErrorPrefix|..]) else m
  }

  /** The fixed message that replaces a name-conflict failure. */
  function ConflictMessage(name: string): string {
    "container " + Quote(name) + " " + "already exists" + ". Use " + Quote("-n <name>")
    + " or run " + Quote("sandbox delete " + name) + " first."
  }

  /** `s` between single quotes. */
  function Quote(s: string): string {
    "'" + s + "'"
  }

  /** The runtime's failure text says that something already exists. */
  predicate SaysExists(m: string) {
    Contains(m, "already exists") || Contains(m, "exists:")
  }

  /** The message create's handler surfaces for the normalised text `m`: the
      conflict message exactly when "already exists" or "exists:" occurs
      somewhere in `m`, and `m` itself otherwise. */
  function Surface(m: string, name: string): (r: string)
    ensures r == ConflictMessage(name) <==>
      (exists i :: OccursAt(m, "already exists", i)) || (exists i :: OccursAt(m, "exists:", i))
    ensures r != ConflictMessage(name) ==> r == m
  {
    ConflictMessageContents(name);
    ContainsIff(m, "already exists");
    ContainsIff(m, "exists:");
    if SaysExists(m) then ConflictMessage(name) else m
  }

  /** The conflict message itself says "already exists", names the sandbox and
      suggests both remedies: another `-n` or deleting the existing one. */
  lemma ConflictMessageContents(name: string)
    ensures SaysExists(ConflictMessage(name))
    ensures Contains(ConflictMessage(name), Quote(name))
    ensures Contains(ConflictMessage(name), Quote("-n <name>"))
    ensures Contains(ConflictMessage(name), Quote("sandbox delete " + name))
  {
    var q, e, o, d := Quote(name), "already exists", Quote("-n <name>"), Quote("sandbox delete " + name);
    var s1, s2, s3, s4, s5 := "container ", " ", ". Use ", " or run ", " first.";
    assert ConflictMessage(name) == s1 + q + s2 + e + s3 + o + s4 + d + s5;
    ContainsAlternate(s1, q, s2, e, s3, o, s4, d, s5);
  }

  /** Each of the four pieces set between five others occurs in the whole. */
  lemma ContainsAlternate(s1: string, q: string, s2: string, e: string, s3: string, o: string, s4: string, d: string, s5: string)
    ensures var m := s1 + q + s2 + e + s3 + o + s4 + d + s5;
      Contains(m, q) && Contains(m, e) && Contains(m, o) && Contains(m, d)
  {
    var m := s1 + q + s2 + e + s3 + o + s4 + d + s5;
    assert m == s1 + q + (s2 + e + s3 + o + s4 + d + s5);
    ContainsMiddle(s1, q, s2 + e + s3 + o + s4 + d + s5);
    assert m == (s1 + q + s2) + e + (s3 + o + s4 + d + s5);
    ContainsMiddle(s1 + q + s2, e, s3 + o + s4 + d + s5);
    assert m == (s1 + q + s2 + e + s3) + o + (s4 + d + s5);
    ContainsMiddle(s1 + q + s2 + e + s3, o, s4 + d + s5);
    ContainsMiddle(s1 + q + s2 + e + s3 + o + s4, d, s5);
  }

  /** Surfacing is idempotent: a surfaced message surfaces as itself. */
  lemma SurfaceIdempotent(m: string, name: string)
    ensures Surface(Surface(m, name), name) == Surface(m, name)
  {
    ConflictMessageContents(name);
  }

  /** Why `sandbox create` stopped. */
  datatype CreateError =
    | MissingValue(flag: string)          // an option flag without a value
    | NoDirectories                       // no directory was named
    | RelativeBase(base: string)          // the destination base is not absolute
    | NotAFile(script: string)            // the script is not a regular file
    | NotADirectory(dir: string)          // a directory argument is not a directory
    | CommaInPath(path: string)           // a resolved path holds a comma
    | Thrown(message: string)             // a host lookup threw; the outermost handler reports it
    | ProbeFailed(refusal: Refusal)       // the readiness probe threw; the outermost handler reports it
    | Aborted(name: string, refusal: Refusal) // a runtime command failed inside create's handler

  /** The text printed after `Error: `; each input error names the value
      that caused it. */
  function Describe(e: CreateError): (text: string)
    ensures e.MissingValue? ==> Contains(text, e.flag)
    ensures e.RelativeBase? ==> Contains(text, Quote(e.base))
    ensures e.NotAFile? ==> Contains(text, e.script)
    ensures e.NotADirectory? ==> Contains(text, e.dir)
    ensures e.CommaInPath? ==> Contains(text, e.path)
  {
    match e
    case MissingValue(flag) => Named("missing value for ", flag)
    case NoDirectories => "create needs at least one directory"
    case RelativeBase(base) =>
      ContainsMiddle("dest base must be absolute (got ", Quote(base), ")");
      "dest base must be absolute (got " + Quote(base) + ")"
    case NotAFile(script) => Named("not a file: ", script)
    case NotADirectory(dir) => Named("not a directory: ", dir)
    case CommaInPath(path) => Named("commas not supported in path: ", path)
    case Thrown(message) => Normalize(message)
    case ProbeFailed(r) => Normalize(FailureText(r.cmd, r.stderr))
    case Aborted(name, r) => Surface(Normalize(FailureText(r.cmd, r.stderr)), name)
  }

  /** A fixed lead followed by the value it names. */
  function Named(lead: string, value: string): (text: string)
    ensures Contains(text, value)
  {
    ContainsMiddle(lead, value, "");
    assert lead + value + "" == lead + value;
    lead + value
  }

  /** The line written to the diagnostic stream for an error. */
  function ErrorLine(e: CreateError): (line: string)
    ensures StartsWith(line, "Error: ")
    ensures line[|"Error: "|..] == Describe(e)
  {
    "Error: " + Describe(e)
  }

  /** A failure inside create's handler whose normalised text says "already
      exists" is reported as a name conflict naming the sandbox; any other is
      reported with its normalised text. */
  lemma AbortedReport(name: string, r: Refusal)
    ensures var message := FailureText(r.cmd, r.stderr);
      && (SaysExists(Normalize(message)) ==>
           Describe(Aborted(name, r)) == ConflictMessage(name)
           && Contains(Describe(Aborted(name, r)), Quote("sandbox delete " + name)))
      && (!SaysExists(Normalize(message)) ==> Describe(Aborted(name, r)) == Normalize(message))
  {
    ConflictMessageContents(name);
  }

  /** `err` on a message that carries the prefix, followed by spaces, returns
      what follows them. */
  lemma NormalizeStripsPrefix(spaces: string, rest: string)
    requires forall k :: 0 <= k < |spaces| ==> IsSpace(spaces[k])
    requires |rest| == 0 || !IsSpace(rest[0])
    ensures Normalize(ErrorPrefix + spaces + rest) == rest
  {
    var m := ErrorPrefix + spaces + rest;
    assert StartsWith(m, ErrorPrefix);
    var x := spaces + rest;
    assert m[|ErrorPrefix|..] == x;
    var r := TrimStart(x);
    if |rest| > 0 {
      assert !IsSpace(x[|spaces|]);
    }
    assert forall j :: 0 <= j < |spaces| ==> IsSpace(x[j]);
  }
}
