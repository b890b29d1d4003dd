/** String operations of the JavaScript runtime that `sandbox create` relies on:
    prefix and substring tests, `trim`, `join`, splitting a mount descriptor at
    its commas, decimal rendering of an index, and `dirname`/`basename`. */
module Text {
  import opened Results
  import opened Seqs

  /** The characters matched by `\s` in a JavaScript regular expression and
      removed by `String.prototype.trim`: tab, line feed, vertical tab, form
      feed, carriage return, space, no-break space, ogham space mark, the
      eleven spaces U+2000 to U+200A, the line and paragraph separators, the
      narrow no-break space, the medium mathematical space, the ideographic
      space and the byte order mark. */
  predicate IsSpace(c: char) {
    || '\t' <= c <= '\r' || c == ' ' || c == '\U{00A0}' || c == '\U{1680}'
    || '\U{2000}' <= c <= '\U{200A}' || c == '\U{2028}' || c == '\U{2029}'
    || c == '\U{202F}' || c == '\U{205F}' || c == '\U{3000}' || c == '\U{FEFF}'
  }

  predicate StartsWith(s: string, p: string) {
    |p| <= |s| && s[..|p|] == p
  }

  /** `p` occurs in `s` starting at position `i`. */
  predicate OccursAt(s: string, p: string, i: int) {
    0 <= i && i + |p| <= |s| && s[i..i + |p|] == p
  }

  /** JavaScript's `s.includes(p)`. */
  predicate Contains(s: string, p: string)
    decreases |s|
  {
    StartsWith(s, p) || (|s| > 0 && Contains(s[1..], p))
  }

  /** Every occurrence is found by `Contains`. */
  lemma {:induction false} OccurrenceContained(s: string, p: string, i: int)
    requires OccursAt(s, p, i)
    ensures Contains(s, p)
    decreases i
  {
    if i > 0 {
      assert s[1..][i - 1..i - 1 + |p|] == s[i..i + |p|];
      OccurrenceContained(s[1..], p, i - 1);
    }
  }

  /** What `Contains` finds is an occurrence. */
  lemma {:induction false} ContainedOccurs(s: string, p: string)
    requires Contains(s, p)
    ensures exists i :: OccursAt(s, p, i)
    decreases |s|
  {
    if StartsWith(s, p) {
      assert OccursAt(s, p, 0);
    } else {
      ContainedOccurs(s[1..], p);
      var i :| OccursAt(s[1..], p, i);
      assert s[1..][i..i + |p|] == s[i + 1..i + 1 + |p|];
      assert OccursAt(s, p, i + 1);
    }
  }

  /** `Contains` finds exactly the occurrences `OccursAt` describes. */
  lemma ContainsIff(s: string, p: string)
    ensures Contains(s, p) <==> exists i :: OccursAt(s, p, i)
  {
    if Contains(s, p) {
      ContainedOccurs(s, p);
    }
    if exists i :: OccursAt(s, p, i) {
      var i :| OccursAt(s, p, i);
      OccurrenceContained(s, p, i);
    }
  }

  /** A string contains each of its pieces. */
  lemma ContainsMiddle(a: string, p: string, b: string)
    ensures Contains(a + p + b, p)
  {
    assert (a + p + b)[|a|..|a| + |p|] == p;
    OccurrenceContained(a + p + b, p, |a|);
  }

  /** Anything that occurs in a piece also occurs in a string containing that piece. */
  lemma ContainsWithin(a: string, p: string, b: string, q: string)
    requires Contains(p, q)
    ensures Contains(a + p + b, q)
  {
    ContainsIff(p, q);
    var i :| OccursAt(p, q, i);
    assert (a + p + b)[|a| + i..|a| + i + |q|] == p[i..i + |q|];
    assert OccursAt(a + p + b, q, |a| + i);
    ContainsIff(a + p + b, q);
  }

  /** Drops the leading white space, as the `\s*` after `^Error:` in a regular expression does. */
  function TrimStart(s: string): (r: string)
    ensures |r| <= |s| && r == s[|s| - |r|..]
    ensures forall i :: 0 <= i < |s| - |r| ==> IsSpace(s[i])
    ensures |r| == 0 || !IsSpace(r[0])
    decreases |s|
  {
    if |s| > 0 && IsSpace(s[0]) then TrimStart(s[1..]) else s
  }

  /** Drops the trailing white space. */
  function TrimEnd(s: string): (r: string)
    ensures |r| <= |s| && r == s[..|r|]
    ensures forall i :: |r| <= i < |s| ==> IsSpace(s[i])
    ensures |r| == 0 || !IsSpace(r[|r| - 1])
    decreases |s|
  {
    if |s| > 0 && IsSpace(s[|s| - 1]) then TrimEnd(s[..|s| - 1]) else s
  }

  /** `r` is `s` with the white space before position `i` and after
      position `i + |r|` cut off. */
  predicate TrimmedAt(s: string, r: string, i: int) {
    && 0 <= i <= |s| - |r|
    && r == s[i..i + |r|]
    && (forall k :: 0 <= k < i ==> IsSpace(s[k]))
    && (forall k :: i + |r| <= k < |s| ==> IsSpace(s[k]))
  }

  /** JavaScript's `s.trim()`: the middle piece of `s` that neither starts nor
      ends with white space, everything cut off being white space. */
  function Trim(s: string): (r: string)
    ensures exists i :: TrimmedAt(s, r, i)
    ensures |r| == 0 || (!IsSpace(r[0]) && !IsSpace(r[|r| - 1]))
  {
    var t := TrimStart(s);
    var r := TrimEnd(t);
    TrimmedPieces(s, t, r);
    assert |r| > 0 ==> r[0] == t[0];
    r
  }

  /** Cutting white space off the front of `s`, then off the back of what
      is left, cuts `s` down to its middle piece. */
  lemma TrimmedPieces(s: string, t: string, r: string)
    requires |t| <= |s| && t == s[|s| - |t|..]
    requires forall k :: 0 <= k < |s| - |t| ==> IsSpace(s[k])
    requires |r| <= |t| && r == t[..|r|]
    requires forall k :: |r| <= k < |t| ==> IsSpace(t[k])
    ensures TrimmedAt(s, r, |s| - |t|)
  {
    var i := |s| - |t|;
    assert r == s[i..i + |r|];
    forall k | i + |r| <= k < |s| ensures IsSpace(s[k]) {
      assert s[k] == t[k - i];
    }
  }

  /** A string that neither starts nor ends with white space is its own trim. */
  lemma TrimUnchanged(s: string)
    requires |s| > 0 && !IsSpace(s[0]) && !IsSpace(s[|s| - 1])
    ensures Trim(s) == s
  {
    var r := Trim(s);
    var i :| TrimmedAt(s, r, i);
    assert i == 0;
    assert i + |r| == |s|;
  }

  /** JavaScript's `parts.join(sep)`. */
  function Join(parts: seq<string>, sep: string): string
    decreases |parts|
  {
    if |parts| == 0 then ""
    else if |parts| == 1 then parts[0]
    else parts[0] + sep + Join(parts[1..], sep)
  }

  /** A join starts with its first part. */
  lemma JoinStartsWith(parts: seq<string>, sep: string)
    requires |parts| > 0
    ensures StartsWith(Join(parts, sep), parts[0])
  {
    if |parts| > 1 {
      assert Join(parts, sep) == parts[0] + (sep + Join(parts[1..], sep));
    }
  }

  /** The fields of `s` between occurrences of `c`, as `s.split(c)` returns them. */
  function Split(s: string, c: char): (r: seq<string>)
    ensures |r| >= 1
    ensures forall k :: 0 <= k < |r| ==> c !in r[k]
    decreases |s|
  {
    if |s| == 0 then [""]
    else
      var rest := Split(s[1..], c);
      if s[0] == c then [""] + rest
      else
        var r := [[s[0]] + rest[0]] + rest[1..];
        assert forall k :: 1 <= k < |r| ==> r[k] == rest[k];
        r
  }

  /** Splitting at the separator and joining back with it restores the string. */
  lemma {:induction false} JoinSplit(s: string, c: char)
    ensures Join(Split(s, c), [c]) == s
    decreases |s|
  {
    if |s| > 0 {
      var rest := Split(s[1..], c);
      JoinSplit(s[1..], c);
      if s[0] == c {
        assert Split(s, c) == [""] + rest;
        if |rest| == 1 {
          assert Join([""] + rest, [c]) == "" + [c] + rest[0];
        } else {
          assert ([""] + rest)[1..] == rest;
          assert Join(rest, [c]) == rest[0] + [c] + Join(rest[1..], [c]);
        }
        assert s == [c] + s[1..];
      } else {
        var first := [s[0]] + rest[0];
        assert Split(s, c) == [first] + rest[1..];
        if |rest| == 1 {
          assert Join([first], [c]) == first;
          assert rest[0] == Join(rest, [c]);
        } else {
          assert ([first] + rest[1..])[1..] == rest[1..];
          assert Join(rest, [c]) == rest[0] + [c] + Join(rest[1..], [c]);
        }
        assert s == [s[0]] + s[1..];
      }
    }
  }

  /** A string without the separator is a single field. */
  lemma {:induction false} SplitWithout(s: string, c: char)
    requires c !in s
    ensures Split(s, c) == [s]
    decreases |s|
  {
    if |s| > 0 {
      assert c !in s[1..] by {
        forall k | 0 <= k < |s[1..]| ensures s[1..][k] != c {
          assert s[1..][k] == s[k + 1];
        }
      }
      SplitWithout(s[1..], c);
      assert s == [s[0]] + s[1..];
    }
  }

  /** A separator between two strings separates their fields. */
  lemma {:induction false} SplitAround(x: string, c: char, y: string)
    ensures Split(x + [c] + y, c) == Split(x, c) + Split(y, c)
    decreases |x|
  {
    var s := x + [c] + y;
    if |x| == 0 {
      assert s[1..] == y;
    } else {
      assert s[1..] == x[1..] + [c] + y;
      SplitAround(x[1..], c, y);
      var a, b := Split(x[1..], c), Split(y, c);
      if x[0] == c {
        AppendAssoc([""], a, b);
      } else {
        ConsAppend(a, b);
      }
    }
  }

  /** Four pieces joined by the separator split into the fields of each piece. */
  lemma SplitFour(a: string, b: string, d: string, e: string, c: char)
    ensures Split(a + [c] + b + [c] + d + [c] + e, c) == Split(a, c) + Split(b, c) + Split(d, c) + Split(e, c)
  {
    var de := d + [c] + e;
    var bde := b + [c] + de;
    Regroup(a, [c], b, [c], d, [c], e);
    SplitAround(a, c, bde);
    SplitAround(b, c, de);
    SplitAround(d, c, e);
    var sa, sb, sd, se := Split(a, c), Split(b, c), Split(d, c), Split(e, c);
    Regroup4(sa, sb, sd, se);
  }

  /** Four separator-free pieces joined by the separator split back into them. */
  lemma SplitFourFields(a: string, b: string, d: string, e: string, c: char)
    requires c !in a && c !in b && c !in d && c !in e
    ensures Split(a + [c] + b + [c] + d + [c] + e, c) == [a, b, d, e]
  {
    SplitFour(a, b, d, e, c);
    SplitWithout(a, c);
    SplitWithout(b, c);
    SplitWithout(d, c);
    SplitWithout(e, c);
  }

  /** Four pieces joined by the separator, a middle one of which holds the
      separator itself, split into more than four fields. */
  lemma SplitFourOverflow(a: string, b: string, d: string, e: string, c: char)
    requires c in b || c in d
    ensures |Split(a + [c] + b + [c] + d + [c] + e, c)| > 4
  {
    SplitFour(a, b, d, e, c);
    if c in b {
      SplitHasTwo(b, c);
    } else {
      SplitHasTwo(d, c);
    }
  }

  /** A string that holds the separator splits into at least two fields. */
  lemma SplitHasTwo(s: string, c: char)
    requires c in s
    ensures |Split(s, c)| >= 2
  {
    var k :| 0 <= k < |s| && s[k] == c;
    assert s == s[..k] + [c] + s[k + 1..];
    SplitAround(s[..k], c, s[k + 1..]);
  }

  /** Splitting a join of separator-free fields gives the fields back. */
  lemma {:induction false} SplitJoin(parts: seq<string>, c: char)
    requires |parts| >= 1
    requires forall i :: 0 <= i < |parts| ==> c !in parts[i]
    ensures Split(Join(parts, [c]), c) == parts
    decreases |parts|
  {
    SplitWithout(parts[0], c);
    if |parts| > 1 {
      SplitJoin(parts[1..], c);
      SplitAround(parts[0], c, Join(parts[1..], [c]));
    }
  }

  /** The decimal digit for `d`. */
  function DigitChar(d: nat): (c: char)
    requires d < 10
    ensures '0' <= c <= '9'
  {
    ('0' as int + d) as char
  }

  /** The value of a decimal digit. */
  function DigitValue(c: char): (d: nat)
    requires '0' <= c <= '9'
    ensures d < 10 && DigitChar(d) == c
  {
    c as int - '0' as int
  }

  predicate IsDecimal(s: string) {
    forall i :: 0 <= i < |s| ==> '0' <= s[i] <= '9'
  }

  /** A natural number in decimal without leading zeros, as `${n}` renders it. */
  function Decimal(n: nat): (r: string)
    ensures |r| >= 1 && IsDecimal(r)
    ensures |r| > 1 ==> r[0] != '0'
    decreases n
  {
    if n < 10 then [DigitChar(n)] else Decimal(n / 10) + [DigitChar(n % 10)]
  }

  /** Reads a string of decimal digits as a number. */
  function ParseDecimal(s: string): nat
    requires IsDecimal(s)
    decreases |s|
  {
    if |s| == 0 then 0
    else ParseDecimal(s[..|s| - 1]) * 10 + DigitValue(s[|s| - 1])
  }

  /** Reading a rendered number gives the number back. */
  lemma {:induction false} ParseDecimalInverts(n: nat)
    ensures ParseDecimal(Decimal(n)) == n
    decreases n
  {
    var r := Decimal(n);
    if n < 10 {
      assert r[..0] == [];
    } else {
      ParseDecimalInverts(n / 10);
      assert r[..|r| - 1] == Decimal(n / 10);
      assert DigitValue(r[|r| - 1]) == n % 10;
    }
  }

  /** Distinct numbers render as distinct strings. */
  lemma DecimalInjective(m: nat, n: nat)
    ensures Decimal(m) == Decimal(n) <==> m == n
  {
    if Decimal(m) == Decimal(n) {
      ParseDecimalInverts(m);
      ParseDecimalInverts(n);
    }
  }

  /** The position of the last `/` in `p`, if any. */
  function LastSlash(p: string): (r: Option<nat>)
    ensures r.Some? ==> r.value < |p| && p[r.value] == '/' && '/' !in p[r.value + 1..]
    ensures r.None? ==> '/' !in p
    decreases |p|
  {
    if |p| == 0 then None
    else if p[|p| - 1] == '/' then Some(|p| - 1)
    else
      var r := LastSlash(p[..|p| - 1]);
      assert r.Some? ==> p[r.value + 1..] == p[..|p| - 1][r.value + 1..] + [p[|p| - 1]];
      assert r.None? ==> p == p[..|p| - 1] + [p[|p| - 1]];
      r
  }

  /** Node's `path.dirname` on a path without a trailing separator. */
  function DirName(p: string): string {
    match LastSlash(p)
    case None => "."
    case Some(k) => if k == 0 then "/" else p[..k]
  }

  /** Node's `path.basename` on a path without a trailing separator. */
  function BaseName(p: string): string {
    match LastSlash(p)
    case None => p
    case Some(k) => p[k + 1..]
  }

  /** An absolute path is its directory and its base name joined by a
      separator, or the root separator and its base name; the directory is
      absolute and the base name holds no separator. */
  lemma DirBaseName(p: string)
    ensures StartsWith(p, "/") ==>
      && '/' !in BaseName(p)
      && StartsWith(DirName(p), "/")
      && (p == DirName(p) + "/" + BaseName(p) || (DirName(p) == "/" && p == "/" + BaseName(p)))
  {
    if StartsWith(p, "/") {
      assert p[0] == '/';
      var k := LastSlash(p).value;
      assert p == p[..k] + [p[k]] + p[k + 1..];
    }
  }
}
