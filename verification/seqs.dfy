/** Small facts about sequences: regrouping concatenations and cutting
    them, with short sequences written out element by element. Each is
    stated once here so that the proofs using them stay cheap. */
module Seqs {
  /** A left-nested concatenation of seven pieces, regrouped to the right
      after its second, fourth and sixth pieces. */
  lemma Regroup<T>(a: seq<T>, x: seq<T>, b: seq<T>, y: seq<T>, d: seq<T>, z: seq<T>, e: seq<T>)
    ensures a + x + b + y + d + z + e == a + x + (b + y + (d + z + e))
  {
  }

  /** The head and tail of a concatenation whose first part is not empty. */
  lemma ConsAppend<T>(a: seq<T>, b: seq<T>)
    requires |a| > 0
    ensures (a + b)[0] == a[0] && (a + b)[1..] == a[1..] + b
  {
  }

  /** Concatenation is associative. */
  lemma AppendAssoc<T>(a: seq<T>, b: seq<T>, c: seq<T>)
    ensures a + (b + c) == (a + b) + c
  {
  }

  /** Cutting a concatenation inside its second part. */
  lemma AppendSlices<T>(a: seq<T>, b: seq<T>, n: int)
    requires 0 <= n <= |b|
    ensures (a + b)[..|a| + n] == a + b[..n]
    ensures (a + b)[|a| + n..] == b[n..]
  {
  }

  /** A prefix of a prefix. */
  lemma TakeTake<T>(s: seq<T>, n: int, m: int)
    requires 0 <= m < n <= |s|
    ensures s[..n][..m] == s[..m] && s[..n][m] == s[m]
  {
  }

  /** Four pieces concatenated right-nested or left-nested are the same. */
  lemma Regroup4<T>(p: seq<T>, q: seq<T>, r: seq<T>, s: seq<T>)
    ensures p + (q + (r + s)) == p + q + r + s
  {
  }

  /** Two elements followed by six, written out. */
  lemma PrefixSix<T>(a: T, b: T, t: seq<T>)
    requires |t| == 6
    ensures [a, b] + t == [a, b, t[0], t[1], t[2], t[3], t[4], t[5]]
  {
  }

  /** Two elements followed by one, written out. */
  lemma AppendToTwo<T>(n: seq<T>, y: T)
    requires |n| == 2
    ensures n + [y] == [n[0], n[1], y]
  {
  }

  /** The histories a five-command prefix passes through, written out. */
  lemma Histories<T>(a: T, b: T, c: T, d: T, e: T)
    ensures [a, b] + [c] == [a, b, c]
    ensures [a, b] + [c] + [d] == [a, b, c, d]
    ensures [a, b] + [c] + [d] + [e] == [a, b, c, d, e]
  {
  }
}
