/** The string operations the program takes from Rust's `str`: prefix and
    suffix tests, `find`, `split` on a string separator, `replace` and
    `matches(..).count()` (including their behaviour for an empty pattern),
    `trim_start_matches` on one character, the lexicographic order of
    `String`, and decimal formatting of integers. */
module Strings {
  import opened Wrappers

  predicate StartsWith(s: string, p: string) {
    |p| <= |s| && s[..|p|] == p
  }

  predicate EndsWith(s: string, p: string) {
    |p| <= |s| && s[|s| - |p|..] == p
  }

  /** `p` occurs in `s` starting at index `i`. */
  predicate OccursAt(s: string, p: string, i: nat) {
    i + |p| <= |s| && s[i..i + |p|] == p
  }

  predicate Contains(s: string, p: string) {
    exists i: nat | i <= |s| :: OccursAt(s, p, i)
  }

  /** Leftmost occurrence of `p` in `s` at or after `i` (Rust's `find`). */
  function FindFrom(s: string, p: string, i: nat): (r: Option<nat>)
    decreases |s| - i
    ensures r.Some? ==> i <= r.value && OccursAt(s, p, r.value)
    ensures r.Some? ==> forall j: nat :: i <= j < r.value ==> !OccursAt(s, p, j)
    ensures r.None? ==> forall j: nat :: i <= j ==> !OccursAt(s, p, j)
  {
    if i + |p| > |s| then None
    else if s[i..i + |p|] == p then Some(i)
    else FindFrom(s, p, i + 1)
  }

  function Find(s: string, p: string): (r: Option<nat>)
    ensures r.Some? ==> OccursAt(s, p, r.value) && forall j: nat :: j < r.value ==> !OccursAt(s, p, j)
    ensures r.None? <==> !Contains(s, p)
  {
    FindFrom(s, p, 0)
  }

  /** Rust's `s.split(sep)` for a non-empty separator: the pieces between
      the non-overlapping occurrences of `sep`, found left to right. */
  function Split(s: string, sep: string): (parts: seq<string>)
    requires sep != []
    ensures |parts| >= 1
    decreases |s|
  {
    match Find(s, sep)
    case None => [s]
    case Some(i) => [s[..i]] + Split(s[i + |sep|..], sep)
  }

  function Join(parts: seq<string>, sep: string): string
    decreases |parts|
  {
    if |parts| == 0 then []
    else if |parts| == 1 then parts[0]
    else parts[0] + sep + Join(parts[1..], sep)
  }

  lemma OccursInPrefix(s: string, p: string, i: nat, j: nat)
    requires i <= |s| && OccursAt(s[..i], p, j)
    ensures OccursAt(s, p, j) && j + |p| <= i
  {
    assert s[..i][j..j + |p|] == s[j..j + |p|];
  }

  lemma OccursInSuffix(s: string, p: string, i: nat, j: nat)
    requires i <= |s| && OccursAt(s[i..], p, j)
    ensures OccursAt(s, p, i + j)
  {
    assert s[i..][j..j + |p|] == s[i + j..i + j + |p|];
  }

  lemma JoinCons(a: string, rest: seq<string>, sep: string)
    requires |rest| >= 1
    ensures Join([a] + rest, sep) == a + sep + Join(rest, sep)
  {
    assert ([a] + rest)[1..] == rest;
  }

  lemma SplitAround(s: string, sep: string, i: nat)
    requires OccursAt(s, sep, i)
    ensures s == s[..i] + sep + s[i + |sep|..]
  {
    assert s == s[..i] + s[i..i + |sep|] + s[i + |sep|..];
  }

  /** The last piece of a join follows the last separator. */
  lemma {:induction false} JoinLast(parts: seq<string>, sep: string)
    requires |parts| >= 2
    ensures Join(parts, sep) == Join(parts[..|parts| - 1], sep) + sep + parts[|parts| - 1]
    decreases |parts|
  {
    if |parts| > 2 {
      JoinLast(parts[1..], sep);
      assert parts[1..][..|parts| - 2] == parts[..|parts| - 1][1..];
    }
  }

  /** A character of `s` is an occurrence of that one-character string. */
  lemma CharContained(s: string, c: char)
    requires c in s
    ensures Contains(s, [c])
  {
    var i :| 0 <= i < |s| && s[i] == c;
    assert OccursAt(s, [c], i);
  }

  /** Joining the pieces with the separator gives back the string. */
  lemma {:induction false} JoinSplit(s: string, sep: string)
    requires sep != []
    ensures Join(Split(s, sep), sep) == s
    decreases |s|
  {
    match Find(s, sep)
    case None =>
    case Some(i) =>
      var rest := s[i + |sep|..];
      JoinSplit(rest, sep);
      JoinCons(s[..i], Split(rest, sep), sep);
      SplitAround(s, sep, i);
  }

  /** No piece of a split contains the separator. */
  lemma {:induction false} SplitPartsFree(s: string, sep: string)
    requires sep != []
    ensures forall k :: 0 <= k < |Split(s, sep)| ==> !Contains(Split(s, sep)[k], sep)
    decreases |s|
  {
    match Find(s, sep)
    case None =>
    case Some(i) =>
      var rest := s[i + |sep|..];
      SplitPartsFree(rest, sep);
      var parts := Split(s, sep);
      assert parts == [s[..i]] + Split(rest, sep);
      if Contains(s[..i], sep) {
        var j: nat :| OccursAt(s[..i], sep, j);
        OccursInPrefix(s, sep, i, j);
        assert false;
      }
      forall k | 0 <= k < |parts|
        ensures !Contains(parts[k], sep)
      {
        if k > 0 {
          assert parts[k] == Split(rest, sep)[k - 1];
        }
      }
  }

  /** A split yields one piece exactly when the separator does not occur. */
  lemma SplitSingle(s: string, sep: string)
    requires sep != []
    ensures |Split(s, sep)| == 1 <==> !Contains(s, sep)
    ensures !Contains(s, sep) ==> Split(s, sep) == [s]
  {
  }

  /** A split yields exactly two pieces when the separator occurs and the
      text after its first occurrence does not contain it again. */
  lemma SplitTwo(s: string, sep: string)
    requires sep != []
    ensures |Split(s, sep)| == 2 <==>
      (Find(s, sep).Some? && !Contains(s[Find(s, sep).value + |sep|..], sep))
    ensures |Split(s, sep)| == 2 ==>
      var i := Find(s, sep).value;
      Split(s, sep) == [s[..i], s[i + |sep|..]]
  {
    match Find(s, sep)
    case None =>
    case Some(i) =>
      SplitSingle(s[i + |sep|..], sep);
  }

  /** Rust's `str::replace`: every non-overlapping occurrence of `k`, found
      left to right, becomes `v`; an empty `k` inserts `v` at every
      character boundary. */
  function Replace(s: string, k: string, v: string): string
    decreases |s|
  {
    if k == [] then (if s == [] then v else v + [s[0]] + Replace(s[1..], k, v))
    else if |s| < |k| then s
    else if s[..|k|] == k then v + Replace(s[|k|..], k, v)
    else [s[0]] + Replace(s[1..], k, v)
  }

  /** Text that cannot start a match is copied over. */
  lemma ReplaceHead(s: string, k: string, v: string)
    requires k != [] && s != [] && s[0] != k[0]
    ensures Replace(s, k, v) == [s[0]] + Replace(s[1..], k, v)
  {
    if |s| >= |k| {
      assert s[..|k|][0] != k[0];
    } else {
      assert s == [s[0]] + s[1..];
      ReplaceShort(s[1..], k, v);
    }
  }

  lemma ConcatAssoc(a: string, b: string, c: string)
    ensures a + (b + c) == (a + b) + c
  {
  }

  /** Where the key does not match, the first character is copied over. */
  lemma ReplaceSkip(s: string, k: string, v: string)
    requires k != [] && s != [] && (|s| >= |k| ==> s[..|k|] != k)
    ensures Replace(s, k, v) == [s[0]] + Replace(s[1..], k, v)
  {
    if |s| < |k| {
      ReplaceShort(s[1..], k, v);
      assert s == [s[0]] + s[1..];
    }
  }

  /** Where the key matches at neither of the first two characters, both
      are copied over. */
  lemma ReplaceSkipTwo(s: string, k: string, v: string)
    requires k != [] && |s| >= 2
    requires |s| >= |k| ==> s[..|k|] != k
    requires |s[1..]| >= |k| ==> s[1..][..|k|] != k
    ensures Replace(s, k, v) == s[..2] + Replace(s[2..], k, v)
  {
    ReplaceSkip(s, k, v);
    ReplaceSkip(s[1..], k, v);
    assert s[1..][1..] == s[2..];
    assert s[..2] == [s[0]] + [s[1..][0]];
  }

  /** Text none of whose characters starts the key is copied over. */
  lemma {:induction false} ReplaceAfterPlain(p: string, t: string, k: string, v: string)
    requires k != [] && k[0] !in p
    ensures Replace(p + t, k, v) == p + Replace(t, k, v)
    decreases |p|
  {
    if p != [] {
      ReplaceHead(p + t, k, v);
      assert (p + t)[1..] == p[1..] + t;
      ReplaceAfterPlain(p[1..], t, k, v);
      calc {
        Replace(p + t, k, v);
        [p[0]] + Replace(p[1..] + t, k, v);
        [p[0]] + (p[1..] + Replace(t, k, v));
        ([p[0]] + p[1..]) + Replace(t, k, v);
        { assert [p[0]] + p[1..] == p; }
        p + Replace(t, k, v);
      }
    } else {
      assert p + t == t && p + Replace(t, k, v) == Replace(t, k, v);
    }
  }

  /** A key at the start is rewritten. */
  lemma ReplaceAtStart(k: string, t: string, v: string)
    requires k != []
    ensures Replace(k + t, k, v) == v + Replace(t, k, v)
  {
    assert (k + t)[..|k|] == k && (k + t)[|k|..] == t;
  }

  lemma ReplaceShort(s: string, k: string, v: string)
    requires k != [] && |s| < |k|
    ensures Replace(s, k, v) == s
  {
  }

  /** One occurrence of the key between text that cannot start one is
      the only thing rewritten. */
  lemma ReplaceBetween(a: string, k: string, b: string, v: string)
    requires k != [] && k[0] !in a && k[0] !in b
    ensures Replace(a + k + b, k, v) == a + v + b
  {
    assert a + k + b == a + (k + b);
    ReplaceAfterPlain(a, k + b, k, v);
    ReplaceKeyFirst(k, b, v);
    assert a + (v + b) == a + v + b;
  }

  lemma ReplaceKeyFirst(k: string, b: string, v: string)
    requires k != [] && k[0] !in b
    ensures Replace(k + b, k, v) == v + b
  {
    ReplaceAtStart(k, b, v);
    ReplaceAfterPlain(b, [], k, v);
    assert b + [] == b;
  }

  /** Rust's `s.matches(k).count()`: the number of occurrences `Replace`
      rewrites (for an empty `k`, one per character boundary). */
  function CountMatches(s: string, k: string): nat
    decreases |s|
  {
    if k == [] then |s| + 1
    else if |s| < |k| then 0
    else if s[..|k|] == k then 1 + CountMatches(s[|k|..], k)
    else CountMatches(s[1..], k)
  }

  /** Each rewritten occurrence changes the length by `|v| - |k|`. */
  lemma {:induction false} ReplaceLength(s: string, k: string, v: string)
    ensures |Replace(s, k, v)| == |s| + CountMatches(s, k) * (|v| - |k|)
    decreases |s|
  {
    if k == [] {
      if s != [] {
        ReplaceLength(s[1..], k, v);
        LengthStep(|Replace(s, k, v)|, |Replace(s[1..], k, v)|, |s[1..]|, CountMatches(s[1..], k),
                   |v| + 1, |v| - |k|);
      }
    } else if |s| < |k| {
    } else if s[..|k|] == k {
      ReplaceLength(s[|k|..], k, v);
      LengthStep(|Replace(s, k, v)|, |Replace(s[|k|..], k, v)|, |s[|k|..]|, CountMatches(s[|k|..], k),
                 |v|, |v| - |k|);
    } else {
      ReplaceLength(s[1..], k, v);
    }
  }

  /** The arithmetic of one rewrite: `added` characters put in front of a
      rest of length `n` holding `c` occurrences that each change the
      length by `d`. */
  lemma LengthStep(total: int, rest: int, n: int, c: int, added: int, d: int)
    requires total == added + rest && rest == n + c * d
    ensures total == (n + added - d) + (c + 1) * d
  {
    MulSucc(c, d);
  }

  lemma MulSucc(a: int, b: int)
    ensures (a + 1) * b == a * b + b
  {
  }

  /** Nothing to rewrite leaves the text as it is. */
  lemma {:induction false} ReplaceNoMatch(s: string, k: string, v: string)
    requires CountMatches(s, k) == 0
    ensures Replace(s, k, v) == s
    decreases |s|
  {
    if |s| >= |k| && s[..|k|] != k {
      ReplaceNoMatch(s[1..], k, v);
    }
  }

  lemma OccursShift(s: string, p: string, j: nat)
    requires OccursAt(s, p, j) && j > 0
    ensures OccursAt(s[1..], p, j - 1)
  {
    assert s[1..][j - 1..j - 1 + |p|] == s[j..j + |p|];
  }

  /** No match is counted exactly when the key is non-empty and absent. */
  lemma {:induction false} CountZeroIffAbsent(s: string, k: string)
    ensures CountMatches(s, k) == 0 <==> (k != [] && !Contains(s, k))
    decreases |s|
  {
    if k == [] {
      assert OccursAt(s, k, 0);
    } else if |s| < |k| {
    } else if s[..|k|] == k {
      assert OccursAt(s, k, 0);
    } else {
      CountZeroIffAbsent(s[1..], k);
      if Contains(s, k) {
        var j: nat :| OccursAt(s, k, j);
        assert s[0..|k|] == s[..|k|];
        OccursShift(s, k, j);
      }
      if Contains(s[1..], k) {
        var j: nat :| OccursAt(s[1..], k, j);
        OccursInSuffix(s, k, 1, j);
      }
    }
  }

  /** Replacing a key by itself changes nothing. */
  lemma {:induction false} ReplaceSelf(s: string, k: string)
    ensures Replace(s, k, k) == s
    decreases |s|
  {
    if k == [] {
      if s != [] {
        ReplaceSelf(s[1..], k);
      }
    } else if |s| < |k| {
    } else if s[..|k|] == k {
      ReplaceSelf(s[|k|..], k);
      assert s == s[..|k|] + s[|k|..];
    } else {
      ReplaceSelf(s[1..], k);
      assert s == [s[0]] + s[1..];
    }
  }

  /** Replacing a character by text without that character removes it. */
  lemma {:induction false} ReplaceCharRemoves(s: string, c: char, v: string)
    requires c !in v
    ensures c !in Replace(s, [c], v)
    decreases |s|
  {
    if |s| >= 1 {
      ReplaceCharRemoves(s[1..], c, v);
      if s[..1] != [c] {
        assert s[0] != c;
      }
    }
  }

  /** Rust's `trim_start_matches(c)`: drop every leading `c`. */
  function TrimStart(s: string, c: char): (r: string)
    decreases |s|
    ensures |r| <= |s| && r == s[|s| - |r|..]
    ensures r == [] || r[0] != c
    ensures forall i :: 0 <= i < |s| - |r| ==> s[i] == c
  {
    if s != [] && s[0] == c then TrimStart(s[1..], c) else s
  }

  /** Lexicographic order on strings, which is the order of Rust's `String`
      (UTF-8 byte order agrees with code point order). */
  predicate StrLt(a: string, b: string)
    decreases |a|
  {
    if a == [] then b != []
    else b != [] && (a[0] < b[0] || (a[0] == b[0] && StrLt(a[1..], b[1..])))
  }

  lemma {:induction false} StrLtIrreflexive(a: string)
    ensures !StrLt(a, a)
    decreases |a|
  {
    if a != [] {
      StrLtIrreflexive(a[1..]);
    }
  }

  lemma {:induction false} StrLtTransitive(a: string, b: string, c: string)
    requires StrLt(a, b) && StrLt(b, c)
    ensures StrLt(a, c)
    decreases |a|
  {
    if a != [] && a[0] == b[0] && b[0] == c[0] {
      StrLtTransitive(a[1..], b[1..], c[1..]);
    }
  }

  lemma {:induction false} StrLtTotal(a: string, b: string)
    ensures a == b || StrLt(a, b) || StrLt(b, a)
    decreases |a|
  {
    if a != [] && b != [] && a[0] == b[0] {
      StrLtTotal(a[1..], b[1..]);
      if a[1..] == b[1..] {
        assert a == [a[0]] + a[1..] && b == [b[0]] + b[1..];
      }
    }
  }

  function DigitChar(d: nat): char
    requires d < 10
  {
    "0123456789"[d]
  }

  /** Decimal rendering of a natural number, as `format!("{}", n)`. */
  function NatToString(n: nat): (r: string)
    decreases n
    ensures |r| >= 1
    ensures forall i :: 0 <= i < |r| ==> '0' <= r[i] <= '9'
  {
    if n < 10 then [DigitChar(n)] else NatToString(n / 10) + [DigitChar(n % 10)]
  }

  function IntToString(i: int): string {
    if i < 0 then "-" + NatToString(-i) else NatToString(i)
  }
}
