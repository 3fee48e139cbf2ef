/** The part of Rust's `std::path` the program relies on, for Unix paths
    held as strings: `join`, `parent`, `file_name` and the components a
    path ends with. */
module Paths {
  import opened Wrappers
  import opened Strings

  /** `a.join(b)`: an absolute `b` replaces `a`; otherwise `b` is appended
      after a separator, which is not doubled and not added to an empty
      `a`. */
  function JoinPath(a: string, b: string): (r: string)
    ensures StartsWith(b, "/") ==> r == b
    ensures !StartsWith(b, "/") && a == "" ==> r == b
    ensures !StartsWith(b, "/") && a != "" ==> EndsWith(r, b) && StartsWith(r, a)
  {
    if StartsWith(b, "/") then b
    else if a == "" then b
    else if EndsWith(a, "/") then a + b
    else a + "/" + b
  }

  /** The path without its trailing separators (the root stays `/`). */
  function TrimEnd(p: string): (r: string)
    decreases |p|
    ensures StartsWith(p, r)
    ensures r == "/" || !EndsWith(r, "/")
  {
    if |p| >= 2 && p[|p| - 1] == '/' then
      assert StartsWith(p, p[..|p| - 1]);
      var r := TrimEnd(p[..|p| - 1]);
      assert p[..|r|] == p[..|p| - 1][..|r|];
      r
    else p
  }

  /** The components of a path: the pieces between separators, leaving out
      empty pieces and `.`. */
  function Components(p: string): (cs: seq<string>)
    ensures forall i :: 0 <= i < |cs| ==> cs[i] != "" && cs[i] != "." && '/' !in cs[i]
  {
    var pieces := Split(p, "/");
    PiecesHaveNoSlash(p);
    Normal(pieces)
  }

  lemma PiecesHaveNoSlash(p: string)
    ensures forall i :: 0 <= i < |Split(p, "/")| ==> '/' !in Split(p, "/")[i]
  {
    SplitPartsFree(p, "/");
    forall i | 0 <= i < |Split(p, "/")|
      ensures '/' !in Split(p, "/")[i]
    {
      if '/' in Split(p, "/")[i] {
        CharContained(Split(p, "/")[i], '/');
      }
    }
  }

  /** The pieces that are names, in order. */
  function Normal(pieces: seq<string>): (cs: seq<string>)
    ensures forall i :: 0 <= i < |cs| ==> cs[i] != "" && cs[i] != "." && cs[i] in pieces
  {
    if pieces == [] then []
    else if pieces[0] == "" || pieces[0] == "." then Normal(pieces[1..])
    else [pieces[0]] + Normal(pieces[1..])
  }

  /** `p.ends_with(c)` for a one-component `c`: the last component is `c`. */
  predicate EndsWithComponent(p: string, c: string) {
    var cs := Components(p);
    cs != [] && cs[|cs| - 1] == c
  }

  /** `p.file_name()`: the last component, unless the path ends in `..` or
      has no component. */
  function FileName(p: string): (r: Option<string>)
    ensures r.Some? ==> r.value != "" && r.value != ".." && '/' !in r.value
    ensures r.Some? ==> EndsWithComponent(p, r.value)
  {
    var cs := Components(p);
    if cs == [] || cs[|cs| - 1] == ".." then None else Some(cs[|cs| - 1])
  }

  /** `p.parent()`: the path without its last component; none for the root
      and for the empty path. */
  function Parent(p: string): (r: Option<string>)
    ensures r.None? <==> TrimEnd(p) == "/" || TrimEnd(p) == ""
  {
    var t := TrimEnd(p);
    if t == "/" || t == "" then None
    else
      match FindLast(t, '/')
      case None => Some("")
      case Some(i) => Some(if i == 0 then "/" else TrimEnd(t[..i]))
  }

  /** The index of the last `c` in `s`. */
  function FindLast(s: string, c: char): (r: Option<nat>)
    ensures r.Some? ==> r.value < |s| && s[r.value] == c && c !in s[r.value + 1..]
    ensures r.None? <==> c !in s
  {
    if s == [] then None
    else if s[|s| - 1] == c then Some(|s| - 1)
    else
      var r := FindLast(s[..|s| - 1], c);
      assert s == s[..|s| - 1] + [s[|s| - 1]];
      r
  }

  /** Joining a relative path onto a directory keeps the directory in
      front. */
  lemma JoinRelative(a: string, b: string)
    requires a != "" && !EndsWith(a, "/") && !StartsWith(b, "/")
    ensures JoinPath(a, b) == a + "/" + b
  {
  }
}
