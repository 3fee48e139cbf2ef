/** Git access: choosing the ref to fetch from an `ls-remote` listing, and
    the shallow clone. Listing the remote and running `git` are given as
    functions from their inputs to their outcome. */
module Git {
  import opened Wrappers
  import opened Strings
  import opened Data

  datatype RemoteInfo = RemoteInfo(revision: string, ref_: string)

  /** What a finished `git` process reports. */
  datatype ProcessOutput = ProcessOutput(success: bool, stderr: string)

  const HEAD: string := "HEAD"

  /** Index of the first ref whose name ends with `g`. */
  function FirstEndingWith(refs: seq<RemoteInfo>, g: string, from: nat): (r: Option<nat>)
    requires from <= |refs|
    decreases |refs| - from
    ensures r.Some? ==> from <= r.value < |refs| && EndsWith(refs[r.value].ref_, g)
    ensures r.Some? ==> forall j :: from <= j < r.value ==> !EndsWith(refs[j].ref_, g)
    ensures r.None? ==> forall j :: from <= j < |refs| ==> !EndsWith(refs[j].ref_, g)
  {
    if from == |refs| then None
    else if EndsWith(refs[from].ref_, g) then Some(from)
    else FirstEndingWith(refs, g, from + 1)
  }

  /** Index of the first entry named exactly `HEAD`. */
  function FirstHead(refs: seq<RemoteInfo>, from: nat): (r: Option<nat>)
    requires from <= |refs|
    decreases |refs| - from
    ensures r.Some? ==> from <= r.value < |refs| && refs[r.value].ref_ == HEAD
    ensures r.Some? ==> forall j :: from <= j < r.value ==> refs[j].ref_ != HEAD
    ensures r.None? ==> forall j :: from <= j < |refs| ==> refs[j].ref_ != HEAD
  {
    if from == |refs| then None
    else if refs[from].ref_ == HEAD then Some(from)
    else FirstHead(refs, from + 1)
  }

  /** Index of the first entry other than `HEAD` at revision `rev`. */
  function FirstBranchAt(refs: seq<RemoteInfo>, rev: string, from: nat): (r: Option<nat>)
    requires from <= |refs|
    decreases |refs| - from
    ensures r.Some? ==> from <= r.value < |refs| && refs[r.value].ref_ != HEAD && refs[r.value].revision == rev
    ensures r.Some? ==> forall j :: from <= j < r.value ==> !(refs[j].ref_ != HEAD && refs[j].revision == rev)
    ensures r.None? ==> forall j :: from <= j < |refs| ==> !(refs[j].ref_ != HEAD && refs[j].revision == rev)
  {
    if from == |refs| then None
    else if refs[from].ref_ != HEAD && refs[from].revision == rev then Some(from)
    else FirstBranchAt(refs, rev, from + 1)
  }

  /** `h` is the first `HEAD` entry of the listing. */
  predicate IsFirstHead(refs: seq<RemoteInfo>, h: nat) {
    h < |refs| && refs[h].ref_ == HEAD && forall j :: 0 <= j < h ==> refs[j].ref_ != HEAD
  }

  /** `i` is the first branch entry (not `HEAD`) at revision `rev`. */
  predicate IsFirstBranchAt(refs: seq<RemoteInfo>, rev: string, i: nat) {
    i < |refs| && refs[i].ref_ != HEAD && refs[i].revision == rev &&
    forall j :: 0 <= j < i ==> !(refs[j].ref_ != HEAD && refs[j].revision == rev)
  }

  /** The first `HEAD` entry found is the only one that is first. */
  lemma FirstHeadUnique(refs: seq<RemoteInfo>, h: nat)
    requires FirstHead(refs, 0) == Some(h)
    ensures IsFirstHead(refs, h)
    ensures forall k :: IsFirstHead(refs, k) ==> k == h
  {
  }

  /** The ref a location asks for, chosen from a listing: with an explicit
      ref, the first entry whose name ends with it; without one, the first
      branch that shares the revision of `HEAD`. */
  function SelectRef(refs: seq<RemoteInfo>, gref: Option<string>): (r: Result<RemoteInfo>)
    ensures r.Ok? ==> r.value in refs
    ensures gref.Some? ==>
      (r.Ok? <==> exists i :: 0 <= i < |refs| && EndsWith(refs[i].ref_, gref.value))
    ensures gref.Some? && r.Ok? ==>
      exists i :: 0 <= i < |refs| && refs[i] == r.value && EndsWith(r.value.ref_, gref.value) &&
        forall j :: 0 <= j < i ==> !EndsWith(refs[j].ref_, gref.value)
    ensures gref.Some? && r.Err? ==> r.msg == "no such ref found: " + gref.value
    ensures gref.None? && (forall i :: 0 <= i < |refs| ==> refs[i].ref_ != HEAD) ==>
      r == Err("no HEAD ref found")
    ensures gref.None? && r.Ok? ==>
      exists h, i :: 0 <= h < |refs| && 0 <= i < |refs| && IsFirstHead(refs, h) &&
        refs[i] == r.value && IsFirstBranchAt(refs, refs[h].revision, i)
    ensures gref.None? && (exists h :: 0 <= h < |refs| && refs[h].ref_ == HEAD) ==>
      forall h :: 0 <= h < |refs| && IsFirstHead(refs, h) ==>
        (r.Ok? <==> exists i :: 0 <= i < |refs| && refs[i].ref_ != HEAD && refs[i].revision == refs[h].revision) &&
        (r.Err? ==> r.msg == "no default branch found")
  {
    match gref
    case Some(g) =>
      (match FirstEndingWith(refs, g, 0)
       case Some(i) => Ok(refs[i])
       case None => Err("no such ref found: " + g))
    case None =>
      match FirstHead(refs, 0)
      case None => Err("no HEAD ref found")
      case Some(h) =>
        FirstHeadUnique(refs, h);
        match FirstBranchAt(refs, refs[h].revision, 0)
        case Some(i) => Ok(refs[i])
        case None => Err("no default branch found")
  }

  /** `get_ref_or_default`: list the remote (over ssh for a git location,
      otherwise over its web address) and select the ref. */
  function GetRefOrDefault(lsRemote: string -> Result<seq<RemoteInfo>>, loc: Location): (r: Result<RemoteInfo>)
    ensures var listing := lsRemote(if loc.isGit then loc.GitUrl() else loc.WebUrl());
      (listing.Err? ==> r == Err(listing.msg)) &&
      (listing.Ok? ==> r == SelectRef(listing.value, loc.gref))
  {
    var refs :- lsRemote(if loc.isGit then loc.GitUrl() else loc.WebUrl());
    SelectRef(refs, loc.gref)
  }

  /** Without an explicit ref, a listing whose `HEAD` shares a revision with
      some branch yields a branch. */
  lemma DefaultBranchFound(refs: seq<RemoteInfo>, h: nat, b: nat)
    requires h < |refs| && b < |refs|
    requires refs[h].ref_ == HEAD && forall j :: 0 <= j < h ==> refs[j].ref_ != HEAD
    requires refs[b].ref_ != HEAD && refs[b].revision == refs[h].revision
    ensures SelectRef(refs, None).Ok?
  {
    assert FirstHead(refs, 0) == Some(h);
  }

  /** A listing shaped like the one of a repository with a tag and a
      second branch. */
  function SampleRefs(): seq<RemoteInfo> {
    [RemoteInfo("a1", "HEAD"), RemoteInfo("a1", "refs/heads/master"),
     RemoteInfo("b2", "refs/heads/gh-pages"), RemoteInfo("c3", "refs/tags/v6.2.0")]
  }

  /** The suffix match finds a tag by its short name. */
  lemma TagBySuffix()
    ensures SelectRef(SampleRefs(), Some("v6.2.0")) == Ok(RemoteInfo("c3", "refs/tags/v6.2.0"))
  {
    var refs := SampleRefs();
    var g := "v6.2.0";
    assert |refs[0].ref_| < |g|;
    assert refs[1].ref_[|refs[1].ref_| - |g|..][0] != g[0];
    assert refs[2].ref_[|refs[2].ref_| - |g|..][0] != g[0];
    assert refs[3].ref_[|refs[3].ref_| - |g|..] == g;
    assert FirstEndingWith(refs, g, 0) == Some(3);
  }

  /** The suffix match finds a branch by its short name. */
  lemma BranchBySuffix()
    ensures SelectRef(SampleRefs(), Some("gh-pages")) == Ok(RemoteInfo("b2", "refs/heads/gh-pages"))
  {
    var refs := SampleRefs();
    var g := "gh-pages";
    assert |refs[0].ref_| < |g|;
    assert refs[1].ref_[|refs[1].ref_| - |g|..][0] != g[0];
    assert refs[2].ref_[|refs[2].ref_| - |g|..] == g;
    assert FirstEndingWith(refs, g, 0) == Some(2);
  }

  /** Without a ref, the branch sharing `HEAD`'s revision is chosen. */
  lemma DefaultBySharedRevision()
    ensures SelectRef(SampleRefs(), None) == Ok(RemoteInfo("a1", "refs/heads/master"))
  {
    var refs := SampleRefs();
    assert FirstHead(refs, 0) == Some(0);
    assert refs[1].ref_ != HEAD;
    assert FirstBranchAt(refs, "a1", 0) == Some(1);
  }

  /** The arguments of the shallow clone: `clone --depth=1`, then `-b ref`
      when a ref is named, then the ssh address and the target. */
  predicate IsCloneArgs(args: seq<string>, gref: Option<string>, giturl: string, out: string) {
    var n := if gref.Some? then 6 else 4;
    |args| == n &&
    args[0] == "clone" && args[1] == "--depth=1" &&
    (gref.Some? ==> args[2] == "-b" && args[3] == gref.value) &&
    args[n - 2] == giturl && args[n - 1] == out
  }

  /** The argument vector, built by pushing its arguments one by one onto
      an empty vector. */
  method CloneArgs(gref: Option<string>, giturl: string, out: string) returns (args: seq<string>)
    ensures IsCloneArgs(args, gref, giturl, out)
  {
    args := ["clone", "--depth=1"];
    if gref.Some? {
      args := args + ["-b"];
      args := args + [gref.value];
    }
    args := args + [giturl];
    args := args + [out];
  }

  /** Only one argument vector fits the description. */
  lemma CloneArgsUnique(a: seq<string>, b: seq<string>, gref: Option<string>, giturl: string, out: string)
    requires IsCloneArgs(a, gref, giturl, out) && IsCloneArgs(b, gref, giturl, out)
    ensures a == b
  {
    assert forall i :: 0 <= i < |a| ==> a[i] == b[i];
  }

  /** How a clone attempt ends: a process that cannot start, or one that
      exits unsuccessfully, is an error naming the address. */
  function CloneOutcome(run: Result<ProcessOutput>, giturl: string): (r: Result<()>)
    ensures r.Ok? <==> run.Ok? && run.value.success
    ensures run.Err? ==> r.msg == "git handling failed"
    ensures run.Ok? && !run.value.success ==>
      StartsWith(r.msg, "cannot clone: " + giturl) && EndsWith(r.msg, run.value.stderr)
  {
    match run
    case Err(_) => Err("git handling failed")
    case Ok(output) =>
      if !output.success then
        var msg := "cannot clone: " + giturl + "\n---\n" + output.stderr;
        assert msg[..|"cannot clone: " + giturl|] == "cannot clone: " + giturl;
        assert msg[|msg| - |output.stderr|..] == output.stderr;
        Err(msg)
      else Ok(())
  }

  /** `shallow_clone`: run `git` with the clone arguments. */
  method ShallowClone(git: seq<string> -> Result<ProcessOutput>, loc: Location, out: string)
    returns (r: Result<()>)
    ensures forall args :: IsCloneArgs(args, loc.gref, loc.GitUrl(), out) ==>
      r == CloneOutcome(git(args), loc.GitUrl())
  {
    var args := CloneArgs(loc.gref, loc.GitUrl(), out);
    r := CloneOutcome(git(args), loc.GitUrl());
    forall other | IsCloneArgs(other, loc.gref, loc.GitUrl(), out)
      ensures other == args
    {
      CloneArgsUnique(other, args, loc.gref, loc.GitUrl(), out);
    }
  }
}
