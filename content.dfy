/** Deploying fetched content: where it is copied from and to, the copy
    itself (one file, or a walk over a folder that skips `.git` and the
    project's own settings file and asks before overwriting), and the
    actions run before and after copying. The folder listing is given as
    the relative paths a walk visits, in walk order. */
module Content {
  import opened Wrappers
  import opened Strings
  import opened SortedMaps
  import opened Data
  import opened Paths
  import opened Files
  import opened Templates
  import opened Actions
  import opened Answers
  import opened Configuration
  import opened Ui

  datatype Coordinate = Coordinate(from: string, to: string, isFile: bool, removeFrom: bool)

  function NoFileName(from: string): string {
    "cannot get file name for \"" + from + "\""
  }

  /** Where the content comes from: the fetched folder, or the location's
      subfolder inside it. */
  function FromPath(source: string, loc: Location): string {
    if loc.subfolder.Some? then JoinPath(source, loc.subfolder.value) else source
  }

  /** `Coordinate::new`. A single file goes into a given destination under
      its own name, or without one to the location's subfolder path (else
      its own name); a folder goes to the given destination, or the
      subfolder path, or the current folder. A file path without a name is
      an error whether or not it is needed. */
  function NewCoordinate(source: string, dest: Option<string>, loc: Location, remove: bool,
                         files: map<string, string>): (r: Result<Coordinate>)
    ensures var from := FromPath(source, loc);
      (r.Err? <==> from in files && FileName(from).None?) &&
      (r.Err? ==> r.msg == NoFileName(from)) &&
      (r.Ok? ==> r.value.from == from && r.value.isFile == (from in files) && r.value.removeFrom == remove)
    ensures r.Ok? && r.value.isFile && dest.Some? ==>
      r.value.to == JoinPath(dest.value, FileName(r.value.from).value)
    ensures r.Ok? && !r.value.isFile ==> r.value.to == dest.GetOr(loc.subfolder.GetOr("."))
    ensures r.Ok? && r.value.isFile && dest.None? ==>
      r.value.to == loc.subfolder.GetOr(FileName(r.value.from).value)
  {
    var from := FromPath(source, loc);
    var isFile := from in files;
    if isFile && FileName(from).None? then Err(NoFileName(from))
    else
      var to :=
        if dest.Some? then (if isFile then JoinPath(dest.value, FileName(from).value) else dest.value)
        else if isFile then loc.subfolder.GetOr(FileName(from).value)
        else loc.subfolder.GetOr(".");
      Ok(Coordinate(from, to, isFile, remove))
  }

  /** A folder with no destination and no subfolder is deployed into the
      current folder. */
  lemma WholeRepositoryHere(source: string, loc: Location, remove: bool, files: map<string, string>)
    requires loc.subfolder.None? && source !in files
    ensures NewCoordinate(source, None, loc, remove, files) == Ok(Coordinate(source, ".", false, remove))
  {
  }

  /** A single file picked by a subfolder, with no destination, lands at
      the same relative path (`tools/ci/bar.yaml` for a location ending in
      `/-/tools/ci/bar.yaml`). */
  lemma SubfolderFileKeepsItsPath(source: string, loc: Location, remove: bool, files: map<string, string>)
    requires loc.subfolder.Some?
    requires JoinPath(source, loc.subfolder.value) in files
    requires FileName(JoinPath(source, loc.subfolder.value)).Some?
    ensures NewCoordinate(source, None, loc, remove, files).Ok?
    ensures NewCoordinate(source, None, loc, remove, files).value.to == loc.subfolder.value
  {
  }

  /** A file's destination folder names only what it is inside of: a
      given destination keeps its name at its end. */
  lemma FileKeepsItsName(source: string, d: string, loc: Location, remove: bool, files: map<string, string>)
    requires FromPath(source, loc) in files && FileName(FromPath(source, loc)).Some? && d != ""
    ensures var r := NewCoordinate(source, Some(d), loc, remove, files);
      r.Ok? && StartsWith(r.value.to, d) && EndsWith(r.value.to, FileName(FromPath(source, loc)).value)
  {
    var n := FileName(FromPath(source, loc)).value;
    assert n[0] in n;
    assert !StartsWith(n, "/");
  }

  /** The names a walk never enters nor copies. */
  const DONT_COPY: seq<string> := [".git", ".backpack-project.yml"]

  predicate Ignored(name: string) {
    name in DONT_COPY
  }

  /** A path whose last component is an ignored name. */
  predicate EndsIgnored(p: string) {
    var cs := Components(p);
    cs != [] && Ignored(cs[|cs| - 1])
  }

  /** The walk skips an entry when the folder walked ends in an ignored
      name, or when the entry or a folder above it inside the walked folder
      has one: an ignored folder is not entered. */
  predicate Pruned(source: string, rel: string) {
    EndsIgnored(source) || exists i :: 0 <= i < |Components(rel)| && Ignored(Components(rel)[i])
  }

  /** What the walk copies with: the swapper, the folders, the overwrite
      policy, the entries visited and the given tests. */
  datatype WalkEnv = WalkEnv(
    sw: Swapper,
    source: string,
    dest: string,
    overwrite: Overwrite,
    walk: seq<string>,
    isMatch: RegexMatcher,
    isText: TextDetector)

  /** The outcome of a copy, the files afterwards and the answers left. */
  datatype Walk = Walk(result: Result<seq<CopyResult>>, files: map<string, string>, answers: seq<Result<Answer>>)

  /** Whether an existing destination is overwritten: always, after a yes
      (a failed question counts as no), or never. */
  function Decide(overwrite: Overwrite, answers: seq<Result<Answer>>): (r: (bool, seq<Result<Answer>>))
    ensures !overwrite.Ask? ==> r == (overwrite.Always?, answers)
    ensures overwrite.Ask? ==> r.1 == Confirmed(answers).1 && (r.0 <==> Confirmed(answers).0 == Ok(true))
  {
    if overwrite.Always? then (true, answers)
    else if overwrite.Ask? then
      var (c, rest) := Confirmed(answers);
      (c == Ok(true), rest)
    else (false, answers)
  }

  /** The walk from its `i`-th entry on, having copied `copied`: each file
      that is not pruned goes to the same relative path under the
      destination, unless its rewritten path exists and may not be
      overwritten; the first failed copy ends the walk. */
  function WalkFrom(env: WalkEnv, files: map<string, string>, answers: seq<Result<Answer>>,
                    i: nat, copied: seq<CopyResult>): (w: Walk)
    requires i <= |env.walk|
    ensures files.Keys <= w.files.Keys
    ensures w.result.Ok? ==> copied <= w.result.value && |w.result.value| <= |copied| + |env.walk| - i
    decreases |env.walk| - i
  {
    if i == |env.walk| then Walk(Ok(copied), files, answers)
    else
      var rel := env.walk[i];
      var path := JoinPath(env.source, rel);
      if Pruned(env.source, rel) || path !in files then WalkFrom(env, files, answers, i + 1, copied)
      else
        var to := JoinPath(env.dest, rel);
        var (should, rest) :=
          if env.sw.Swapped(to, env.isMatch) in files then Decide(env.overwrite, answers) else (true, answers);
        if !should then WalkFrom(env, files, rest, i + 1, copied)
        else
          var c := CopyToSpec(env.sw, files, path, to, env.isMatch, env.isText);
          match c.result
          case Err(e) => Walk(Err(e), c.files, rest)
          case Ok(cr) => WalkFrom(env, c.files, rest, i + 1, copied + [cr])
  }

  /** `copy`: a single file is copied as it is asked, without checking its
      destination; a folder is walked. */
  function CopySpec(env: WalkEnv, isFile: bool, files: map<string, string>, answers: seq<Result<Answer>>): Walk
    requires isFile ==> env.source in files
  {
    if isFile then
      var c := CopyToSpec(env.sw, files, env.source, env.dest, env.isMatch, env.isText);
      Walk(if c.result.Err? then Err(c.result.msg) else Ok([c.result.value]), c.files, answers)
    else WalkFrom(env, files, answers, 0, [])
  }

  /** The walk only adds and rewrites files; its results are the copies
      made, in walk order, after those already made, at most one per entry,
      each now present. */
  lemma {:induction false} WalkFacts(env: WalkEnv, files: map<string, string>, answers: seq<Result<Answer>>,
                                     i: nat, copied: seq<CopyResult>)
    requires i <= |env.walk|
    requires forall j :: 0 <= j < |copied| ==> copied[j].dest in files
    ensures var w := WalkFrom(env, files, answers, i, copied);
      files.Keys <= w.files.Keys &&
      (w.result.Ok? ==>
        copied <= w.result.value && |w.result.value| <= |copied| + |env.walk| - i &&
        forall j :: 0 <= j < |w.result.value| ==> w.result.value[j].dest in w.files)
    decreases |env.walk| - i
  {
    if i < |env.walk| {
      var rel := env.walk[i];
      var path := JoinPath(env.source, rel);
      if Pruned(env.source, rel) || path !in files {
        WalkFacts(env, files, answers, i + 1, copied);
      } else {
        var to := JoinPath(env.dest, rel);
        var (should, rest) :=
          if env.sw.Swapped(to, env.isMatch) in files then Decide(env.overwrite, answers) else (true, answers);
        if !should {
          WalkFacts(env, files, rest, i + 1, copied);
        } else {
          var c := CopyToSpec(env.sw, files, path, to, env.isMatch, env.isText);
          if c.result.Ok? {
            WalkFacts(env, c.files, rest, i + 1, copied + [c.result.value]);
          }
        }
      }
    }
  }

  /** The paths a walk from entry `i` may write, in walk order: the
      rewritten destination of every entry that is not pruned. */
  function Targets(env: WalkEnv, i: nat): (t: seq<string>)
    requires i <= |env.walk|
    ensures |t| <= |env.walk| - i
    decreases |env.walk| - i
  {
    if i == |env.walk| then []
    else
      var rel := env.walk[i];
      (if Pruned(env.source, rel) then [] else [env.sw.Swapped(JoinPath(env.dest, rel), env.isMatch)])
        + Targets(env, i + 1)
  }

  /** The destinations of some copies. */
  function Dests(cs: seq<CopyResult>): seq<string> {
    seq(|cs|, k requires 0 <= k < |cs| => cs[k].dest)
  }

  /** `a` is `b` with some of its elements left out. */
  predicate SubSeq(a: seq<string>, b: seq<string>)
    decreases |b|
  {
    |a| == 0 || (|b| > 0 && ((a[0] == b[0] && SubSeq(a[1..], b[1..])) || SubSeq(a, b[1..])))
  }

  lemma {:induction false} SubSeqPrepend(a: seq<string>, p: seq<string>, b: seq<string>)
    requires SubSeq(a, b)
    ensures SubSeq(a, p + b)
    decreases |p|
  {
    if |p| > 0 {
      assert (p + b)[1..] == p[1..] + b;
      SubSeqPrepend(a, p[1..], b);
    } else {
      assert p + b == b;
    }
  }

  /** What a walk copies: the destinations of its new results are the
      rewritten destinations of listed entries that are not pruned, in walk
      order, each at most once; so nothing under an ignored name is ever
      copied. */
  lemma {:induction false} WalkCopiesTargets(env: WalkEnv, files: map<string, string>,
                                             answers: seq<Result<Answer>>, i: nat, copied: seq<CopyResult>)
    requires i <= |env.walk|
    ensures var w := WalkFrom(env, files, answers, i, copied);
      w.result.Ok? ==> SubSeq(Dests(w.result.value[|copied|..]), Targets(env, i))
    decreases |env.walk| - i, 1
  {
    var w := WalkFrom(env, files, answers, i, copied);
    if i == |env.walk| {
      if w.result.Ok? {
        assert Dests(w.result.value[|copied|..]) == [];
      }
    } else if Pruned(env.source, env.walk[i]) || JoinPath(env.source, env.walk[i]) !in files {
      WalkSkipsEntry(env, files, answers, i, copied);
      WalkCopiesTargets(env, files, answers, i + 1, copied);
      var t: seq<string> :=
        if Pruned(env.source, env.walk[i]) then [] else [env.sw.Swapped(JoinPath(env.dest, env.walk[i]), env.isMatch)];
      assert Targets(env, i) == t + Targets(env, i + 1);
      if w.result.Ok? {
        SubSeqPrepend(Dests(w.result.value[|copied|..]), t, Targets(env, i + 1));
      }
    } else {
      EntryTargets(env, files, answers, i, copied);
    }
  }

  /** The step of `WalkCopiesTargets` for an entry the walk considers. */
  lemma {:induction false} EntryTargets(env: WalkEnv, files: map<string, string>,
                                        answers: seq<Result<Answer>>, i: nat, copied: seq<CopyResult>)
    requires i < |env.walk|
    requires !Pruned(env.source, env.walk[i]) && JoinPath(env.source, env.walk[i]) in files
    ensures var w := WalkFrom(env, files, answers, i, copied);
      w.result.Ok? ==> SubSeq(Dests(w.result.value[|copied|..]), Targets(env, i))
    decreases |env.walk| - i, 0
  {
    var w := WalkFrom(env, files, answers, i, copied);
    var rel := env.walk[i];
    var path := JoinPath(env.source, rel);
    var to := JoinPath(env.dest, rel);
    var target := env.sw.Swapped(to, env.isMatch);
    assert Targets(env, i) == [target] + Targets(env, i + 1);
    WalkEntry(env, files, answers, i, copied);
    var present := target in files;
    var asked := present && env.overwrite.Ask?;
    var rest := if asked then Confirmed(answers).1 else answers;
    if !(!present || env.overwrite.Always? || (asked && Confirmed(answers).0 == Ok(true))) {
      WalkCopiesTargets(env, files, rest, i + 1, copied);
      if w.result.Ok? {
        SubSeqPrepend(Dests(w.result.value[|copied|..]), [target], Targets(env, i + 1));
      }
    } else {
      var c := CopyToSpec(env.sw, files, path, to, env.isMatch, env.isText);
      if c.result.Ok? {
        WalkCopiesTargets(env, c.files, rest, i + 1, copied + [c.result.value]);
        if w.result.Ok? {
          DestsStep(w.result.value, copied, c.result.value, Targets(env, i + 1));
        }
      }
    }
  }

  lemma DestsStep(r: seq<CopyResult>, copied: seq<CopyResult>, cr: CopyResult, later: seq<string>)
    requires copied + [cr] <= r
    requires SubSeq(Dests(r[|copied| + 1..]), later)
    ensures SubSeq(Dests(r[|copied|..]), [cr.dest] + later)
  {
    assert r[|copied|] == (copied + [cr])[|copied|] == cr;
    var d := Dests(r[|copied|..]);
    assert d[1..] == Dests(r[|copied| + 1..]);
    assert ([cr.dest] + later)[1..] == later;
  }

  /** An entry that is pruned (it or a folder above it has an ignored
      name, or the walked folder does), or whose file is gone, is passed
      over: nothing is asked, written or reported for it. */
  lemma WalkSkipsEntry(env: WalkEnv, files: map<string, string>, answers: seq<Result<Answer>>,
                       i: nat, copied: seq<CopyResult>)
    requires i < |env.walk|
    requires Pruned(env.source, env.walk[i]) || JoinPath(env.source, env.walk[i]) !in files
    ensures WalkFrom(env, files, answers, i, copied) == WalkFrom(env, files, answers, i + 1, copied)
  {
  }

  /** A listed file that is not pruned is copied exactly when its rewritten
      destination is absent, the policy is to always overwrite, or the
      policy is to ask and the answer is yes (a failed question counts as
      no); a question is consumed only when one is asked. A copy that fails
      ends the walk with its error; one that succeeds is the walk's next
      result. */
  lemma WalkEntry(env: WalkEnv, files: map<string, string>, answers: seq<Result<Answer>>,
                  i: nat, copied: seq<CopyResult>)
    requires i < |env.walk|
    requires !Pruned(env.source, env.walk[i]) && JoinPath(env.source, env.walk[i]) in files
    ensures var path := JoinPath(env.source, env.walk[i]);
      var to := JoinPath(env.dest, env.walk[i]);
      var present := env.sw.Swapped(to, env.isMatch) in files;
      var asked := present && env.overwrite.Ask?;
      var rest := if asked then Confirmed(answers).1 else answers;
      var copies := !present || env.overwrite.Always? || (asked && Confirmed(answers).0 == Ok(true));
      var w := WalkFrom(env, files, answers, i, copied);
      var c := CopyToSpec(env.sw, files, path, to, env.isMatch, env.isText);
      (!copies ==> w == WalkFrom(env, files, rest, i + 1, copied)) &&
      (copies && c.result.Err? ==> w == Walk(Err(c.result.msg), c.files, rest)) &&
      (copies && c.result.Ok? ==> w == WalkFrom(env, c.files, rest, i + 1, copied + [c.result.value])) &&
      (copies && w.result.Ok? ==>
        |copied| < |w.result.value| && w.result.value[|copied|] == c.result.value &&
        w.result.value[|copied|].dest == env.sw.Swapped(to, env.isMatch))
  {
  }

  /** Without permission to overwrite, no existing file changes and nothing
      is asked. */
  lemma {:induction false} NeverOverwrites(env: WalkEnv, files: map<string, string>,
                                           answers: seq<Result<Answer>>, i: nat, copied: seq<CopyResult>)
    requires i <= |env.walk| && !env.overwrite.Always? && !env.overwrite.Ask?
    ensures var w := WalkFrom(env, files, answers, i, copied);
      w.answers == answers && forall k :: k in files ==> k in w.files && w.files[k] == files[k]
    decreases |env.walk| - i
  {
    if i < |env.walk| {
      var rel := env.walk[i];
      var path := JoinPath(env.source, rel);
      if Pruned(env.source, rel) || path !in files {
        NeverOverwrites(env, files, answers, i + 1, copied);
      } else {
        var to := JoinPath(env.dest, rel);
        if env.sw.Swapped(to, env.isMatch) in files {
          NeverOverwrites(env, files, answers, i + 1, copied);
        } else {
          var c := CopyToSpec(env.sw, files, path, to, env.isMatch, env.isText);
          if c.result.Ok? {
            NeverOverwrites(env, c.files, answers, i + 1, copied + [c.result.value]);
          }
        }
      }
    }
  }

  /** When overwriting is always allowed nothing is asked. */
  lemma {:induction false} AlwaysAsksNothing(env: WalkEnv, files: map<string, string>,
                                             answers: seq<Result<Answer>>, i: nat, copied: seq<CopyResult>)
    requires i <= |env.walk| && env.overwrite.Always?
    ensures WalkFrom(env, files, answers, i, copied).answers == answers
    decreases |env.walk| - i
  {
    if i < |env.walk| {
      var rel := env.walk[i];
      var path := JoinPath(env.source, rel);
      if Pruned(env.source, rel) || path !in files {
        AlwaysAsksNothing(env, files, answers, i + 1, copied);
      } else {
        var to := JoinPath(env.dest, rel);
        var c := CopyToSpec(env.sw, files, path, to, env.isMatch, env.isText);
        if c.result.Ok? {
          AlwaysAsksNothing(env, c.files, answers, i + 1, copied + [c.result.value]);
        }
      }
    }
  }

  /** Walking a folder that is itself ignored (a `.git` folder) copies
      nothing. */
  lemma {:induction false} IgnoredFolderCopiesNothing(env: WalkEnv, files: map<string, string>,
                                                      answers: seq<Result<Answer>>, i: nat, copied: seq<CopyResult>)
    requires i <= |env.walk| && EndsIgnored(env.source)
    ensures WalkFrom(env, files, answers, i, copied) == Walk(Ok(copied), files, answers)
    decreases |env.walk| - i
  {
    if i < |env.walk| {
      assert Pruned(env.source, env.walk[i]);
      WalkSkipsEntry(env, files, answers, i, copied);
      IgnoredFolderCopiesNothing(env, files, answers, i + 1, copied);
    }
  }

  /** A single file is copied over an existing destination without asking,
      whatever the overwrite policy. */
  lemma SingleFileIgnoresPolicy(env: WalkEnv, files: map<string, string>, answers: seq<Result<Answer>>)
    requires env.source in files
    ensures var w := CopySpec(env, true, files, answers);
      w.answers == answers &&
      (Parent(env.sw.Swapped(env.dest, env.isMatch)).Some? ==>
        w.result.Ok? && |w.result.value| == 1 && w.result.value[0].dest == env.sw.Swapped(env.dest, env.isMatch))
  {
  }

  /** Where actions run: the folder a single file went to (the current
      folder when it has none), or the destination folder. */
  function ActionsDest(coord: Coordinate): (r: string)
    ensures !coord.isFile ==> r == coord.to
    ensures coord.isFile && Parent(coord.to).None? ==> r == "."
    ensures coord.isFile && Parent(coord.to).Some? ==> r == Parent(coord.to).value
  {
    if coord.isFile then Parent(coord.to).GetOr(".") else coord.to
  }

  datatype Hook = Before | After

  /** The actions for one hook, in their order. */
  function Hooked(actions: seq<Action>, hook: Hook, hookOf: Action -> Hook): (r: seq<Action>)
    ensures |r| <= |actions|
    ensures forall a :: a in r <==> a in actions && hookOf(a) == hook
  {
    if actions == [] then []
    else (if hookOf(actions[0]) == hook then [actions[0]] else []) + Hooked(actions[1..], hook, hookOf)
  }

  /** Filtering by hook keeps the order: the actions of a concatenation
      are those of each part, one after the other. */
  lemma {:induction false} HookedAppend(a: seq<Action>, b: seq<Action>, hook: Hook, hookOf: Action -> Hook)
    ensures Hooked(a + b, hook, hookOf) == Hooked(a, hook, hookOf) + Hooked(b, hook, hookOf)
    decreases |a|
  {
    if a != [] {
      assert (a + b)[1..] == a[1..] + b;
      HookedAppend(a[1..], b, hook, hookOf);
    } else {
      assert a + b == b;
    }
  }

  /** A single action runs in its own hook and in no other. */
  lemma HookedSingle(x: Action, hook: Hook, hookOf: Action -> Hook)
    ensures Hooked([x], hook, hookOf) == if hookOf(x) == hook then [x] else []
  {
  }

  /** The outcome of a deployment: the copies and the after-actions'
      results, the variables, the files and the two answer streams left. */
  datatype Deployed = Deployed(
    result: Result<(seq<CopyResult>, Option<seq<ActionResult>>)>,
    vars: VarBag,
    files: map<string, string>,
    runnerAnswers: seq<Result<Answer>>,
    promptAnswers: seq<Result<Answer>>)

  /** The tests and the outside world a deployment depends on. */
  datatype DeployEnv = DeployEnv(
    walk: seq<string>,
    hookOf: Action -> Hook,
    runScript: ScriptRunner,
    render: Renderer,
    isMatch: RegexMatcher,
    isText: TextDetector)

  /** `deploy`: the before-actions, the swapper made with the variables as
      they now are, the copy (overwriting without asking when asked to), and
      the after-actions; each step's error ends the deployment. */
  function DeploySpec(coord: Coordinate, setup: Option<ProjectSetupActions>, vars: VarBag, overwriteAll: bool,
                      de: DeployEnv, files: map<string, string>, runnerAnswers: seq<Result<Answer>>,
                      promptAnswers: seq<Result<Answer>>): Deployed
    requires coord.isFile ==> coord.from in files
  {
    var workdir := Some(ActionsDest(coord));
    var actions := if setup.Some? then setup.value.actions else None;
    var swaps := if setup.Some? then setup.value.swaps else None;
    var before :=
      if actions.None? then RunOutcome(Ok([]), vars, runnerAnswers)
      else RunFrom(Hooked(actions.value, Before, de.hookOf), vars, runnerAnswers, workdir, de.runScript);
    match before.result
    case Err(e) => Deployed(Err(e), before.varbag, files, before.answers, promptAnswers)
    case Ok(_) =>
      match WithVars(swaps, before.varbag, de.render)
      case Err(e) => Deployed(Err(e), before.varbag, files, before.answers, promptAnswers)
      case Ok(sw) =>
        var env := WalkEnv(sw, coord.from, coord.to, if overwriteAll then Always else Ask, de.walk, de.isMatch, de.isText);
        var w := CopySpec(env, coord.isFile, files, promptAnswers);
        match w.result
        case Err(e) => Deployed(Err(e), before.varbag, w.files, before.answers, w.answers)
        case Ok(copied) =>
          if actions.None? then Deployed(Ok((copied, None)), before.varbag, w.files, before.answers, w.answers)
          else
            var after := RunFrom(Hooked(actions.value, After, de.hookOf), before.varbag, before.answers,
                                 workdir, de.runScript);
            match after.result
            case Err(e) => Deployed(Err(e), after.varbag, w.files, after.answers, w.answers)
            case Ok(results) => Deployed(Ok((copied, Some(results))), after.varbag, w.files, after.answers, w.answers)
  }

  /** Without setup actions no action runs and the variables stay as
      they are. */
  lemma NoSetupRunsNothing(coord: Coordinate, vars: VarBag, overwriteAll: bool, de: DeployEnv,
                           files: map<string, string>, runnerAnswers: seq<Result<Answer>>,
                           promptAnswers: seq<Result<Answer>>)
    requires coord.isFile ==> coord.from in files
    ensures var d := DeploySpec(coord, None, vars, overwriteAll, de, files, runnerAnswers, promptAnswers);
      d.vars == vars && d.runnerAnswers == runnerAnswers && (d.result.Ok? ==> d.result.value.1.None?)
  {
  }

  /** A failing before-action stops the deployment before anything is
      copied. */
  lemma FailedBeforeCopiesNothing(coord: Coordinate, setup: ProjectSetupActions, vars: VarBag, overwriteAll: bool,
                                  de: DeployEnv, files: map<string, string>, runnerAnswers: seq<Result<Answer>>,
                                  promptAnswers: seq<Result<Answer>>)
    requires coord.isFile ==> coord.from in files
    requires setup.actions.Some?
    requires RunFrom(Hooked(setup.actions.value, Before, de.hookOf), vars, runnerAnswers,
                     Some(ActionsDest(coord)), de.runScript).result.Err?
    ensures var d := DeploySpec(coord, Some(setup), vars, overwriteAll, de, files, runnerAnswers, promptAnswers);
      d.result.Err? && d.files == files && d.promptAnswers == promptAnswers
  {
  }

  /** With overwriting allowed, deploying asks nothing on the prompt. */
  lemma OverwriteAllAsksNothing(coord: Coordinate, setup: Option<ProjectSetupActions>, vars: VarBag,
                                de: DeployEnv, files: map<string, string>, runnerAnswers: seq<Result<Answer>>,
                                promptAnswers: seq<Result<Answer>>)
    requires coord.isFile ==> coord.from in files
    ensures DeploySpec(coord, setup, vars, true, de, files, runnerAnswers, promptAnswers).promptAnswers == promptAnswers
  {
    var actions := if setup.Some? then setup.value.actions else None;
    var swaps := if setup.Some? then setup.value.swaps else None;
    var before :=
      if actions.None? then RunOutcome(Ok([]), vars, runnerAnswers)
      else RunFrom(Hooked(actions.value, Before, de.hookOf), vars, runnerAnswers, Some(ActionsDest(coord)), de.runScript);
    if before.result.Ok? && WithVars(swaps, before.varbag, de.render).Ok? && !coord.isFile {
      var sw := WithVars(swaps, before.varbag, de.render).value;
      AlwaysAsksNothing(WalkEnv(sw, coord.from, coord.to, Always, de.walk, de.isMatch, de.isText),
                        files, promptAnswers, 0, []);
    }
  }

  class Deployer {
    const runner: ActionRunner

    constructor (runner: ActionRunner)
      ensures this.runner == runner
    {
      this.runner := runner;
    }

    /** `copy` on the disk, asking on the prompt before overwriting. */
    method Copy(env: WalkEnv, isFile: bool, fs: FileSystem, prompt: Prompt) returns (r: Result<seq<CopyResult>>)
      requires isFile ==> env.source in fs.files
      modifies fs, prompt
      ensures Walk(r, fs.files, prompt.answers) == CopySpec(env, isFile, old(fs.files), old(prompt.answers))
    {
      if isFile {
        var c := CopyTo(env.sw, fs, env.source, env.dest, env.isMatch, env.isText);
        if c.Err? {
          return Err(c.msg);
        }
        return Ok([c.value]);
      }
      var copied := [];
      for i := 0 to |env.walk|
        invariant WalkFrom(env, fs.files, prompt.answers, i, copied) ==
          WalkFrom(env, old(fs.files), old(prompt.answers), 0, [])
      {
        var rel := env.walk[i];
        var path := JoinPath(env.source, rel);
        if Pruned(env.source, rel) || path !in fs.files {
          WalkSkipsEntry(env, fs.files, prompt.answers, i, copied);
          continue;
        }
        WalkEntry(env, fs.files, prompt.answers, i, copied);
        var to := JoinPath(env.dest, rel);
        var should := true;
        if env.sw.ExistsIn(fs, to, env.isMatch) {
          if env.overwrite.Always? {
            should := true;
          } else if env.overwrite.Ask? {
            var swapped := env.sw.PathOf(to, env.isMatch);
            var yes := prompt.ConfirmOverwrite(swapped);
            should := yes == Ok(true);
          } else {
            should := false;
          }
        }
        if should {
          var c := CopyTo(env.sw, fs, path, to, env.isMatch, env.isText);
          if c.Err? {
            return Err(c.msg);
          }
          copied := copied + [c.value];
        }
      }
      r := Ok(copied);
    }

    /** `deploy`: runs the before-actions and the after-actions on the
        runner, passing it the variables and taking them back, and copies in
        between. */
    method Deploy(coord: Coordinate, setup: Option<ProjectSetupActions>, vars: VarBag, overwriteAll: bool,
                  de: DeployEnv, fs: FileSystem, prompt: Prompt)
      returns (r: Result<(seq<CopyResult>, Option<seq<ActionResult>>)>, varsOut: VarBag)
      requires coord.isFile ==> coord.from in fs.files
      modifies runner, fs, prompt
      ensures Deployed(r, varsOut, fs.files, runner.answers, prompt.answers) ==
        DeploySpec(coord, setup, vars, overwriteAll, de, old(fs.files), old(runner.answers), old(prompt.answers))
    {
      var workdir := Some(ActionsDest(coord));
      var actions := if setup.Some? then setup.value.actions else None;
      var swaps := if setup.Some? then setup.value.swaps else None;
      varsOut := vars;
      if actions.Some? {
        runner.actions := Hooked(actions.value, Before, de.hookOf);
        runner.varbag := vars;
        var before := runner.Run(workdir, de.runScript);
        varsOut := runner.varbag;
        if before.Err? {
          r := Err(before.msg);
          return;
        }
      }
      var sw := WithVars(swaps, varsOut, de.render);
      if sw.Err? {
        r := Err(sw.msg);
        return;
      }
      var env := WalkEnv(sw.value, coord.from, coord.to, if overwriteAll then Always else Ask, de.walk,
                         de.isMatch, de.isText);
      var copied := Copy(env, coord.isFile, fs, prompt);
      if copied.Err? {
        r := Err(copied.msg);
        return;
      }
      if actions.None? {
        r := Ok((copied.value, None));
        return;
      }
      runner.actions := Hooked(actions.value, After, de.hookOf);
      runner.varbag := varsOut;
      var after := runner.Run(workdir, de.runScript);
      varsOut := runner.varbag;
      if after.Err? {
        r := Err(after.msg);
        return;
      }
      r := Ok((copied.value, Some(after.value)));
    }
  }
}
