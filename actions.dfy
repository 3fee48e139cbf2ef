/** Interactive actions: each action may ask one question, whose answer can
    be stored in a bag of variables, and may run a shell command in which
    `{{name}}` stands for a stored variable. A runner plays the actions in
    order and stops at the first error. The shell is given as a function
    from the script, working directory and capture flag to the outcome. */
module Actions {
  import opened Wrappers
  import opened Strings
  import opened SortedMaps
  import opened Answers

  datatype InteractionKind = Confirm | Input | Select

  /** A question; its answer is stored under `out` when `out` is set. */
  datatype Interaction = Interaction(
    kind: InteractionKind,
    prompt: string,
    out: Option<string>,
    options: Option<seq<string>>)

  datatype Action = Action(
    name: string,
    interaction: Option<Interaction>,
    run: Option<string>,
    ignoreExit: bool,
    breakIfCancel: bool,
    capture: bool)

  /** The outcome of a question; `NoResponse` is `Response::None`, for an
      action that asks nothing. */
  datatype Response = Text(text: string) | Cancel | NoResponse

  datatype RunResult = RunResult(script: string, code: int, out: string, err: string)

  datatype ActionResult = ActionResult(name: string, run: Option<RunResult>, response: Response)

  /** Variables by name, iterated in ascending name order. */
  type VarBag = Entries<string>

  /** Runs a script in an optional working directory, capturing or not its
      output: the exit code, standard output and standard error. */
  type ScriptRunner = (string, Option<string>, bool) -> Result<(int, string, string)>

  const BREAK_REQUESTED: string := "stop requested (break_if_cancel)"

  /** How an answer is read: text and list items give their text, a
      confirmation gives "true", a refusal or any other answer cancels. */
  function ResponseOf(a: Answer): (r: Response)
    ensures r != NoResponse
    ensures r.Text? <==> a.String? || a.ListItem? || (a.Bool? && a.value)
    ensures r.Text? ==> r.text == (if a.Bool? then "true" else a.text)
  {
    match a
    case String(s) => Text(s)
    case ListItem(_, s) => Text(s)
    case Bool(b) => if b then Text("true") else Cancel
    case Other => Cancel
  }

  /** `update_varbag`: store the input under the interaction's `out`. */
  function UpdateVarbag(out: Option<string>, input: string, bag: VarBag): (r: VarBag)
    ensures out.None? ==> r == bag
    ensures out.Some? ==> Get(r, out.value) == Some(input)
    ensures out.Some? ==> forall k :: k != out.value ==> Get(r, k) == Get(bag, k)
    ensures Sorted(bag) ==> Sorted(r)
  {
    match out
    case None => bag
    case Some(o) =>
      InsertFacts(bag, o, input);
      Insert(bag, o, input)
  }

  /** The state a step leaves behind: its result, the variables and the
      answers not yet consumed. */
  datatype Played = Played(response: Result<Response>, varbag: VarBag, answers: seq<Result<Answer>>)

  /** `play`: ask the question, read the answer, store a text outcome. */
  function PlayOutcome(i: Interaction, bag: VarBag, answers: seq<Result<Answer>>): (p: Played)
    ensures p.answers == Next(answers).1
    ensures p.response.Err? <==> Next(answers).0.Err?
    ensures p.response.Ok? ==> p.response.value == ResponseOf(Next(answers).0.value)
    ensures p.response.Ok? && p.response.value.Text? ==>
      p.varbag == UpdateVarbag(i.out, p.response.value.text, bag)
    ensures !(p.response.Ok? && p.response.value.Text?) ==> p.varbag == bag
  {
    var (a, rest) := Next(answers);
    match a
    case Err(e) => Played(Err(e), bag, rest)
    case Ok(answer) =>
      var resp := ResponseOf(answer);
      if resp.Text? then Played(Ok(resp), UpdateVarbag(i.out, resp.text, bag), rest)
      else Played(Ok(resp), bag, rest)
  }

  /** The placeholder for variable `k`. */
  function Token(k: string): string {
    "{{" + k + "}}"
  }

  /** The script text: each variable's placeholder replaced by its value,
      variable by variable in ascending name order. Other text is left as
      written: a script holding no placeholder of the bag's variables is
      run verbatim. */
  function RenderScript(run: string, bag: VarBag): (r: string)
    ensures (forall i :: 0 <= i < |bag| ==> !Contains(run, Token(bag[i].0))) ==> r == run
    decreases |bag|
  {
    if bag == [] then run
    else
      AbsentTokenKept(run, Token(bag[0].0), bag[0].1);
      RenderScript(Replace(run, Token(bag[0].0), bag[0].1), bag[1..])
  }

  /** A placeholder that does not occur is not replaced. */
  lemma AbsentTokenKept(run: string, k: string, v: string)
    requires k != []
    ensures !Contains(run, k) ==> Replace(run, k, v) == run
  {
    if !Contains(run, k) {
      CountZeroIffAbsent(run, k);
      ReplaceNoMatch(run, k, v);
    }
  }

  datatype StepOutcome = StepOutcome(result: Result<ActionResult>, varbag: VarBag, answers: seq<Result<Answer>>)

  /** One action: ask its question if it has one, then act on the response. */
  function Step(a: Action, bag: VarBag, answers: seq<Result<Answer>>, workdir: Option<string>,
                runScript: ScriptRunner): (r: StepOutcome)
    ensures a.interaction.None? ==>
      r == StepOutcome(Act(a, Ok(NoResponse), bag, workdir, runScript), bag, answers)
    ensures a.interaction.Some? ==>
      var p := PlayOutcome(a.interaction.value, bag, answers);
      r.answers == Next(answers).1 && r.varbag == p.varbag &&
      r.result == Act(a, p.response, p.varbag, workdir, runScript)
  {
    var p := if a.interaction.None? then Played(Ok(NoResponse), bag, answers)
             else PlayOutcome(a.interaction.value, bag, answers);
    StepOutcome(Act(a, p.response, p.varbag, workdir, runScript), p.varbag, p.answers)
  }

  /** What an action does with its response and the current variables. */
  function Act(a: Action, response: Result<Response>, bag: VarBag, workdir: Option<string>,
               runScript: ScriptRunner): (r: Result<ActionResult>)
    ensures response.Err? ==> r == Err(response.msg)
    ensures response.Ok? && response.value != Cancel && a.run.None? ==>
      r == Ok(ActionResult(a.name, None, response.value))
    ensures response.Ok? && response.value != Cancel && a.run.Some? ==>
      var script := RenderScript(a.run.value, bag);
      (runScript(script, workdir, a.capture).Err? ==> r == Err(runScript(script, workdir, a.capture).msg)) &&
      (r.Ok? ==> r.value.name == a.name && r.value.response == response.value && r.value.run.Some? &&
                 r.value.run.value.script == script && (a.ignoreExit || r.value.run.value.code == 0))
  {
    match response
    case Err(e) => Err(e)
    case Ok(resp) =>
      if resp == Cancel then
        (if a.breakIfCancel then Err(BREAK_REQUESTED) else Ok(ActionResult(a.name, None, Cancel)))
      else if a.run.None? then Ok(ActionResult(a.name, None, resp))
      else
        var script := RenderScript(a.run.value, bag);
        match runScript(script, workdir, a.capture)
        case Err(e) => Err(e)
        case Ok((code, out, err)) =>
          if !a.ignoreExit && code != 0 then
            Err("in action '" + a.name + "': command returned exit code '" + IntToString(code) + "'")
          else Ok(ActionResult(a.name, Some(RunResult(script, code, out, err)), resp))
  }

  datatype RunOutcome = RunOutcome(result: Result<seq<ActionResult>>, varbag: VarBag, answers: seq<Result<Answer>>)

  /** The actions played in order until the first error. */
  function RunFrom(actions: seq<Action>, bag: VarBag, answers: seq<Result<Answer>>,
                   workdir: Option<string>, runScript: ScriptRunner): RunOutcome
    decreases |actions|
  {
    if actions == [] then RunOutcome(Ok([]), bag, answers)
    else
      var o := Step(actions[0], bag, answers, workdir, runScript);
      match o.result
      case Err(e) => RunOutcome(Err(e), o.varbag, o.answers)
      case Ok(res) =>
        Prepend([res], RunFrom(actions[1..], o.varbag, o.answers, workdir, runScript))
  }

  /** Results produced before `o` came to be, put in front of its own. */
  function Prepend(done: seq<ActionResult>, o: RunOutcome): RunOutcome {
    match o.result
    case Ok(rs) => RunOutcome(Ok(done + rs), o.varbag, o.answers)
    case Err(_) => o
  }

  lemma PrependNothing(o: RunOutcome)
    ensures Prepend([], o) == o
  {
    if o.result.Ok? {
      assert [] + o.result.value == o.result.value;
    }
  }

  lemma PrependTwice(a: seq<ActionResult>, b: seq<ActionResult>, o: RunOutcome)
    ensures Prepend(a, Prepend(b, o)) == Prepend(a + b, o)
  {
    if o.result.Ok? {
      assert a + (b + o.result.value) == (a + b) + o.result.value;
    }
  }

  class ActionRunner {
    var actions: seq<Action>
    var varbag: VarBag
    var answers: seq<Result<Answer>>

    /** `with_events`: a runner with an empty bag and a stream of answers. */
    constructor (actions: seq<Action>, answers: seq<Result<Answer>>)
      ensures this.actions == actions && this.answers == answers && varbag == []
    {
      this.actions := actions;
      this.answers := answers;
      varbag := [];
    }

    /** `play` against the runner's own bag and answers. */
    method Play(i: Interaction) returns (r: Result<Response>)
      modifies this
      ensures Played(r, varbag, answers) == PlayOutcome(i, old(varbag), old(answers))
      ensures actions == old(actions)
    {
      if answers == [] {
        r := Err(INPUT_ENDED);
        return;
      }
      var answer := answers[0];
      answers := answers[1..];
      if answer.Err? {
        r := Err(answer.msg);
        return;
      }
      var resp := ResponseOf(answer.value);
      if resp.Text? && i.out.Some? {
        varbag := UpdateVarbag(i.out, resp.text, varbag);
      }
      r := Ok(resp);
    }

    /** `run`: play every action in order, stopping at the first error. The
        bag keeps what the actions stored, also after an error. */
    method Run(workdir: Option<string>, runScript: ScriptRunner) returns (r: Result<seq<ActionResult>>)
      modifies this
      ensures RunOutcome(r, varbag, answers) ==
        RunFrom(old(actions), old(varbag), old(answers), workdir, runScript)
      ensures actions == old(actions)
    {
      var results := [];
      var i := 0;
      PrependNothing(RunFrom(actions, varbag, answers, workdir, runScript));
      assert actions[0..] == actions;
      while i < |actions|
        invariant 0 <= i <= |actions| && actions == old(actions)
        invariant Prepend(results, RunFrom(actions[i..], varbag, answers, workdir, runScript)) ==
          RunFrom(old(actions), old(varbag), old(answers), workdir, runScript)
      {
        var a := actions[i];
        ghost var bag0, answers0 := varbag, answers;
        var response: Result<Response> := Ok(NoResponse);
        if a.interaction.Some? {
          response := Play(a.interaction.value);
        }
        var res := Act(a, response, varbag, workdir, runScript);
        assert Step(a, bag0, answers0, workdir, runScript) == StepOutcome(res, varbag, answers);
        assert actions[i..][0] == a && actions[i..][1..] == actions[i + 1..];
        if res.Err? {
          r := Err(res.msg);
          return;
        }
        PrependTwice(results, [res.value], RunFrom(actions[i + 1..], varbag, answers, workdir, runScript));
        results := results + [res.value];
        i := i + 1;
      }
      assert actions[i..] == [] && results + [] == results;
      r := Ok(results);
    }
  }

  /** A successful run has one result per action, named after it, in
      declaration order. */
  lemma {:induction false} OneResultPerAction(actions: seq<Action>, bag: VarBag, answers: seq<Result<Answer>>,
                                              workdir: Option<string>, runScript: ScriptRunner)
    ensures var o := RunFrom(actions, bag, answers, workdir, runScript);
      o.result.Ok? ==>
        |o.result.value| == |actions| &&
        forall i :: 0 <= i < |actions| ==> o.result.value[i].name == actions[i].name
    decreases |actions|
  {
    if actions != [] {
      var s := Step(actions[0], bag, answers, workdir, runScript);
      if s.result.Ok? {
        OneResultPerAction(actions[1..], s.varbag, s.answers, workdir, runScript);
      }
    }
  }

  /** Once a run fails, the actions after the failing one play no part:
      their questions are not asked and their commands do not run. */
  lemma {:induction false} ErrorStopsRun(done: seq<Action>, later: seq<Action>, bag: VarBag,
                                         answers: seq<Result<Answer>>, workdir: Option<string>,
                                         runScript: ScriptRunner)
    requires RunFrom(done, bag, answers, workdir, runScript).result.Err?
    ensures RunFrom(done + later, bag, answers, workdir, runScript) ==
      RunFrom(done, bag, answers, workdir, runScript)
    decreases |done|
  {
    var whole := done + later;
    assert whole != [] && whole[0] == done[0] && whole[1..] == done[1..] + later;
    var s := Step(done[0], bag, answers, workdir, runScript);
    if s.result.Ok? {
      ErrorStopsRun(done[1..], later, s.varbag, s.answers, workdir, runScript);
    }
  }

  /** A cancelled action never runs its command: with the break flag the
      run stops with "stop requested", otherwise the action's result has no
      run and the response `Cancel`. */
  lemma CancelSkipsCommand(a: Action, bag: VarBag, workdir: Option<string>, run1: ScriptRunner, run2: ScriptRunner)
    ensures Act(a, Ok(Cancel), bag, workdir, run1) == Act(a, Ok(Cancel), bag, workdir, run2)
    ensures Act(a, Ok(Cancel), bag, workdir, run1) ==
      if a.breakIfCancel then Err(BREAK_REQUESTED) else Ok(ActionResult(a.name, None, Cancel))
  {
  }

  /** Refusing a confirmation of an action that breaks on cancel ends the
      whole run with "stop requested", whatever follows it. */
  lemma RefusalBreaksRun(a: Action, later: seq<Action>, bag: VarBag, rest: seq<Result<Answer>>,
                         workdir: Option<string>, runScript: ScriptRunner)
    requires a.interaction.Some? && a.breakIfCancel
    ensures RunFrom([a] + later, bag, [Ok(Bool(false))] + rest, workdir, runScript).result ==
      Err(BREAK_REQUESTED)
  {
    var answers := [Ok(Bool(false))] + rest;
    assert Next(answers).0 == Ok(Bool(false));
    assert RunFrom([a], bag, answers, workdir, runScript).result == Err(BREAK_REQUESTED);
    ErrorStopsRun([a], later, bag, answers, workdir, runScript);
  }

  /** An action without a question has the response `NoResponse` and
      consumes no answer. */
  lemma NoQuestionNoAnswer(a: Action, bag: VarBag, answers: seq<Result<Answer>>,
                           workdir: Option<string>, runScript: ScriptRunner)
    requires a.interaction.None?
    ensures var s := Step(a, bag, answers, workdir, runScript);
      s.answers == answers && s.varbag == bag &&
      (s.result.Ok? ==> s.result.value.response == NoResponse)
  {
  }

  /** The bag changes only on a text response to a question with `out`, and
      then only under that name; the last write wins. */
  lemma VarbagWrites(a: Action, bag: VarBag, answers: seq<Result<Answer>>,
                     workdir: Option<string>, runScript: ScriptRunner)
    ensures var s := Step(a, bag, answers, workdir, runScript);
      var wrote := a.interaction.Some? && a.interaction.value.out.Some? && answers != [] &&
                   answers[0].Ok? && ResponseOf(answers[0].value).Text?;
      (!wrote ==> s.varbag == bag) &&
      (wrote ==> Get(s.varbag, a.interaction.value.out.value) == Some(ResponseOf(answers[0].value).text) &&
                 forall k :: k != a.interaction.value.out.value ==> Get(s.varbag, k) == Get(bag, k))
  {
  }

  /** A run keeps the bag's names in ascending order. */
  lemma {:induction false} RunKeepsBagSorted(actions: seq<Action>, bag: VarBag, answers: seq<Result<Answer>>,
                                             workdir: Option<string>, runScript: ScriptRunner)
    requires Sorted(bag)
    ensures Sorted(RunFrom(actions, bag, answers, workdir, runScript).varbag)
    decreases |actions|
  {
    if actions != [] {
      var s := Step(actions[0], bag, answers, workdir, runScript);
      if s.result.Ok? {
        RunKeepsBagSorted(actions[1..], s.varbag, s.answers, workdir, runScript);
      }
    }
  }

  /** A command that exits non-zero fails its action unless the action
      ignores the exit code; the error names the action and the code. */
  lemma ExitGate(a: Action, resp: Response, bag: VarBag, workdir: Option<string>, runScript: ScriptRunner)
    requires resp != Cancel && a.run.Some?
    requires runScript(RenderScript(a.run.value, bag), workdir, a.capture).Ok?
    ensures var (code, out, err) := runScript(RenderScript(a.run.value, bag), workdir, a.capture).value;
      var r := Act(a, Ok(resp), bag, workdir, runScript);
      (r.Err? <==> !a.ignoreExit && code != 0) &&
      (r.Err? ==> r.msg == "in action '" + a.name + "': command returned exit code '" + IntToString(code) + "'") &&
      (r.Ok? ==> r.value.run == Some(RunResult(RenderScript(a.run.value, bag), code, out, err)))
  {
  }

  /** A script holding one variable's placeholder after plain text, as
      `echo {{city}}` with `city` set to `tlv`, becomes the text followed
      by the value. */
  lemma RenderOneVariable(p: string, name: string, v: string)
    requires '{' !in p
    ensures RenderScript(p + Token(name), [(name, v)]) == p + v
  {
    var k := Token(name);
    assert k[0] == '{';
    ReplaceAfterPlain(p, k, k, v);
    ReplaceAtStart(k, [], v);
    assert k + [] == k;
    assert [(name, v)][1..] == [];
  }

  /** A placeholder of another variable does not start with this one's:
      names hold no braces, so the two differ before either closes. */
  lemma TokenMismatch(u: string, name: string, t: string)
    requires u != name && '{' !in u && '}' !in u && '}' !in name
    ensures |Token(u) + t| >= |Token(name)| ==> (Token(u) + t)[..|Token(name)|] != Token(name)
  {
    var k := Token(name);
    var s := Token(u) + t;
    if |s| >= |k| {
      var j: nat;
      if |u| < |name| {
        j := 2 + |u|;
        assert s[j] == '}' && k[j] == name[|u|];
      } else if |u| > |name| {
        j := 2 + |name|;
        assert s[j] == u[|name|] && k[j] == '}';
      } else {
        var i :| 0 <= i < |u| && u[i] != name[i];
        j := 2 + i;
        assert s[j] == u[i] && k[j] == name[i];
      }
      assert s[..|k|][j] != k[j];
    }
  }

  /** Nor does it match one character in, where the second brace faces
      the name or the closing brace. */
  lemma TokenMismatchInside(u: string, name: string, t: string)
    requires '{' !in u
    ensures |(Token(u) + t)[1..]| >= |Token(name)| ==> (Token(u) + t)[1..][..|Token(name)|] != Token(name)
  {
    var k := Token(name);
    var s1 := (Token(u) + t)[1..];
    assert s1[1] != '{' by {
      if u != [] { assert s1[1] == u[0]; } else { assert s1[1] == '}'; }
    }
    if |s1| >= |k| {
      assert s1[..|k|][1] != k[1];
    }
  }

  /** A placeholder of another variable is not a match, whatever follows
      it. */
  lemma UnknownTokenKept(u: string, name: string, t: string, v: string)
    requires u != name && '{' !in u && '}' !in u && '{' !in name && '}' !in name
    ensures Replace(Token(u) + t, Token(name), v) == Token(u) + Replace(t, Token(name), v)
  {
    var k := Token(name);
    var s := Token(u) + t;
    TokenMismatch(u, name, t);
    TokenMismatchInside(u, name, t);
    ReplaceSkipTwo(s, k, v);
    TokenSplit(u, t);
    assert k[0] == '{';
    ReplaceAfterPlain(u + "}}", t, k, v);
    var r := Replace(t, k, v);
    calc {
      Replace(s, k, v);
      s[..2] + Replace(s[2..], k, v);
      s[..2] + ((u + "}}") + r);
      { ConcatAssoc(s[..2], u + "}}", r); }
      (s[..2] + (u + "}}")) + r;
      Token(u) + r;
    }
  }

  /** The two opening braces of a placeholder, and what follows them. */
  lemma TokenSplit(u: string, t: string)
    ensures |Token(u) + t| >= 2
    ensures (Token(u) + t)[2..] == (u + "}}") + t
    ensures (Token(u) + t)[..2] + (u + "}}") == Token(u)
  {
    assert Token(u) + t == "{{" + ((u + "}}") + t);
  }

  /** A placeholder of a variable not in the bag, as `{{zip}}` in
      `echo {{zip}}` with only `city` set, is left as written. */
  lemma RenderKeepsUnknown(p: string, name: string, u: string, v: string)
    requires '{' !in p
    requires u != name && '{' !in u && '}' !in u && '{' !in name && '}' !in name
    ensures RenderScript(p + Token(u), [(name, v)]) == p + Token(u)
  {
    var k := Token(name);
    assert k[0] == '{';
    ReplaceAfterPlain(p, Token(u), k, v);
    UnknownTokenKept(u, name, [], v);
    assert Token(u) + [] == Token(u);
    assert [(name, v)][1..] == [];
  }

  /** In one script the bag's placeholder is replaced and another
      variable's placeholder after it is kept: `echo {{city}} {{zip}}` with
      `city` set to `tlv` becomes `echo tlv {{zip}}`. */
  lemma RenderReplacesKnownKeepsUnknown(p: string, name: string, q: string, u: string, v: string)
    requires '{' !in p && '{' !in q
    requires u != name && '{' !in u && '}' !in u && '{' !in name && '}' !in name
    ensures RenderScript(p + Token(name) + q + Token(u), [(name, v)]) == p + v + q + Token(u)
  {
    KnownThenUnknown(p, name, q, u, v);
    assert [(name, v)][1..] == [];
  }

  lemma KnownThenUnknown(p: string, name: string, q: string, u: string, v: string)
    requires '{' !in p && '{' !in q
    requires u != name && '{' !in u && '}' !in u && '{' !in name && '}' !in name
    ensures Replace(p + Token(name) + q + Token(u), Token(name), v) == p + v + q + Token(u)
  {
    var k := Token(name);
    var rest := q + Token(u);
    assert k[0] == '{';
    UnknownTokenKept(u, name, [], v);
    assert Token(u) + [] == Token(u);
    ReplaceAfterPlain(q, Token(u), k, v);
    assert Replace(rest, k, v) == rest;
    ReplaceAtStart(k, rest, v);
    assert p + k + q + Token(u) == p + (k + rest);
    ReplaceAfterPlain(p, k + rest, k, v);
    assert p + (v + rest) == p + v + q + Token(u);
  }
}
