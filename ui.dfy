/** The terminal wizard: it picks a project or asks for a shortlink, asks
    for a destination (offering a fresh `my-projectN` name), confirms
    overwrites and summarises what was done. Prompts read from a stream of
    answers; whether a file already exists is a given predicate. */
module Ui {
  import opened Wrappers
  import opened Strings
  import opened SortedMaps
  import opened Data
  import opened Configuration
  import opened Answers
  import Actions

  const CANNOT_TAKE_INPUT: string := "cannot take input"
  const CANNOT_PARSE_INPUT: string := "cannot parse input"
  const TOO_MANY: string := "too many apps generated, pick a custom app name?"

  /** The number of copied files `say_done` lists by name. */
  const CUTOFF: nat := 10

  /** The `n`-th destination name offered. */
  function Candidate(n: nat): string {
    "my-project" + NatToString(n)
  }

  /** The first free name among the `n`-th to the 98th. */
  function FirstFree(taken: string -> bool, n: nat): (r: Result<string>)
    requires 1 <= n <= 99
    decreases 99 - n
    ensures r.Ok? ==> exists m :: (n <= m < 99 && r.value == Candidate(m) && !taken(Candidate(m)) &&
      forall j :: n <= j < m ==> taken(Candidate(j)))
    ensures r.Err? <==> forall j :: n <= j < 99 ==> taken(Candidate(j))
    ensures r.Err? ==> r.msg == TOO_MANY
  {
    if n == 99 then Err(TOO_MANY)
    else if !taken(Candidate(n)) then Ok(Candidate(n))
    else FirstFree(taken, n + 1)
  }

  /** `guess_dest`: the first of `my-project1` to `my-project98` that does
      not exist. */
  function GuessDest(taken: string -> bool): (r: Result<string>)
    ensures r.Ok? ==> exists m :: (1 <= m <= 98 && r.value == Candidate(m) && !taken(Candidate(m)) &&
      forall j :: 1 <= j < m ==> taken(Candidate(j)))
    ensures r.Err? <==> forall j :: 1 <= j <= 98 ==> taken(Candidate(j))
  {
    FirstFree(taken, 1)
  }

  /** In an empty folder the first name is offered. */
  lemma FirstGuessInEmptyFolder(taken: string -> bool)
    requires !taken(Candidate(1))
    ensures GuessDest(taken) == Ok("my-project1")
  {
    assert DigitChar(1) == '1';
    assert NatToString(1) == "1";
    assert FirstFree(taken, 1) == Ok(Candidate(1));
    assert Candidate(1) == "my-project" + "1";
    assert "my-project" + "1" == "my-project1";
  }

  function AsString(a: Answer): Option<string> {
    if a.String? then Some(a.text) else None
  }

  function AsBool(a: Answer): Option<bool> {
    if a.Bool? then Some(a.value) else None
  }

  /** `prompt_one`: the next answer; a failed prompt is reported as input
      that could not be taken. */
  function Asked(answers: seq<Result<Answer>>): (r: (Result<Answer>, seq<Result<Answer>>))
    ensures answers == [] ==> r == (Err(CANNOT_TAKE_INPUT), [])
    ensures answers != [] ==> r.1 == answers[1..]
    ensures answers != [] && answers[0].Ok? ==> r.0 == answers[0]
    ensures answers != [] && answers[0].Err? ==> r.0 == Err(CANNOT_TAKE_INPUT)
    ensures r.0.Err? ==> r.0.msg == CANNOT_TAKE_INPUT
  {
    var (a, rest) := Next(answers);
    (if a.Err? then Err(CANNOT_TAKE_INPUT) else a, rest)
  }

  /** A yes/no question: an answer other than yes or no counts as no. */
  function Confirmed(answers: seq<Result<Answer>>): (r: (Result<bool>, seq<Result<Answer>>))
    ensures r.1 == Asked(answers).1
    ensures r.0.Err? <==> Asked(answers).0.Err?
    ensures r.0.Ok? ==> (r.0.value <==> Asked(answers).0.value == Bool(true))
  {
    var (a, rest) := Asked(answers);
    match a
    case Err(e) => (Err(e), rest)
    case Ok(answer) => (Ok(AsBool(answer).GetOr(false)), rest)
  }

  /** Only an explicit yes confirms; an ended stream is an error. */
  lemma OnlyYesConfirms(a: Answer, rest: seq<Result<Answer>>)
    ensures Confirmed([Ok(a)] + rest) == (Ok(a == Bool(true)), rest)
    ensures Confirmed([]).0.Err?
  {
    assert ([Ok(a)] + rest)[1..] == rest;
  }

  /** A typed answer read as text: an input error propagates and an
      answer that is not text cannot be parsed. Shared by the shortlink and
      the destination questions. */
  function TextAnswer(answers: seq<Result<Answer>>): (r: (Result<string>, seq<Result<Answer>>))
    ensures r.1 == Asked(answers).1
    ensures Asked(answers).0.Ok? ==>
      (r.0.Ok? <==> Asked(answers).0.value.String?) &&
      (r.0.Ok? ==> r.0.value == Asked(answers).0.value.text) &&
      (r.0.Err? ==> r.0.msg == CANNOT_PARSE_INPUT)
    ensures Asked(answers).0.Err? ==> r.0 == Err(Asked(answers).0.msg)
  {
    var (a, rest) := Asked(answers);
    match a
    case Err(e) => (Err(e), rest)
    case Ok(answer) =>
      match AsString(answer)
      case None => (Err(CANNOT_PARSE_INPUT), rest)
      case Some(s) => (Ok(s), rest)
  }

  /** `input_shortlink`: typed text. */
  function ShortlinkAnswer(answers: seq<Result<Answer>>): (r: (Result<string>, seq<Result<Answer>>))
    ensures r.1 == Asked(answers).1
    ensures Asked(answers).0.Ok? ==>
      (r.0.Ok? <==> Asked(answers).0.value.String?) &&
      (r.0.Ok? ==> r.0.value == Asked(answers).0.value.text) &&
      (r.0.Err? ==> r.0.msg == CANNOT_PARSE_INPUT)
    ensures Asked(answers).0.Err? ==> r.0 == Err(Asked(answers).0.msg)
  {
    TextAnswer(answers)
  }

  /** `input_dest`: typed text, none when empty. The name is guessed before
      asking, also when it is not offered, so running out of names fails
      either way. */
  function DestAnswer(guess: bool, taken: string -> bool, answers: seq<Result<Answer>>)
    : (r: (Result<Option<string>>, seq<Result<Answer>>))
    ensures GuessDest(taken).Err? ==> r == (Err(TOO_MANY), answers)
    ensures GuessDest(taken).Ok? ==> r.1 == Asked(answers).1
    ensures r.0.Ok? && r.0.value.Some? ==> r.0.value.value != ""
    ensures GuessDest(taken).Ok? && answers != [] && answers[0].Ok? && answers[0].value.String? ==>
      r.0 == Ok(if answers[0].value.text == "" then None else Some(answers[0].value.text))
    ensures GuessDest(taken).Ok? && Asked(answers).0.Err? ==> r.0 == Err(Asked(answers).0.msg)
    ensures GuessDest(taken).Ok? && Asked(answers).0.Ok? && !Asked(answers).0.value.String? ==>
      r.0 == Err(CANNOT_PARSE_INPUT)
  {
    match GuessDest(taken)
    case Err(e) => (Err(e), answers)
    case Ok(_) =>
      var (s, rest) := TextAnswer(answers);
      match s
      case Err(e) => (Err(e), rest)
      case Ok(text) => (Ok(if text == "" then None else Some(text)), rest)
  }

  /** How a project is shown in the list: its name and the modes it is for. */
  function ProjectLabel(name: string, p: Project): (r: string)
    ensures p.mode.None? ==> r == name + " (apply+new)"
    ensures p.mode == Some(Apply) ==> r == name + " (apply)"
    ensures p.mode.Some? && p.mode != Some(Apply) ==> r == name + " (new)"
  {
    name + " (" + (if p.mode.None? then "apply+new" else if p.mode.value == Apply then "apply" else "new") + ")"
  }

  function Labels(ps: Entries<Project>): (r: seq<string>)
    ensures |r| == |ps|
    ensures forall i :: 0 <= i < |ps| ==> r[i] == ProjectLabel(ps[i].0, ps[i].1)
  {
    if ps == [] then [] else [ProjectLabel(ps[0].0, ps[0].1)] + Labels(ps[1..])
  }

  /** `pick_project`: with projects to offer, the chosen one's name; none
      when there is nothing to offer, the question was skipped, or the
      choice is not an item of the list. */
  function Picked(projects: Option<Entries<Project>>, mode: CopyMode, selection: Result<Option<Answer>>)
    : (r: Result<Option<string>>)
    ensures Selection(projects, mode) == [] ==> r == Ok(None)
    ensures Selection(projects, mode) != [] && selection.Err? ==> r == Err(selection.msg)
    ensures r.Ok? && r.value.Some? <==>
      Selection(projects, mode) != [] && selection.Ok? && selection.value.Some? &&
      selection.value.value.ListItem? && selection.value.value.index < |Selection(projects, mode)|
    ensures r.Ok? && r.value.Some? ==>
      r.value.value == Selection(projects, mode)[selection.value.value.index].0
  {
    var ps := Selection(projects, mode);
    if ps == [] then Ok(None)
    else
      match selection
      case Err(e) => Err(e)
      case Ok(None) => Ok(None)
      case Ok(Some(a)) =>
        if a.ListItem? && a.index < |Labels(ps)| then Ok(Some(ps[a.index].0)) else Ok(None)
  }

  /** A picked name is the name of a project offered in the mode. */
  lemma PickedIsOffered(projects: Option<Entries<Project>>, mode: CopyMode,
                        selection: Result<Option<Answer>>)
    requires Picked(projects, mode, selection).Ok? && Picked(projects, mode, selection).value.Some?
    ensures exists p :: (projects.Some? && (Picked(projects, mode, selection).value.value, p) in projects.value &&
      Selected(p, mode))
  {
    var ps := Selection(projects, mode);
    var i := selection.value.value.index;
    SelectionMembers(projects, mode);
    assert ps[i] in ps;
  }

  datatype Summary = Summary(
    actionNames: seq<string>,   // every action that ran
    files: seq<string>,         // the first copied files, by name
    more: Option<nat>,          // how many more were copied, if any
    total: nat,
    totalActions: nat)

  function Names(ars: seq<Actions.ActionResult>): (r: seq<string>)
    ensures |r| == |ars| && forall i :: 0 <= i < |ars| ==> r[i] == ars[i].name
  {
    if ars == [] then [] else [ars[0].name] + Names(ars[1..])
  }

  /** `say_done`: what is shown when progress is shown; at most ten files
      are listed and the rest counted. */
  function DoneSummary(showProgress: bool, res: seq<string>, actions: Option<seq<Actions.ActionResult>>)
    : (r: Option<Summary>)
    ensures r.Some? <==> showProgress
    ensures r.Some? ==> |r.value.files| <= CUTOFF && |r.value.files| <= |res| && r.value.files == res[..|r.value.files|]
    ensures r.Some? ==> (r.value.more.Some? <==> |res| > CUTOFF)
    ensures r.Some? && r.value.more.Some? ==> |r.value.files| + r.value.more.value == |res|
    ensures r.Some? && r.value.more.None? ==> r.value.files == res
    ensures r.Some? && |res| <= CUTOFF ==> r.value.files == res && r.value.more == None
    ensures r.Some? && |res| > CUTOFF ==> r.value.files == res[..CUTOFF] && r.value.more == Some(|res| - CUTOFF)
    ensures r.Some? && actions.None? ==> r.value.actionNames == []
    ensures r.Some? && actions.Some? ==>
      |r.value.actionNames| == |actions.value| &&
      forall i :: 0 <= i < |actions.value| ==> r.value.actionNames[i] == actions.value[i].name
    ensures r.Some? ==> r.value.total == |res|
    ensures r.Some? ==> r.value.totalActions == if actions.Some? then |actions.value| else 0
  {
    if !showProgress then None
    else
      var shown := if |res| <= CUTOFF then res else res[..CUTOFF];
      var more := if |res| > CUTOFF then Some(|res| - CUTOFF) else None;
      var names := if actions.Some? then Names(actions.value) else [];
      Some(Summary(names, shown, more, |res|, if actions.Some? then |actions.value| else 0))
  }

  class Prompt {
    var answers: seq<Result<Answer>>
    const projects: Option<Entries<Project>>
    const showProgress: bool

    /** A prompt over the configuration's projects and a stream of answers. */
    constructor (projects: Option<Entries<Project>>, answers: seq<Result<Answer>>, showProgress: bool)
      ensures this.projects == projects && this.answers == answers && this.showProgress == showProgress
    {
      this.projects := projects;
      this.answers := answers;
      this.showProgress := showProgress;
    }

    method PromptOne() returns (r: Result<Answer>)
      modifies this
      ensures (r, answers) == Asked(old(answers))
    {
      if answers == [] {
        return Err(CANNOT_TAKE_INPUT);
      }
      r := answers[0];
      answers := answers[1..];
      if r.Err? {
        r := Err(CANNOT_TAKE_INPUT);
      }
    }

    method Confirm() returns (r: Result<bool>)
      modifies this
      ensures (r, answers) == Confirmed(old(answers))
    {
      var a := PromptOne();
      if a.Err? {
        return Err(a.msg);
      }
      r := Ok(AsBool(a.value).GetOr(false));
    }

    /** `confirm_overwrite`. */
    method ConfirmOverwrite(file: string) returns (r: Result<bool>)
      modifies this
      ensures (r, answers) == Confirmed(old(answers))
    {
      r := Confirm();
    }

    /** `are_you_sure`. */
    method AreYouSure(shortlink: string, dest: Option<string>) returns (r: Result<bool>)
      modifies this
      ensures (r, answers) == Confirmed(old(answers))
    {
      r := Confirm();
    }

    /** `confirm_save_remotes`. */
    method ConfirmSaveRemotes(remotes: nat) returns (r: Result<bool>)
      modifies this
      ensures (r, answers) == Confirmed(old(answers))
    {
      r := Confirm();
    }

    /** A question answered with text. */
    method InputText() returns (r: Result<string>)
      modifies this
      ensures (r, answers) == TextAnswer(old(answers))
    {
      var a := PromptOne();
      if a.Err? {
        return Err(a.msg);
      }
      match AsString(a.value)
      case None => r := Err(CANNOT_PARSE_INPUT);
      case Some(s) => r := Ok(s);
    }

    method InputShortlink() returns (r: Result<string>)
      modifies this
      ensures (r, answers) == ShortlinkAnswer(old(answers))
    {
      r := InputText();
    }

    method InputDest(guess: bool, taken: string -> bool) returns (r: Result<Option<string>>)
      modifies this
      ensures (r, answers) == DestAnswer(guess, taken, old(answers))
    {
      var guessed := GuessDest(taken);
      if guessed.Err? {
        return Err(guessed.msg);
      }
      var s := InputText();
      if s.Err? {
        return Err(s.msg);
      }
      r := Ok(if s.value == "" then None else Some(s.value));
    }

    /** `pick_project`: the project list is answered on the terminal itself,
        not from the prompt's own stream. */
    function PickProject(mode: CopyMode, selection: Result<Option<Answer>>): (r: Result<Option<string>>)
      ensures r == Picked(projects, mode, selection)
    {
      Picked(projects, mode, selection)
    }

    /** `fill_missing`: a given shortlink and a given destination are used
        as they are; a missing shortlink is picked from the projects or else
        typed; a missing destination is asked for, guessing a name only
        when copying. */
    method FillMissing(shortlink: Option<string>, dest: Option<string>, mode: CopyMode,
                       selection: Result<Option<Answer>>, taken: string -> bool)
      returns (r: Result<(string, Option<string>)>)
      modifies this
      ensures (r, answers) == FillOutcome(projects, shortlink, dest, mode, selection, taken, old(answers))
    {
      var link: string;
      if shortlink.Some? {
        link := shortlink.value;
      } else {
        var picked := PickProject(mode, selection);
        if picked.Err? {
          return Err(picked.msg);
        }
        if picked.value.Some? {
          link := picked.value.value;
        } else {
          var typed := InputShortlink();
          if typed.Err? {
            return Err(typed.msg);
          }
          link := typed.value;
        }
      }
      var to: Option<string>;
      if dest.Some? {
        to := dest;
      } else {
        var asked := InputDest(mode == Copy, taken);
        if asked.Err? {
          return Err(asked.msg);
        }
        to := asked.value;
      }
      r := Ok((link, to));
    }
  }

  /** What `fill_missing` gives and the answers it leaves. */
  function FillOutcome(projects: Option<Entries<Project>>, shortlink: Option<string>, dest: Option<string>,
                       mode: CopyMode, selection: Result<Option<Answer>>, taken: string -> bool,
                       answers: seq<Result<Answer>>): (r: (Result<(string, Option<string>)>, seq<Result<Answer>>))
  {
    var (link, rest) :=
      if shortlink.Some? then (Ok(shortlink.value), answers)
      else match Picked(projects, mode, selection)
        case Err(e) => (Err(e), answers)
        case Ok(Some(k)) => (Ok(k), answers)
        case Ok(None) => ShortlinkAnswer(answers);
    match link
    case Err(e) => (Err(e), rest)
    case Ok(l) =>
      if dest.Some? then (Ok((l, dest)), rest)
      else
        var (d, rest') := DestAnswer(mode == Copy, taken, rest);
        match d
        case Err(e) => (Err(e), rest')
        case Ok(to) => (Ok((l, to)), rest')
  }

  /** Given a shortlink and a destination, nothing is asked. */
  lemma GivenArgumentsAskNothing(projects: Option<Entries<Project>>, s: string, d: string, mode: CopyMode,
                                 selection: Result<Option<Answer>>, taken: string -> bool,
                                 answers: seq<Result<Answer>>)
    ensures FillOutcome(projects, Some(s), Some(d), mode, selection, taken, answers) == (Ok((s, Some(d))), answers)
  {
  }

  /** A given shortlink is used as it is: no project is picked and no
      shortlink is asked for, so with a destination given no answer is
      read, and without one only the destination question reads one. */
  lemma GivenShortlinkUsed(projects: Option<Entries<Project>>, s: string, dest: Option<string>, mode: CopyMode,
                           selection: Result<Option<Answer>>, taken: string -> bool,
                           answers: seq<Result<Answer>>)
    ensures var r := FillOutcome(projects, Some(s), dest, mode, selection, taken, answers);
      r.0.Ok? ==> r.0.value.0 == s
    ensures dest.Some? ==> FillOutcome(projects, Some(s), dest, mode, selection, taken, answers) == (Ok((s, dest)), answers)
    ensures dest.None? ==>
      var r := FillOutcome(projects, Some(s), dest, mode, selection, taken, answers);
      var asked := DestAnswer(mode == Copy, taken, answers);
      r.1 == asked.1 && (r.0.Ok? <==> asked.0.Ok?) &&
      (r.0.Ok? ==> r.0.value.1 == asked.0.value) &&
      (r.0.Err? ==> r.0.msg == asked.0.msg)
  {
  }

  /** A given destination is used as it is: the only answers read are the
      shortlink question's, asked when no shortlink is given and no project
      is picked. */
  lemma GivenDestUsed(projects: Option<Entries<Project>>, shortlink: Option<string>, d: string, mode: CopyMode,
                      selection: Result<Option<Answer>>, taken: string -> bool,
                      answers: seq<Result<Answer>>)
    ensures var r := FillOutcome(projects, shortlink, Some(d), mode, selection, taken, answers);
      r.0.Ok? ==> r.0.value.1 == Some(d)
    ensures var r := FillOutcome(projects, shortlink, Some(d), mode, selection, taken, answers);
      r.1 == (if shortlink.None? && Picked(projects, mode, selection) == Ok(None) then ShortlinkAnswer(answers).1
              else answers)
    ensures shortlink.None? && Picked(projects, mode, selection).Ok? && Picked(projects, mode, selection).value.Some? ==>
      FillOutcome(projects, shortlink, Some(d), mode, selection, taken, answers).0 ==
        Ok((Picked(projects, mode, selection).value.value, Some(d)))
    ensures shortlink.None? && Picked(projects, mode, selection).Err? ==>
      FillOutcome(projects, shortlink, Some(d), mode, selection, taken, answers).0 ==
        Err(Picked(projects, mode, selection).msg)
  {
  }

  /** Running out of destination names fails even when no name would be
      offered, so applying into an unnamed folder fails too. */
  lemma GuessFailsWithoutOffering(taken: string -> bool, answers: seq<Result<Answer>>)
    requires forall j :: 1 <= j <= 98 ==> taken(Candidate(j))
    ensures DestAnswer(false, taken, answers) == (Err(TOO_MANY), answers)
  {
  }

  /** An empty destination answer means no destination. */
  lemma EmptyDestIsNone(taken: string -> bool, rest: seq<Result<Answer>>, guess: bool)
    requires !taken(Candidate(1))
    ensures DestAnswer(guess, taken, [Ok(String(""))] + rest) == (Ok(None), rest)
  {
    FirstGuessInEmptyFolder(taken);
    assert ([Ok(String(""))] + rest)[1..] == rest;
  }
}
