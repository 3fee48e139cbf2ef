/** Answers to terminal prompts. The prompt library is not modelled: a
    session's answers are a sequence, consumed front to back, each either
    an answer or the error the prompt reported. */
module Answers {
  import opened Wrappers

  /** What a prompt returns: typed text, a chosen list item (its position
      and its text), a confirmation, or an answer of another kind. */
  datatype Answer =
    | String(text: string)
    | ListItem(index: nat, text: string)
    | Bool(value: bool)
    | Other

  /** The error of a prompt asked after the input has ended. */
  const INPUT_ENDED: string := "input ended"

  /** Takes the next answer off the stream; an ended stream is an error and
      stays ended. */
  function Next(answers: seq<Result<Answer>>): (r: (Result<Answer>, seq<Result<Answer>>))
    ensures answers == [] ==> r == (Err(INPUT_ENDED), [])
    ensures answers != [] ==> [r.0] + r.1 == answers
  {
    if answers == [] then (Err(INPUT_ENDED), []) else (answers[0], answers[1..])
  }
}
