/**
  The data types shared by the quiz engine: difficulties, question kinds,
  notations and the question record itself (types.ts).
 */
module Types {

  datatype Option<+T> = None | Some(value: T)

  /** A requested difficulty; `Mixed` is a request-time blend, never a buffer. */
  datatype Difficulty = Easy | Medium | Hard | Mixed

  /** The three concrete difficulties that own a buffer. */
  type Level = d: Difficulty | d != Mixed witness Easy

  datatype QuestionType = FormulaToName | NameToFormula

  datatype Notation = Systematic | Traditional | Stock | Formula | NoNotation | AnyNotation

  datatype Question = Question(
    id: int,
    kind: QuestionType,
    prompt: string,
    targetNotation: Notation,
    correctAnswer: string,
    acceptedAnswers: seq<string>,
    explanation: Option<string>)

  /** The regular-expression class `\d`. */
  predicate IsDigit(c: char) { '0' <= c <= '9' }
}
