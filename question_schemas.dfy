/** The three question collections: their record shapes and the validation that
    `save()` applies to each (models/questionTypes/). */
module QuestionSchemas {
  import opened Documents

  /** A multiple-choice record. `tag` is the schema's `type` path, which
      defaults to "mcq". Nothing ties `correctAnswer` to `options`. */
  datatype McqQuestion = McqQuestion(
    tag: string,
    text: Option<string>,
    options: seq<string>,
    correctAnswer: Option<string>,
    explanation: Option<string>)

  /** A multi-select record. `tag` defaults to "msq". Nothing ties
      `correctAnswers` to `options`. */
  datatype MsqQuestion = MsqQuestion(
    tag: string,
    text: Option<string>,
    options: seq<string>,
    correctAnswers: seq<string>,
    explanation: Option<string>)

  /** A free-text record. `tag` defaults to "text". It has no options and no
      list of answers. */
  datatype TextQuestion = TextQuestion(
    tag: string,
    text: Option<string>,
    correctAnswer: Option<string>,
    explanation: Option<string>)

  /** A record from any one of the three collections. */
  datatype Question = Mcq(mcq: McqQuestion) | Msq(msq: MsqQuestion) | Text(txt: TextQuestion)

  /** Defaults of the `type` path of each schema. */
  const McqDefaultTag := "mcq"
  const MsqDefaultTag := "msq"
  const TextDefaultTag := "text"

  /** `text`, `correctAnswer` and every element of `options` are required;
      `explanation` is optional and the list may be empty. */
  predicate McqValid(q: McqQuestion) {
    Present(q.text) && AllPresent(q.options) && Present(q.correctAnswer)
  }

  /** `text` and every element of `options` and `correctAnswers` are required;
      `explanation` is optional and both lists may be empty. */
  predicate MsqValid(q: MsqQuestion) {
    Present(q.text) && AllPresent(q.options) && AllPresent(q.correctAnswers)
  }

  /** Only `text` is required. */
  predicate TextValid(q: TextQuestion) {
    Present(q.text)
  }

  /** The validation `save()` runs for the record's own collection. */
  predicate QuestionValid(q: Question) {
    match q
    case Mcq(m) => McqValid(m)
    case Msq(m) => MsqValid(m)
    case Text(m) => TextValid(m)
  }

  /** The `text` path, which every variant has. */
  function TextOf(q: Question): Option<string> {
    match q
    case Mcq(m) => m.text
    case Msq(m) => m.text
    case Text(m) => m.text
  }

  /** The `explanation` path, which every variant has. */
  function ExplanationOf(q: Question): Option<string> {
    match q
    case Mcq(m) => m.explanation
    case Msq(m) => m.explanation
    case Text(m) => m.explanation
  }

  /** The `options` list of an MCQ or MSQ record; a text record has none. */
  function OptionsOf(q: Question): Option<seq<string>> {
    match q
    case Mcq(m) => Some(m.options)
    case Msq(m) => Some(m.options)
    case Text(_) => None
  }

  /** The single `correctAnswer` of an MCQ or text record; an MSQ has none. */
  function AnswerOf(q: Question): Option<string> {
    match q
    case Mcq(m) => m.correctAnswer
    case Msq(_) => None
    case Text(m) => m.correctAnswer
  }

  /** The `correctAnswers` list of an MSQ record; the others have none. */
  function AnswersOf(q: Question): Option<seq<string>> {
    match q
    case Msq(m) => Some(m.correctAnswers)
    case _ => None
  }

  /** The stored `type` path of a record. */
  function TagOf(q: Question): string {
    match q
    case Mcq(m) => m.tag
    case Msq(m) => m.tag
    case Text(m) => m.tag
  }
}
