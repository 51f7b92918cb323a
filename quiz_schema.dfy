/** The quiz collection: the quiz record, its embedded question references, and
    the validation `save()` applies (models/quizSchema.js). */
module QuizSchema {
  import opened Documents

  /** The values the `questionModel` enum admits: the names under which the
      three question models are registered. */
  const ModelNames: set<string> := {"MCQQuestion", "MSQQuestion", "TextQuestion"}

  /** An embedded reference: the id of a record, and the model name that says
      which collection the id points into. A stored reference may hold any
      string here; only `save()` enforces the enum. */
  datatype QuestionRef = QuestionRef(question: Id, questionModel: string)

  /** A quiz. `createdAt` is not modelled. */
  datatype Quiz = Quiz(
    title: Option<string>,
    description: Option<string>,
    questions: seq<QuestionRef>)

  /** Both fields of a reference are required, and its model name must be in
      the enum. The id is always present here, so only the enum is checked. */
  predicate RefValid(r: QuestionRef) {
    r.questionModel in ModelNames
  }

  /** `title` is required, `description` is optional, and every reference
      must be valid. */
  predicate QuizValid(q: Quiz) {
    Present(q.title) && forall i :: 0 <= i < |q.questions| ==> RefValid(q.questions[i])
  }
}
