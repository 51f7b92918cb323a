/** Request sequences run against a fresh service, with their outcomes stated
    as postconditions. */
module Scenarios {
  import opened Documents
  import opened QuestionSchemas
  import opened QuizSchema
  import opened Dispatch
  import opened References
  import opened Invariants
  import opened Controller

  /** A valid multiple-choice body with the given text. */
  function CapitalBody(text: string): QuestionBody {
    QuestionBody(Some("mcq"), Some(text), Some(["Paris", "Lyon"]), Some("Paris"), None, None)
  }

  /** Create a quiz, add one MCQ, list the quiz, delete the question, then ask
      for it again: the listing has one entry, the quiz ends with no
      references, and the last lookup finds the question outside the quiz. */
  method AddListDeleteQuestion() returns (listed: nat, refsLeft: nat, fetched: Response<Question>)
    ensures listed == 1 && refsLeft == 0
    ensures fetched == NotFound(QuestionNotInQuiz)
  {
    var s := new QuizService();
    var quiz := s.CreateQuiz(Some("Geo Quiz"), None);
    var quizId := quiz.body.0;
    var added := s.CreateQuestion(quizId, CapitalBody("Capital of France?"));
    var qid := added.body.0;
    var all := s.GetQuestions(quizId);
    listed := |RefsOf(all.body)|;
    var deleted := s.DeleteQuestion(quizId, qid);
    assert deleted == Ok(QuestionDeleted);
    var refs := s.quizzes[quizId].questions;
    assert forall x :: x !in refs;
    refsLeft := |refs|;
    fetched := s.GetQuestionById(quizId, qid);
  }

  /** A create request naming no known tag is refused before anything is
      stored, even with an otherwise valid body. */
  method CreateWithUnknownTag() returns (r: Response<(Id, Question)>, stored: bool)
    ensures r == BadRequest(InvalidQuestionType) && !stored
  {
    var s := new QuizService();
    var quiz := s.CreateQuiz(Some("Geo Quiz"), None);
    var quizId := quiz.body.0;
    r := s.CreateQuestion(quizId, CapitalBody("Capital of France?").(tag := Some("MCQQuestion")));
    stored := s.quizzes[quizId].questions != [] || s.mcqs != map[];
  }

  /** deleteQuiz as written on a quiz with one question: the client gets 500,
      the quiz is gone, and the question record is left behind. */
  method DeleteQuizLeavesRecord() returns (r: Response<string>, recordKept: bool)
    ensures r.Status() == 500 && recordKept
  {
    var s := new QuizService();
    var quiz := s.CreateQuiz(Some("Geo Quiz"), None);
    var quizId := quiz.body.0;
    var added := s.CreateQuestion(quizId, CapitalBody("Capital of France?"));
    var qid := added.body.0;
    r := s.DeleteQuiz(quizId);
    recordKept := qid in s.mcqs;
  }

  /** The corrected deleteQuiz on the same state: 200, and the record is
      deleted with its quiz. */
  method DeleteQuizCascadeRemovesRecord() returns (r: Response<string>, recordKept: bool)
    ensures r.Status() == 200 && !recordKept
  {
    var s := new QuizService();
    var quiz := s.CreateQuiz(Some("Geo Quiz"), None);
    var quizId := quiz.body.0;
    var added := s.CreateQuestion(quizId, CapitalBody("Capital of France?"));
    var qid := added.body.0;
    ghost var refs, t := s.quizzes[quizId].questions, s.Questions();
    r := s.DeleteQuizCascade(quizId);
    DeleteAllSpec(t, refs, McqKind, qid);
    assert refs[0] == NewRef(qid, McqKind);
    recordKept := qid in s.mcqs;
  }
}
