/** The request handlers of controllers/controller.js, as methods on a service
    object that owns the four collections. Each handler returns the HTTP
    outcome it sends; each Mongoose call becomes a lookup, an insert, an update
    or a delete on one of the maps. */
module Controller {
  import opened Documents
  import opened QuestionSchemas
  import opened QuizSchema
  import opened Dispatch
  import opened References
  import opened Invariants

  /** What a handler sends back, tagged by status. */
  datatype Response<T> =
    | Created(body: T)
    | Ok(body: T)
    | BadRequest(error: string)
    | NotFound(error: string)
    | ServerError(error: string)
  {
    /** The HTTP status code sent with the response. */
    function Status(): int {
      match this
      case Created(_) => 201
      case Ok(_) => 200
      case BadRequest(_) => 400
      case NotFound(_) => 404
      case ServerError(_) => 500
    }
  }

  const QuizNotFound := "Quiz not found"
  const InvalidQuestionType := "Invalid question type"
  const QuestionNotInQuiz := "Question not in this quiz"
  const UnknownQuestionType := "Unknown question type"
  const QuestionNotFound := "Question not found"
  const QuestionDeleted := "Question deleted from quiz"
  const QuestionsDropped := "All questions deleted from quiz"
  const QuizDeleted := "Quiz and its questions deleted successfully"
  /** The message of the ReferenceError raised by the unbound `Question`. */
  const QuestionIsNotDefined := "Question is not defined"
  /** Stands for the message of a Mongoose ValidationError, whose text is not
      modelled. */
  const ValidationFailed := "validation failed"

  /** The fields a question request body may carry; `tag` is the body's
      `type`. */
  datatype QuestionBody = QuestionBody(
    tag: Option<string>,
    text: Option<string>,
    options: Option<seq<string>>,
    correctAnswer: Option<string>,
    correctAnswers: Option<seq<string>>,
    explanation: Option<string>)

  /** The body fields the variant of kind `k` reads: `text` and `explanation`
      always, `options` for MCQ and MSQ, `correctAnswer` for MCQ and text,
      `correctAnswers` for MSQ. */
  predicate SameFieldsFor(k: Kind, b: QuestionBody, b': QuestionBody) {
    && b.text == b'.text
    && b.explanation == b'.explanation
    && (k != TextKind ==> b.options == b'.options)
    && (k != MsqKind ==> b.correctAnswer == b'.correctAnswer)
    && (k == MsqKind ==> b.correctAnswers == b'.correctAnswers)
  }

  /** The record createQuestion builds for kind `k`: the variant's own fields
      of the body, an absent array stored as empty, and `type` left at the
      schema default, which is the request tag itself. */
  function Build(k: Kind, b: QuestionBody): (q: Question)
    ensures KindOf(q) == k
    ensures TagOf(q) == RequestTag(k)
  {
    match k
    case McqKind => Mcq(McqQuestion(McqDefaultTag, b.text, b.options.Or([]), b.correctAnswer, b.explanation))
    case MsqKind => Msq(MsqQuestion(MsqDefaultTag, b.text, b.options.Or([]), b.correctAnswers.Or([]), b.explanation))
    case TextKind => Text(TextQuestion(TextDefaultTag, b.text, b.correctAnswer, b.explanation))
  }

  /** Each field the variant has is taken from the body; an absent list is
      stored as empty, and a field the variant lacks stays absent. */
  lemma BuildFields(k: Kind, b: QuestionBody)
    ensures TextOf(Build(k, b)) == b.text
    ensures ExplanationOf(Build(k, b)) == b.explanation
    ensures OptionsOf(Build(k, b)) == if k == TextKind then None else Some(b.options.Or([]))
    ensures AnswerOf(Build(k, b)) == if k == MsqKind then None else b.correctAnswer
    ensures AnswersOf(Build(k, b)) == if k == MsqKind then Some(b.correctAnswers.Or([])) else None
  {
  }

  /** The record built from a body depends only on the fields its variant
      reads; a text question never receives options or a list of answers. */
  lemma BuildUsesOwnFields(k: Kind, b: QuestionBody, b': QuestionBody)
    requires SameFieldsFor(k, b, b')
    ensures Build(k, b) == Build(k, b')
  {
  }

  /** An MCQ body passes the schema exactly when `text` and `correctAnswer`
      are set and non-empty and no option is empty; absent options and
      `explanation` never fail. */
  lemma McqBuildValid(b: QuestionBody)
    ensures QuestionValid(Build(McqKind, b)) <==>
              Present(b.text) && Present(b.correctAnswer) && AllPresent(b.options.Or([]))
  {
  }

  /** An MSQ body passes the schema exactly when `text` is set and non-empty
      and no option and no answer is empty; absent lists and `explanation`
      never fail. */
  lemma MsqBuildValid(b: QuestionBody)
    ensures QuestionValid(Build(MsqKind, b)) <==>
              Present(b.text) && AllPresent(b.options.Or([])) && AllPresent(b.correctAnswers.Or([]))
  {
  }

  /** A text body passes the schema exactly when `text` is set and non-empty;
      `correctAnswer` and `explanation` are optional. */
  lemma TextBuildValid(b: QuestionBody)
    ensures QuestionValid(Build(TextKind, b)) <==> Present(b.text)
  {
  }

  /** Nothing ties the single answer of an MCQ to its options: any non-empty
      answer is accepted alongside valid options. */
  lemma McqAnswerUnconstrained(b: QuestionBody, answer: string)
    requires QuestionValid(Build(McqKind, b)) && answer != ""
    ensures QuestionValid(Build(McqKind, b.(correctAnswer := Some(answer))))
  {
  }

  /** Nothing ties the answers of an MSQ to its options: any list of
      non-empty answers is accepted alongside valid options. */
  lemma MsqAnswersUnconstrained(b: QuestionBody, answers: seq<string>)
    requires QuestionValid(Build(MsqKind, b)) && AllPresent(answers)
    ensures QuestionValid(Build(MsqKind, b.(correctAnswers := Some(answers))))
  {
  }

  /** The update `findByIdAndUpdate` applies for the variant of `q`: each of
      the variant's fields is replaced when the body sets it, and `type` is
      never written. */
  function Patch(q: Question, b: QuestionBody): (r: Question)
    ensures KindOf(r) == KindOf(q) && TagOf(r) == TagOf(q)
  {
    match q
    case Mcq(m) => Mcq(m.(text := Merge(m.text, b.text), options := b.options.Or(m.options),
                          correctAnswer := Merge(m.correctAnswer, b.correctAnswer),
                          explanation := Merge(m.explanation, b.explanation)))
    case Msq(m) => Msq(m.(text := Merge(m.text, b.text), options := b.options.Or(m.options),
                          correctAnswers := b.correctAnswers.Or(m.correctAnswers),
                          explanation := Merge(m.explanation, b.explanation)))
    case Text(m) => Text(m.(text := Merge(m.text, b.text),
                            correctAnswer := Merge(m.correctAnswer, b.correctAnswer),
                            explanation := Merge(m.explanation, b.explanation)))
  }

  /** Field by field: a field of the stored variant that the body supplies is
      replaced by the body's value, one the body leaves out keeps its stored
      value, and a field the variant lacks stays absent. */
  lemma PatchFields(q: Question, b: QuestionBody)
    ensures TextOf(Patch(q, b)) == Merge(TextOf(q), b.text)
    ensures ExplanationOf(Patch(q, b)) == Merge(ExplanationOf(q), b.explanation)
    ensures KindOf(q) != TextKind ==> OptionsOf(Patch(q, b)) == Merge(OptionsOf(q), b.options)
    ensures KindOf(q) == TextKind ==> OptionsOf(Patch(q, b)).None?
    ensures KindOf(q) != MsqKind ==> AnswerOf(Patch(q, b)) == Merge(AnswerOf(q), b.correctAnswer)
    ensures KindOf(q) == MsqKind ==> AnswerOf(Patch(q, b)).None?
    ensures KindOf(q) == MsqKind ==> AnswersOf(Patch(q, b)) == Merge(AnswersOf(q), b.correctAnswers)
    ensures KindOf(q) != MsqKind ==> AnswersOf(Patch(q, b)).None?
  {
  }

  /** An update reads only the fields of the stored variant. */
  lemma PatchUsesOwnFields(q: Question, b: QuestionBody, b': QuestionBody)
    requires SameFieldsFor(KindOf(q), b, b')
    ensures Patch(q, b) == Patch(q, b')
  {
  }

  /** Applying the same partial update twice gives the state of applying it
      once. */
  lemma PatchIdempotent(q: Question, b: QuestionBody)
    ensures Patch(Patch(q, b), b) == Patch(q, b)
  {
  }

  /** An update that sets no field leaves the record as it was. */
  lemma PatchNothing(q: Question)
    ensures Patch(q, QuestionBody(None, None, None, None, None, None)) == q
  {
  }

  /** The service: the quiz collection, the three question collections, and the
      counter that hands out fresh ids. */
  class QuizService {
    var quizzes: map<Id, Quiz>
    var mcqs: map<Id, McqQuestion>
    var msqs: map<Id, MsqQuestion>
    var texts: map<Id, TextQuestion>
    var nextId: Id

    /** The three question collections as one value. */
    function Questions(): QuestionTables
      reads this
    {
      QuestionTables(mcqs, msqs, texts)
    }

    /** Every stored id was handed out by the counter, and no id is stored in
        two question collections. */
    ghost predicate Valid()
      reads this
    {
      && (forall id :: id in quizzes ==> id < nextId)
      && (forall k, id: Id :: Get(Questions(), k, id).Some? ==> id < nextId)
      && Disjoint(Questions())
    }

    /** Every reference names an existing record of its own model, and no
        id is referenced by two quizzes. */
    ghost predicate Integrity()
      reads this
    {
      Sound(quizzes, Questions())
    }

    /** Every record is referenced by some quiz. */
    ghost predicate NoOrphans()
      reads this
    {
      Owned(quizzes, Questions())
    }

    constructor ()
      ensures Valid() && Integrity() && NoOrphans()
      ensures quizzes == map[] && Questions() == QuestionTables(map[], map[], map[])
    {
      quizzes, mcqs, msqs, texts, nextId := map[], map[], map[], map[], 0;
    }

    // -------------------------------------------------------------------
    // The Mongoose calls the handlers make

    /** Writes `q` under `id` in its own collection. */
    method Insert(id: Id, q: Question)
      modifies this
      ensures Questions() == Put(old(Questions()), id, q)
      ensures quizzes == old(quizzes) && nextId == old(nextId)
    {
      var t := Put(Questions(), id, q);
      mcqs, msqs, texts := t.mcq, t.msq, t.text;
    }

    /** `question.save()` on a new record: validate, then insert under a
        fresh id. */
    method SaveQuestion(q: Question) returns (saved: Option<Id>)
      requires Valid()
      modifies this
      ensures Valid()
      ensures saved.Some? <==> QuestionValid(q)
      ensures saved.None? ==> unchanged(this)
      ensures saved.Some? ==>
                && saved.value == old(nextId) && Fresh(old(Questions()), saved.value)
                && Questions() == Put(old(Questions()), saved.value, q)
                && quizzes == old(quizzes) && nextId == old(nextId) + 1
    {
      if !QuestionValid(q) {
        return None;
      }
      var id := nextId;
      Insert(id, q);
      nextId := nextId + 1;
      saved := Some(id);
    }

    /** `quiz.save()` on a new quiz: validate, then insert under a fresh id. */
    method SaveQuiz(quiz: Quiz) returns (saved: Option<Id>)
      requires Valid()
      modifies this
      ensures Valid()
      ensures saved.Some? <==> QuizValid(quiz)
      ensures saved.None? ==> unchanged(this)
      ensures saved.Some? ==>
                && saved.value == old(nextId) && saved.value !in old(quizzes)
                && quizzes == old(quizzes)[saved.value := quiz]
                && Questions() == old(Questions()) && nextId == old(nextId) + 1
    {
      if !QuizValid(quiz) {
        return None;
      }
      var id := nextId;
      quizzes := quizzes[id := quiz];
      nextId := nextId + 1;
      saved := Some(id);
    }

    /** `Model.findByIdAndDelete(id)`: remove the record and return what was
        there. */
    method FindByIdAndDelete(k: Kind, id: Id) returns (removed: Option<Question>)
      requires Valid()
      modifies this
      ensures Valid()
      ensures removed == Get(old(Questions()), k, id)
      ensures Questions() == Remove(old(Questions()), k, id)
      ensures removed.None? ==> unchanged(this)
      ensures quizzes == old(quizzes) && nextId == old(nextId)
    {
      removed := Get(Questions(), k, id);
      if removed.None? {
        assert Remove(Questions(), k, id) == Questions();
        return;
      }
      var t := Remove(Questions(), k, id);
      mcqs, msqs, texts := t.mcq, t.msq, t.text;
    }

    /** `Model.findByIdAndUpdate(id, update, { new: true })`: no validators
        run, and the updated record is returned. */
    method FindByIdAndUpdate(k: Kind, id: Id, b: QuestionBody) returns (updated: Option<Question>)
      requires Valid()
      modifies this
      ensures Valid()
      ensures Get(old(Questions()), k, id).None? ==> updated.None? && unchanged(this)
      ensures Get(old(Questions()), k, id).Some? ==>
                && updated == Some(Patch(Get(old(Questions()), k, id).value, b))
                && Questions() == Put(old(Questions()), id, updated.value)
                && quizzes == old(quizzes) && nextId == old(nextId)
    {
      var current := Get(Questions(), k, id);
      if current.None? {
        return None;
      }
      var q := Patch(current.value, b);
      Insert(id, q);
      updated := Some(q);
    }

    /** The loop of dropQuestions (lines 206-213): for each reference, in
        order, delete its record from the collection its model name selects;
        unknown model names and absent records are skipped. */
    method DeleteReferenced(refs: seq<QuestionRef>)
      requires Valid()
      modifies this
      ensures Valid()
      ensures Questions() == DeleteAll(old(Questions()), refs)
      ensures quizzes == old(quizzes) && nextId == old(nextId)
    {
      var i := 0;
      while i < |refs|
        invariant 0 <= i <= |refs|
        invariant Valid()
        invariant Questions() == DeleteAll(old(Questions()), refs[..i])
        invariant quizzes == old(quizzes) && nextId == old(nextId)
      {
        var kind := KindOfModel(refs[i].questionModel);
        if kind.Some? {
          var removed := FindByIdAndDelete(kind.value, refs[i].question);
        }
        assert refs[..i + 1][..i] == refs[..i];
        i := i + 1;
      }
      assert refs[..|refs|] == refs;
    }

    // -------------------------------------------------------------------
    // Quiz handlers

    /** createQuiz: a quiz with the given title and description and no
        references, stored only if it has a title. */
    method CreateQuiz(title: Option<string>, description: Option<string>) returns (r: Response<(Id, Quiz)>)
      requires Valid()
      modifies this
      ensures Valid()
      ensures old(Integrity()) ==> Integrity()
      ensures old(NoOrphans()) ==> NoOrphans()
      ensures r.Created? <==> Present(title)
      ensures !r.Created? ==> r == BadRequest(ValidationFailed) && unchanged(this)
      ensures r.Created? ==>
                && r.body.0 !in old(quizzes)
                && r.body.1 == Quiz(title, description, [])
                && quizzes == old(quizzes)[r.body.0 := r.body.1]
      ensures Questions() == old(Questions())
    {
      ghost var q0, t0 := quizzes, Questions();
      var quiz := Quiz(title, description, []);
      var saved := SaveQuiz(quiz);
      if saved.None? {
        return BadRequest(ValidationFailed);
      }
      r := Created((saved.value, quiz));
      if Sound(q0, t0) {
        SoundWithNewQuiz(q0, t0, saved.value, quiz);
      }
      if Owned(q0, t0) {
        OwnedWithNewQuiz(q0, t0, saved.value, quiz);
      }
    }

    /** getAllQuizzes: every stored quiz; nothing changes. */
    method GetAllQuizzes() returns (r: Response<map<Id, Quiz>>)
      ensures r.Ok? && r.body == quizzes
    {
      r := Ok(quizzes);
    }

    /** getQuizById: the stored quiz, or NotFound. */
    method GetQuizById(id: Id) returns (r: Response<Quiz>)
      ensures r.Ok? <==> id in quizzes
      ensures r.Ok? ==> r.body == quizzes[id]
      ensures !r.Ok? ==> r == NotFound(QuizNotFound)
    {
      if id !in quizzes {
        return NotFound(QuizNotFound);
      }
      r := Ok(quizzes[id]);
    }

    /** updateQuiz: only the title and description are written, each only when
        the request sets it; the reference list is kept. */
    method UpdateQuiz(id: Id, title: Option<string>, description: Option<string>) returns (r: Response<Quiz>)
      requires Valid()
      modifies this
      ensures Valid()
      ensures old(Integrity()) ==> Integrity()
      ensures old(NoOrphans()) ==> NoOrphans()
      ensures id !in old(quizzes) ==> r == NotFound(QuizNotFound) && unchanged(this)
      ensures id in old(quizzes) ==>
                && r.Ok?
                && r.body.title == Merge(old(quizzes)[id].title, title)
                && r.body.description == Merge(old(quizzes)[id].description, description)
                && r.body.questions == old(quizzes)[id].questions
                && quizzes == old(quizzes)[id := r.body]
      ensures Questions() == old(Questions()) && nextId == old(nextId)
    {
      if id !in quizzes {
        return NotFound(QuizNotFound);
      }
      ghost var q0, t0 := quizzes, Questions();
      var quiz := quizzes[id];
      var updated := quiz.(title := Merge(quiz.title, title), description := Merge(quiz.description, description));
      quizzes := quizzes[id := updated];
      r := Ok(updated);
      if Sound(q0, t0) {
        SoundWithSameRefs(q0, t0, id, updated);
      }
      if Owned(q0, t0) {
        OwnedWithSameRefs(q0, t0, id, updated);
      }
    }

    /** deleteQuiz, as written: the quiz is removed, and then the reference to
        the unbound name `Question` throws, so the handler answers 500 and no
        question record is deleted. */
    method DeleteQuiz(id: Id) returns (r: Response<string>)
      requires Valid()
      modifies this
      ensures Valid()
      ensures old(Integrity()) ==> Integrity()
      ensures id !in old(quizzes) ==> r == NotFound(QuizNotFound) && unchanged(this)
      ensures id in old(quizzes) ==> r == ServerError(QuestionIsNotDefined) && quizzes == old(quizzes) - {id}
      ensures Questions() == old(Questions()) && nextId == old(nextId)
      ensures old(Integrity()) && id in old(quizzes) && old(quizzes)[id].questions != [] ==> !NoOrphans()
    {
      if id !in quizzes {
        return NotFound(QuizNotFound);
      }
      ghost var q0, t0 := quizzes, Questions();
      quizzes := quizzes - {id};
      r := ServerError(QuestionIsNotDefined);
      if Sound(q0, t0) {
        SoundWithoutQuiz(q0, t0, id);
        if q0[id].questions != [] {
          RemovingQuizOrphansRecords(q0, t0, id);
        }
      }
    }

    /** deleteQuiz as intended: remove the quiz and, best-effort, every record
        it references, through the collection each reference names. */
    method DeleteQuizCascade(id: Id) returns (r: Response<string>)
      requires Valid()
      modifies this
      ensures Valid()
      ensures old(Integrity()) ==> Integrity()
      ensures old(NoOrphans()) ==> NoOrphans()
      ensures id !in old(quizzes) ==> r == NotFound(QuizNotFound) && unchanged(this)
      ensures id in old(quizzes) ==>
                && r == Ok(QuizDeleted)
                && quizzes == old(quizzes) - {id}
                && Questions() == DeleteAll(old(Questions()), old(quizzes)[id].questions)
      ensures nextId == old(nextId)
    {
      if id !in quizzes {
        return NotFound(QuizNotFound);
      }
      ghost var q0, t0 := quizzes, Questions();
      var quiz := quizzes[id];
      quizzes := quizzes - {id};
      DeleteReferenced(quiz.questions);
      r := Ok(QuizDeleted);
      CascadeKeepsInvariants(q0, t0, id);
    }

    // -------------------------------------------------------------------
    // Question handlers

    /** createQuestion: the quiz is looked up first, then the tag, then the
        schema; only when all three pass is a record stored under a fresh id
        and one reference to it appended to the quiz. */
    method CreateQuestion(quizId: Id, body: QuestionBody) returns (r: Response<(Id, Question)>)
      requires Valid()
      modifies this
      ensures Valid()
      ensures old(Integrity()) ==> Integrity()
      ensures old(NoOrphans()) ==> NoOrphans()
      ensures quizId !in old(quizzes) ==> r == NotFound(QuizNotFound) && unchanged(this)
      ensures quizId in old(quizzes) && KindOfRequest(body.tag).None? ==>
                r == BadRequest(InvalidQuestionType) && unchanged(this)
      ensures quizId in old(quizzes) && KindOfRequest(body.tag).Some? &&
              !QuestionValid(Build(KindOfRequest(body.tag).value, body)) ==>
                r == BadRequest(ValidationFailed) && unchanged(this)
      ensures r.Created? <==>
                quizId in old(quizzes) && KindOfRequest(body.tag).Some? &&
                QuestionValid(Build(KindOfRequest(body.tag).value, body))
      ensures r.Created? ==>
                && r.body.1 == Build(KindOfRequest(body.tag).value, body)
                && Fresh(old(Questions()), r.body.0)
                && Questions() == Put(old(Questions()), r.body.0, r.body.1)
                && quizzes == WithRefs(old(quizzes), quizId,
                                       old(quizzes)[quizId].questions + [NewRef(r.body.0, KindOf(r.body.1))])
    {
      if quizId !in quizzes {
        return NotFound(QuizNotFound);
      }
      ghost var q0, t0 := quizzes, Questions();
      var quiz := quizzes[quizId];
      var kind := KindOfRequest(body.tag);
      if kind.None? {
        return BadRequest(InvalidQuestionType);
      }
      var question := Build(kind.value, body);
      var saved := SaveQuestion(question);
      if saved.None? {
        return BadRequest(ValidationFailed);
      }
      var id := saved.value;
      quizzes := quizzes[quizId := quiz.(questions := quiz.questions + [NewRef(id, kind.value)])];
      r := Created((id, question));
      if Sound(q0, t0) {
        SoundAfterAppend(q0, t0, quizId, id, question);
      }
      if Owned(q0, t0) {
        OwnedAfterAppend(q0, t0, quizId, id, question);
      }
    }

    /** getQuestionById: the record the quiz's first reference to `qid` names,
        looked up in that reference's collection. */
    method GetQuestionById(quizId: Id, qid: Id) returns (r: Response<Question>)
      ensures Locate(quizzes, quizId, qid) == QuizMissing ==> r == NotFound(QuizNotFound)
      ensures Locate(quizzes, quizId, qid) == NotInQuiz ==> r == NotFound(QuestionNotInQuiz)
      ensures Locate(quizzes, quizId, qid) == UnknownModel ==> r == BadRequest(UnknownQuestionType)
      ensures Locate(quizzes, quizId, qid).Found? ==>
                var k := Locate(quizzes, quizId, qid).kind;
                if Get(Questions(), k, qid).Some? then r == Ok(Get(Questions(), k, qid).value)
                else r == NotFound(QuestionNotFound)
      ensures r.Ok? ==> Refers(quizzes[quizId].questions, KindOf(r.body), qid)
      ensures Integrity() && quizId in quizzes && qid in IdsOf(quizzes[quizId].questions) ==> r.Ok?
    {
      if Integrity() {
        LocateSound(quizzes, Questions(), quizId, qid);
      }
      match Locate(quizzes, quizId, qid)
      case QuizMissing => r := NotFound(QuizNotFound);
      case NotInQuiz => r := NotFound(QuestionNotInQuiz);
      case UnknownModel => r := BadRequest(UnknownQuestionType);
      case Found(k) =>
        var question := Get(Questions(), k, qid);
        if question.None? {
          return NotFound(QuestionNotFound);
        }
        r := Ok(question.value);
    }

    /** updateQuestion: the same lookup as getQuestionById, then an update of
        only the stored variant's fields; no reference list changes. */
    method UpdateQuestion(quizId: Id, qid: Id, body: QuestionBody) returns (r: Response<Question>)
      requires Valid()
      modifies this
      ensures Valid()
      ensures old(Integrity()) ==> Integrity()
      ensures old(NoOrphans()) ==> NoOrphans()
      ensures quizzes == old(quizzes) && nextId == old(nextId)
      ensures Locate(old(quizzes), quizId, qid) == QuizMissing ==> r == NotFound(QuizNotFound) && unchanged(this)
      ensures Locate(old(quizzes), quizId, qid) == NotInQuiz ==> r == NotFound(QuestionNotInQuiz) && unchanged(this)
      ensures Locate(old(quizzes), quizId, qid) == UnknownModel ==> r == BadRequest(UnknownQuestionType) && unchanged(this)
      ensures Locate(old(quizzes), quizId, qid).Found? ==>
                var k := Locate(old(quizzes), quizId, qid).kind;
                if Get(old(Questions()), k, qid).None? then r == NotFound(QuestionNotFound) && unchanged(this)
                else
                  && r == Ok(Patch(Get(old(Questions()), k, qid).value, body))
                  && Questions() == Put(old(Questions()), qid, r.body)
    {
      ghost var q0, t0 := quizzes, Questions();
      match Locate(quizzes, quizId, qid)
      case QuizMissing => r := NotFound(QuizNotFound);
      case NotInQuiz => r := NotFound(QuestionNotInQuiz);
      case UnknownModel => r := BadRequest(UnknownQuestionType);
      case Found(k) =>
        var updated := FindByIdAndUpdate(k, qid, body);
        if updated.None? {
          return NotFound(QuestionNotFound);
        }
        r := Ok(updated.value);
        if Sound(q0, t0) {
          SoundAfterRewrite(q0, t0, qid, updated.value);
        }
        if Owned(q0, t0) {
          OwnedAfterRewrite(q0, t0, qid, updated.value);
        }
    }

    /** deleteQuestion: the same lookup, then the record is deleted from the
        collection the first matching reference names; only if it was there
        are the quiz's references to `qid` filtered out. */
    method DeleteQuestion(quizId: Id, qid: Id) returns (r: Response<string>)
      requires Valid()
      modifies this
      ensures Valid()
      ensures old(Integrity()) ==> Integrity()
      ensures old(NoOrphans()) ==> NoOrphans()
      ensures nextId == old(nextId)
      ensures Locate(old(quizzes), quizId, qid) == QuizMissing ==> r == NotFound(QuizNotFound) && unchanged(this)
      ensures Locate(old(quizzes), quizId, qid) == NotInQuiz ==> r == NotFound(QuestionNotInQuiz) && unchanged(this)
      ensures Locate(old(quizzes), quizId, qid) == UnknownModel ==> r == BadRequest(UnknownQuestionType) && unchanged(this)
      ensures Locate(old(quizzes), quizId, qid).Found? ==>
                var k := Locate(old(quizzes), quizId, qid).kind;
                if Get(old(Questions()), k, qid).None? then r == NotFound(QuestionNotFound) && unchanged(this)
                else
                  && r == Ok(QuestionDeleted)
                  && Questions() == Remove(old(Questions()), k, qid)
                  && quizzes == WithRefs(old(quizzes), quizId, RemoveRefs(old(quizzes)[quizId].questions, qid))
    {
      match Locate(quizzes, quizId, qid)
      case QuizMissing => r := NotFound(QuizNotFound);
      case NotInQuiz => r := NotFound(QuestionNotInQuiz);
      case UnknownModel => r := BadRequest(UnknownQuestionType);
      case Found(k) =>
        if Get(Questions(), k, qid).None? {
          return NotFound(QuestionNotFound);
        }
        Unlink(quizId, k, qid);
        r := Ok(QuestionDeleted);
    }

    /** The success path of deleteQuestion: the record is deleted from the
        collection of kind `k`, then every reference to its id leaves the
        quiz. */
    method Unlink(quizId: Id, k: Kind, qid: Id)
      requires Valid() && quizId in quizzes && Get(Questions(), k, qid).Some?
      requires Refers(quizzes[quizId].questions, k, qid)
      modifies this
      ensures Valid()
      ensures old(Integrity()) ==> Integrity()
      ensures old(NoOrphans()) ==> NoOrphans()
      ensures Questions() == Remove(old(Questions()), k, qid)
      ensures quizzes == WithRefs(old(quizzes), quizId, RemoveRefs(old(quizzes)[quizId].questions, qid))
      ensures nextId == old(nextId)
    {
      ghost var q0, t0 := quizzes, Questions();
      var removed := FindByIdAndDelete(k, qid);
      var quiz := quizzes[quizId];
      quizzes := quizzes[quizId := quiz.(questions := RemoveRefs(quiz.questions, qid))];
      RefersIds(q0[quizId].questions, k, qid);
      if Sound(q0, t0) {
        SoundAfterRemove(q0, t0, quizId, k, qid);
      }
      if Owned(q0, t0) {
        OwnedAfterRemove(q0, t0, quizId, k, qid);
      }
    }

    /** getQuestions: the projection of the quiz's references; nothing
        changes. Under `Integrity` every reference is listed. */
    method GetQuestions(quizId: Id) returns (r: Response<seq<Listed>>)
      ensures quizId !in quizzes ==> r == NotFound(QuizNotFound)
      ensures quizId in quizzes ==> r == Ok(Project(quizzes[quizId].questions, Questions()))
      ensures Integrity() && quizId in quizzes ==> RefsOf(r.body) == quizzes[quizId].questions
    {
      if quizId !in quizzes {
        return NotFound(QuizNotFound);
      }
      var refs := quizzes[quizId].questions;
      r := Ok(Project(refs, Questions()));
      if Integrity() {
        ProjectAllResolved(refs, Questions());
      }
    }

    /** dropQuestions: every referenced record is deleted, best-effort, and the
        quiz's reference list is cleared; other quizzes are untouched. */
    method DropQuestions(quizId: Id) returns (r: Response<string>)
      requires Valid()
      modifies this
      ensures Valid()
      ensures old(Integrity()) ==> Integrity()
      ensures old(NoOrphans()) ==> NoOrphans()
      ensures quizId !in old(quizzes) ==> r == NotFound(QuizNotFound) && unchanged(this)
      ensures quizId in old(quizzes) ==>
                && r == Ok(QuestionsDropped)
                && Questions() == DeleteAll(old(Questions()), old(quizzes)[quizId].questions)
                && quizzes == WithRefs(old(quizzes), quizId, [])
      ensures nextId == old(nextId)
    {
      if quizId !in quizzes {
        return NotFound(QuizNotFound);
      }
      ghost var q0, t0 := quizzes, Questions();
      var quiz := quizzes[quizId];
      DeleteReferenced(quiz.questions);
      quizzes := quizzes[quizId := quiz.(questions := [])];
      r := Ok(QuestionsDropped);
      if Sound(q0, t0) {
        SoundAfterDrop(q0, t0, quizId);
      }
      if Owned(q0, t0) {
        OwnedAfterDrop(q0, t0, quizId);
      }
    }
  }
}
