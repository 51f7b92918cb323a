/** The bookkeeping on a quiz's list of question references: finding the
    reference a request names, filtering references out, the best-effort
    deletion of every referenced record, and the projection that lists a
    quiz's questions (controllers/controller.js). */
module References {
  import opened Documents
  import opened QuestionSchemas
  import opened QuizSchema
  import opened Dispatch

  /** The ids a reference list points at. */
  function IdsOf(refs: seq<QuestionRef>): set<Id> {
    set r | r in refs :: r.question
  }

  /** Some reference in `refs` points at record `id` of kind `k`. */
  ghost predicate Refers(refs: seq<QuestionRef>, k: Kind, id: Id) {
    exists i :: 0 <= i < |refs| && refs[i].question == id && KindOfModel(refs[i].questionModel) == Some(k)
  }

  /** `a` is `b` with some elements dropped, the rest in their order. */
  ghost predicate IsSubsequence<T>(a: seq<T>, b: seq<T>)
    decreases |b|
  {
    a == [] || (b != [] && ((a[0] == b[0] && IsSubsequence(a[1..], b[1..])) || IsSubsequence(a, b[1..])))
  }

  // ---------------------------------------------------------------------
  // Reference lookup: `quiz.questions.find(q => q.question.equals(qid))`

  /** The position of the first reference to `id`, if any. */
  function FindRef(refs: seq<QuestionRef>, id: Id): (r: Option<nat>)
    ensures r.Some? ==> r.value < |refs| && refs[r.value].question == id
    ensures r.Some? ==> forall j :: 0 <= j < r.value ==> refs[j].question != id
    ensures r.None? ==> forall j :: 0 <= j < |refs| ==> refs[j].question != id
  {
    if refs == [] then None
    else if refs[0].question == id then Some(0)
    else match FindRef(refs[1..], id)
      case None => None
      case Some(i) => Some(i + 1)
  }

  /** Where the shared prefix of getQuestionById, updateQuestion and
      deleteQuestion ends: the quiz is missing, no reference names the
      question, the first reference that does carries an unknown model name,
      or it names the collection of `kind`. */
  datatype Target = QuizMissing | NotInQuiz | UnknownModel | Found(kind: Kind)

  /** The quiz lookup, then the first matching reference, then the dispatch
      on its model name, in that order. */
  function Locate(quizzes: map<Id, Quiz>, quizId: Id, qid: Id): (r: Target)
    ensures r == QuizMissing <==> quizId !in quizzes
    ensures r == NotInQuiz <==> quizId in quizzes && qid !in IdsOf(quizzes[quizId].questions)
    ensures r.Found? ==> quizId in quizzes && Refers(quizzes[quizId].questions, r.kind, qid)
    ensures r.Found? ==>
              exists i :: FindRef(quizzes[quizId].questions, qid) == Some(i) &&
                          KindOfModel(quizzes[quizId].questions[i].questionModel) == Some(r.kind)
    ensures r == UnknownModel ==>
              quizId in quizzes &&
              exists i :: FindRef(quizzes[quizId].questions, qid) == Some(i) &&
                          !RefValid(quizzes[quizId].questions[i])
  {
    if quizId !in quizzes then QuizMissing
    else
      var refs := quizzes[quizId].questions;
      match FindRef(refs, qid)
      case None => NotInQuiz
      case Some(i) =>
        match KindOfModel(refs[i].questionModel)
        case None => UnknownModel
        case Some(k) => Found(k)
  }

  /** Only the first reference to the id is dispatched on: an unknown model
      name there wins over a valid one further down the list. */
  lemma LocateUsesFirstMatch()
    ensures Locate(map[0 := Quiz(Some("Q"), None, [QuestionRef(5, "Bogus"), QuestionRef(5, "MCQQuestion")])], 0, 5)
            == UnknownModel
  {
  }

  // ---------------------------------------------------------------------
  // Reference removal: `quiz.questions.filter(q => !q.question.equals(qid))`

  /** The references that do not point at `id`. */
  function RemoveRefs(refs: seq<QuestionRef>, id: Id): (r: seq<QuestionRef>)
    ensures forall x :: x in r <==> x in refs && x.question != id
    ensures |r| <= |refs|
  {
    if refs == [] then []
    else
      assert refs == [refs[0]] + refs[1..];
      (if refs[0].question == id then [] else [refs[0]]) + RemoveRefs(refs[1..], id)
  }

  /** The filter keeps every copy of a reference it keeps: each reference
      occurs as often as before, except those with the id, which are gone. */
  lemma {:induction false} RemoveRefsCounts(refs: seq<QuestionRef>, id: Id, x: QuestionRef)
    ensures multiset(RemoveRefs(refs, id))[x] == if x.question == id then 0 else multiset(refs)[x]
  {
    if refs != [] {
      RemoveRefsCounts(refs[1..], id, x);
      assert refs == [refs[0]] + refs[1..];
      assert multiset(refs) == multiset([refs[0]]) + multiset(refs[1..]);
    }
  }

  /** The references that remain keep their relative order. */
  lemma {:induction false} RemoveRefsKeepsOrder(refs: seq<QuestionRef>, id: Id)
    ensures IsSubsequence(RemoveRefs(refs, id), refs)
  {
    if refs != [] {
      RemoveRefsKeepsOrder(refs[1..], id);
      var r := RemoveRefs(refs, id);
      if refs[0].question != id {
        assert r[0] == refs[0] && r[1..] == RemoveRefs(refs[1..], id);
      } else {
        assert r == RemoveRefs(refs[1..], id);
      }
    }
  }

  /** Filtering an id no reference points at returns the list unchanged;
      in particular filtering twice is filtering once. */
  lemma {:induction false} RemoveRefsUnmatched(refs: seq<QuestionRef>, id: Id)
    requires id !in IdsOf(refs)
    ensures RemoveRefs(refs, id) == refs
  {
    if refs != [] {
      assert refs[0] in refs;
      assert IdsOf(refs[1..]) <= IdsOf(refs) by {
        forall x | x in IdsOf(refs[1..]) ensures x in IdsOf(refs) {
          var r :| r in refs[1..] && r.question == x;
          assert r in refs;
        }
      }
      RemoveRefsUnmatched(refs[1..], id);
    }
  }

  /** Filtering is idempotent. */
  lemma RemoveRefsIdempotent(refs: seq<QuestionRef>, id: Id)
    ensures RemoveRefs(RemoveRefs(refs, id), id) == RemoveRefs(refs, id)
  {
    RemoveRefsUnmatched(RemoveRefs(refs, id), id);
  }

  /** After filtering, exactly the other ids are still pointed at. */
  lemma RemoveRefsIds(refs: seq<QuestionRef>, id: Id)
    ensures IdsOf(RemoveRefs(refs, id)) == IdsOf(refs) - {id}
  {
    var r := RemoveRefs(refs, id);
    forall x | x in IdsOf(refs) - {id} ensures x in IdsOf(r) {
      var y :| y in refs && y.question == x;
      assert y in r;
    }
  }

  /** A reference to `(k, x)` survives filtering `id` exactly when `x` is not
      `id`. */
  lemma RemoveRefsRefers(refs: seq<QuestionRef>, id: Id, k: Kind, x: Id)
    ensures Refers(RemoveRefs(refs, id), k, x) <==> Refers(refs, k, x) && x != id
  {
    var r := RemoveRefs(refs, id);
    if Refers(r, k, x) {
      var i :| 0 <= i < |r| && r[i].question == x && KindOfModel(r[i].questionModel) == Some(k);
      assert r[i] in r;
      var j :| 0 <= j < |refs| && refs[j] == r[i];
    }
    if Refers(refs, k, x) && x != id {
      var i :| 0 <= i < |refs| && refs[i].question == x && KindOfModel(refs[i].questionModel) == Some(k);
      assert refs[i] in refs;
      var j :| 0 <= j < |r| && r[j] == refs[i];
    }
  }

  /** A reference appended at the end is found alongside the earlier ones. */
  lemma RefersAppend(refs: seq<QuestionRef>, n: QuestionRef, k: Kind, x: Id)
    ensures Refers(refs + [n], k, x) <==>
      Refers(refs, k, x) || (n.question == x && KindOfModel(n.questionModel) == Some(k))
  {
    var s := refs + [n];
    if Refers(s, k, x) {
      var i :| 0 <= i < |s| && s[i].question == x && KindOfModel(s[i].questionModel) == Some(k);
      if i < |refs| {
        assert refs[i] == s[i];
      }
    }
    if Refers(refs, k, x) {
      var i :| 0 <= i < |refs| && refs[i].question == x && KindOfModel(refs[i].questionModel) == Some(k);
      assert s[i] == refs[i];
    }
    if n.question == x && KindOfModel(n.questionModel) == Some(k) {
      assert s[|refs|] == n;
    }
  }

  /** Every id a list refers to is one of its ids. */
  lemma RefersIds(refs: seq<QuestionRef>, k: Kind, x: Id)
    requires Refers(refs, k, x)
    ensures x in IdsOf(refs)
  {
    var i :| 0 <= i < |refs| && refs[i].question == x && KindOfModel(refs[i].questionModel) == Some(k);
    assert refs[i] in refs;
  }

  // ---------------------------------------------------------------------
  // Resolving a reference: the dispatch on `questionModel`, then `findById`

  /** The record a reference points at, looked up in the collection its model
      name selects; nothing for an unknown model name or a missing record. */
  function Resolve(t: QuestionTables, r: QuestionRef): (q: Option<Question>)
    ensures q.Some? ==> RefValid(r) && KindOfModel(r.questionModel) == Some(KindOf(q.value))
    ensures q.Some? ==> Get(t, KindOf(q.value), r.question) == q
    ensures q.None? ==> forall k :: KindOfModel(r.questionModel) == Some(k) ==> Get(t, k, r.question).None?
  {
    match KindOfModel(r.questionModel)
    case None => None
    case Some(k) => Get(t, k, r.question)
  }

  // ---------------------------------------------------------------------
  // The best-effort deletion loop of dropQuestions (lines 206-213)

  /** One step of the loop: delete the record a reference points at from the
      collection its model name selects; an unknown model name is skipped, and
      an absent record is not an error. */
  function DeleteOne(t: QuestionTables, r: QuestionRef): (u: QuestionTables)
    ensures forall k, x :: Get(u, k, x) ==
                          if KindOfModel(r.questionModel) == Some(k) && x == r.question then None else Get(t, k, x)
  {
    match KindOfModel(r.questionModel)
    case None => t
    case Some(k) => Remove(t, k, r.question)
  }

  /** The loop run over `refs` in order. */
  function DeleteAll(t: QuestionTables, refs: seq<QuestionRef>): QuestionTables
    decreases |refs|
  {
    if refs == [] then t
    else DeleteOne(DeleteAll(t, refs[..|refs| - 1]), refs[|refs| - 1])
  }

  /** After the loop, a record is gone exactly when some reference pointed at
      it through its own collection; every other record is untouched. */
  lemma {:induction false} DeleteAllSpec(t: QuestionTables, refs: seq<QuestionRef>, k: Kind, x: Id)
    ensures Get(DeleteAll(t, refs), k, x) == if Refers(refs, k, x) then None else Get(t, k, x)
    decreases |refs|
  {
    if refs != [] {
      var p, n := refs[..|refs| - 1], refs[|refs| - 1];
      assert refs == p + [n];
      DeleteAllSpec(t, p, k, x);
      RefersAppend(p, n, k, x);
    }
  }

  // ---------------------------------------------------------------------
  // The projection of getQuestions (lines 182-192)

  /** One listed question: the reference's id and model name, and the
      record's fields. */
  datatype Listed = Listed(id: Id, questionModel: string, question: Question) {
    /** The reference this item was listed from. */
    function Ref(): QuestionRef {
      QuestionRef(id, questionModel)
    }
  }

  /** `refs.map(resolve)` followed by `filter(q => q)`: every reference that
      resolves, in order; the others are skipped. */
  function Project(refs: seq<QuestionRef>, t: QuestionTables): (r: seq<Listed>)
    ensures |r| <= |refs|
    ensures forall j :: 0 <= j < |r| ==> Resolve(t, r[j].Ref()) == Some(r[j].question)
  {
    if refs == [] then []
    else
      var rest := Project(refs[1..], t);
      match Resolve(t, refs[0])
      case None => rest
      case Some(q) => [Listed(refs[0].question, refs[0].questionModel, q)] + rest
  }

  /** The references a listing was produced from. */
  function RefsOf(items: seq<Listed>): (r: seq<QuestionRef>)
    ensures |r| == |items|
  {
    if items == [] then [] else [items[0].Ref()] + RefsOf(items[1..])
  }

  /** The listing follows the order of the quiz's references. */
  lemma {:induction false} ProjectKeepsOrder(refs: seq<QuestionRef>, t: QuestionTables)
    ensures IsSubsequence(RefsOf(Project(refs, t)), refs)
  {
    if refs != [] {
      ProjectKeepsOrder(refs[1..], t);
      var rest := Project(refs[1..], t);
      match Resolve(t, refs[0])
      case None =>
      case Some(q) =>
        var items := [Listed(refs[0].question, refs[0].questionModel, q)] + rest;
        assert items[1..] == rest;
        assert RefsOf(items)[0] == refs[0];
    }
  }

  /** Every reference that resolves is listed, with its record. */
  lemma {:induction false} ProjectComplete(refs: seq<QuestionRef>, t: QuestionTables, i: nat)
    requires i < |refs| && Resolve(t, refs[i]).Some?
    ensures Listed(refs[i].question, refs[i].questionModel, Resolve(t, refs[i]).value) in Project(refs, t)
  {
    if i > 0 {
      ProjectComplete(refs[1..], t, i - 1);
      assert refs[1..][i - 1] == refs[i];
    }
  }

  /** When every reference resolves, nothing is skipped. */
  lemma {:induction false} ProjectAllResolved(refs: seq<QuestionRef>, t: QuestionTables)
    requires forall i :: 0 <= i < |refs| ==> Resolve(t, refs[i]).Some?
    ensures RefsOf(Project(refs, t)) == refs
  {
    if refs != [] {
      ProjectAllResolved(refs[1..], t);
      var q := Resolve(t, refs[0]).value;
      var items := [Listed(refs[0].question, refs[0].questionModel, q)] + Project(refs[1..], t);
      assert items[1..] == Project(refs[1..], t);
    }
  }
}
