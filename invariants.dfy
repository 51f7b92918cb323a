/** The cross-table invariants the handlers keep by pairing a record write with
    a reference write, and one lemma per kind of paired write showing it is
    kept (controllers/controller.js). */
module Invariants {
  import opened Documents
  import opened QuestionSchemas
  import opened QuizSchema
  import opened Dispatch
  import opened References

  /** Referential integrity: every reference in every quiz names a known model
      and an existing record in that model's collection, and no record id is
      referenced from two different quizzes. */
  ghost predicate Sound(quizzes: map<Id, Quiz>, t: QuestionTables) {
    && (forall qz, i :: qz in quizzes && 0 <= i < |quizzes[qz].questions| ==>
          Resolve(t, quizzes[qz].questions[i]).Some?)
    && (forall a, b :: a in quizzes && b in quizzes && a != b ==>
          IdsOf(quizzes[a].questions) !! IdsOf(quizzes[b].questions))
  }

  /** No orphan records: every stored record is referenced, through its own
      collection, by some quiz. Questions are created only by adding them to
      a quiz. */
  ghost predicate Owned(quizzes: map<Id, Quiz>, t: QuestionTables) {
    forall k, x :: Get(t, k, x).Some? ==> exists qz :: qz in quizzes && Refers(quizzes[qz].questions, k, x)
  }

  /** `quizzes` with the reference list of quiz `qz` replaced by `refs`. */
  function WithRefs(quizzes: map<Id, Quiz>, qz: Id, refs: seq<QuestionRef>): map<Id, Quiz>
    requires qz in quizzes
  {
    quizzes[qz := quizzes[qz].(questions := refs)]
  }

  /** Under `Sound`, the lookup shared by get, update and delete question
      never meets an unknown model name, and a reference it finds always
      names an existing record. */
  lemma LocateSound(quizzes: map<Id, Quiz>, t: QuestionTables, quizId: Id, qid: Id)
    requires Sound(quizzes, t)
    ensures Locate(quizzes, quizId, qid) != UnknownModel
    ensures Locate(quizzes, quizId, qid).Found? ==> Get(t, Locate(quizzes, quizId, qid).kind, qid).Some?
  {
    if quizId in quizzes {
      var refs := quizzes[quizId].questions;
      var i := FindRef(refs, qid);
      if i.Some? {
        assert Resolve(t, refs[i.value]).Some?;
      }
    }
  }

  // ---------------------------------------------------------------------
  // createQuiz: a new quiz with no references

  lemma SoundWithNewQuiz(quizzes: map<Id, Quiz>, t: QuestionTables, id: Id, quiz: Quiz)
    requires Sound(quizzes, t) && quiz.questions == []
    ensures Sound(quizzes[id := quiz], t)
  {
    assert IdsOf([]) == {};
  }

  lemma OwnedWithNewQuiz(quizzes: map<Id, Quiz>, t: QuestionTables, id: Id, quiz: Quiz)
    requires Owned(quizzes, t) && id !in quizzes
    ensures Owned(quizzes[id := quiz], t)
  {
    var q' := quizzes[id := quiz];
    forall k, x | Get(t, k, x).Some? ensures exists qz :: qz in q' && Refers(q'[qz].questions, k, x) {
      var qz :| qz in quizzes && Refers(quizzes[qz].questions, k, x);
      assert q'[qz] == quizzes[qz];
    }
  }

  // ---------------------------------------------------------------------
  // updateQuiz: the reference list is kept

  lemma SoundWithSameRefs(quizzes: map<Id, Quiz>, t: QuestionTables, id: Id, quiz: Quiz)
    requires Sound(quizzes, t) && id in quizzes && quiz.questions == quizzes[id].questions
    ensures Sound(quizzes[id := quiz], t)
  {
  }

  lemma OwnedWithSameRefs(quizzes: map<Id, Quiz>, t: QuestionTables, id: Id, quiz: Quiz)
    requires Owned(quizzes, t) && id in quizzes && quiz.questions == quizzes[id].questions
    ensures Owned(quizzes[id := quiz], t)
  {
    var q' := quizzes[id := quiz];
    forall k, x | Get(t, k, x).Some? ensures exists qz :: qz in q' && Refers(q'[qz].questions, k, x) {
      var qz :| qz in quizzes && Refers(quizzes[qz].questions, k, x);
      assert q'[qz].questions == quizzes[qz].questions;
    }
  }

  // ---------------------------------------------------------------------
  // createQuestion: a record under a fresh id, and a reference to it appended

  /** The reference createQuestion appends for a record of kind `k`. */
  function NewRef(id: Id, k: Kind): (r: QuestionRef)
    ensures RefValid(r) && KindOfModel(r.questionModel) == Some(k)
  {
    QuestionRef(id, ModelName(k))
  }

  lemma {:induction false} SoundAfterAppend(quizzes: map<Id, Quiz>, t: QuestionTables, qz: Id, id: Id, q: Question)
    requires Sound(quizzes, t) && qz in quizzes && Fresh(t, id)
    ensures Sound(WithRefs(quizzes, qz, quizzes[qz].questions + [NewRef(id, KindOf(q))]), Put(t, id, q))
  {
    var refs := quizzes[qz].questions;
    var n := NewRef(id, KindOf(q));
    var q', t' := WithRefs(quizzes, qz, refs + [n]), Put(t, id, q);
    // Old references keep resolving: none of them points at the fresh id.
    forall r | Resolve(t, r).Some? ensures Resolve(t', r).Some? && r.question != id {
      assert Get(t, KindOf(Resolve(t, r).value), r.question).Some?;
    }
    forall a, i | a in q' && 0 <= i < |q'[a].questions| ensures Resolve(t', q'[a].questions[i]).Some? {
      if a == qz && i == |refs| {
        assert q'[a].questions[i] == n;
      } else {
        assert q'[a].questions[i] == quizzes[a].questions[i];
      }
    }
    assert IdsOf(refs + [n]) == IdsOf(refs) + {id};
    forall b | b in quizzes && b != qz ensures id !in IdsOf(quizzes[b].questions) {
      forall r | r in quizzes[b].questions ensures r.question != id {
        var i :| 0 <= i < |quizzes[b].questions| && quizzes[b].questions[i] == r;
      }
    }
  }

  lemma OwnedAfterAppend(quizzes: map<Id, Quiz>, t: QuestionTables, qz: Id, id: Id, q: Question)
    requires Owned(quizzes, t) && qz in quizzes
    ensures Owned(WithRefs(quizzes, qz, quizzes[qz].questions + [NewRef(id, KindOf(q))]), Put(t, id, q))
  {
    var refs := quizzes[qz].questions;
    var n := NewRef(id, KindOf(q));
    var q', t' := WithRefs(quizzes, qz, refs + [n]), Put(t, id, q);
    forall k, x | Get(t', k, x).Some? ensures exists b :: b in q' && Refers(q'[b].questions, k, x) {
      RefersAppend(refs, n, k, x);
      if k == KindOf(q) && x == id {
        assert Refers(q'[qz].questions, k, x);
      } else {
        var b :| b in quizzes && Refers(quizzes[b].questions, k, x);
        assert Refers(q'[b].questions, k, x);
      }
    }
  }

  // ---------------------------------------------------------------------
  // updateQuestion: an existing record is rewritten in its own collection

  lemma SoundAfterRewrite(quizzes: map<Id, Quiz>, t: QuestionTables, id: Id, q: Question)
    requires Sound(quizzes, t) && Get(t, KindOf(q), id).Some?
    ensures Sound(quizzes, Put(t, id, q))
  {
    forall r | Resolve(t, r).Some? ensures Resolve(Put(t, id, q), r).Some? {
      assert Get(t, KindOf(Resolve(t, r).value), r.question).Some?;
    }
  }

  lemma OwnedAfterRewrite(quizzes: map<Id, Quiz>, t: QuestionTables, id: Id, q: Question)
    requires Owned(quizzes, t) && Get(t, KindOf(q), id).Some?
    ensures Owned(quizzes, Put(t, id, q))
  {
    forall k, x | Get(Put(t, id, q), k, x).Some? ensures Get(t, k, x).Some? {
    }
  }

  // ---------------------------------------------------------------------
  // deleteQuestion: a record removed, and every reference to its id filtered

  lemma {:induction false} SoundAfterRemove(quizzes: map<Id, Quiz>, t: QuestionTables, qz: Id, k: Kind, id: Id)
    requires Sound(quizzes, t) && qz in quizzes && id in IdsOf(quizzes[qz].questions)
    ensures Sound(WithRefs(quizzes, qz, RemoveRefs(quizzes[qz].questions, id)), Remove(t, k, id))
  {
    var refs := quizzes[qz].questions;
    var kept := RemoveRefs(refs, id);
    var q', t' := WithRefs(quizzes, qz, kept), Remove(t, k, id);
    RemoveRefsIds(refs, id);
    forall a, i | a in q' && 0 <= i < |q'[a].questions| ensures Resolve(t', q'[a].questions[i]).Some? {
      var r := q'[a].questions[i];
      assert r in q'[a].questions;
      assert r in quizzes[a].questions;
      var j :| 0 <= j < |quizzes[a].questions| && quizzes[a].questions[j] == r;
      assert Resolve(t, r).Some?;
      assert r.question in IdsOf(quizzes[a].questions);
      assert r.question != id;
      assert Get(t, KindOf(Resolve(t, r).value), r.question).Some?;
    }
  }

  lemma OwnedAfterRemove(quizzes: map<Id, Quiz>, t: QuestionTables, qz: Id, k: Kind, id: Id)
    requires Owned(quizzes, t) && Disjoint(t) && qz in quizzes && Get(t, k, id).Some?
    ensures Owned(WithRefs(quizzes, qz, RemoveRefs(quizzes[qz].questions, id)), Remove(t, k, id))
  {
    var refs := quizzes[qz].questions;
    var q', t' := WithRefs(quizzes, qz, RemoveRefs(refs, id)), Remove(t, k, id);
    forall k', x | Get(t', k', x).Some? ensures exists b :: b in q' && Refers(q'[b].questions, k', x) {
      // A record with the deleted id in another collection cannot exist.
      assert x != id;
      var b :| b in quizzes && Refers(quizzes[b].questions, k', x);
      RemoveRefsRefers(refs, id, k', x);
      assert Refers(q'[b].questions, k', x);
    }
  }

  // ---------------------------------------------------------------------
  // dropQuestions: every referenced record deleted, the list cleared

  lemma {:induction false} SoundAfterDrop(quizzes: map<Id, Quiz>, t: QuestionTables, qz: Id)
    requires Sound(quizzes, t) && qz in quizzes
    ensures Sound(WithRefs(quizzes, qz, []), DeleteAll(t, quizzes[qz].questions))
  {
    var refs := quizzes[qz].questions;
    var q', t' := WithRefs(quizzes, qz, []), DeleteAll(t, refs);
    assert IdsOf([]) == {};
    forall a, i | a in q' && 0 <= i < |q'[a].questions| ensures Resolve(t', q'[a].questions[i]).Some? {
      var r := q'[a].questions[i];
      assert a != qz && r == quizzes[a].questions[i];
      assert r in quizzes[a].questions;
      var k := KindOf(Resolve(t, r).value);
      DeleteAllSpec(t, refs, k, r.question);
      assert r.question in IdsOf(quizzes[a].questions);
      assert !Refers(refs, k, r.question) by {
        forall j | 0 <= j < |refs| ensures refs[j].question != r.question {
          assert refs[j] in refs;
        }
      }
    }
  }

  lemma OwnedAfterDrop(quizzes: map<Id, Quiz>, t: QuestionTables, qz: Id)
    requires Owned(quizzes, t) && qz in quizzes
    ensures Owned(WithRefs(quizzes, qz, []), DeleteAll(t, quizzes[qz].questions))
  {
    var refs := quizzes[qz].questions;
    var q', t' := WithRefs(quizzes, qz, []), DeleteAll(t, refs);
    forall k, x | Get(t', k, x).Some? ensures exists b :: b in q' && Refers(q'[b].questions, k, x) {
      DeleteAllSpec(t, refs, k, x);
      var b :| b in quizzes && Refers(quizzes[b].questions, k, x);
      assert b != qz;
      assert Refers(q'[b].questions, k, x);
    }
  }

  // ---------------------------------------------------------------------
  // deleteQuiz: the quiz removed

  lemma SoundWithoutQuiz(quizzes: map<Id, Quiz>, t: QuestionTables, qz: Id)
    requires Sound(quizzes, t)
    ensures Sound(quizzes - {qz}, t)
  {
  }

  /** Removing a quiz whose list is empty orphans nothing. */
  lemma OwnedWithoutEmptyQuiz(quizzes: map<Id, Quiz>, t: QuestionTables, qz: Id)
    requires Owned(quizzes, t) && qz in quizzes && quizzes[qz].questions == []
    ensures Owned(quizzes - {qz}, t)
  {
    var q' := quizzes - {qz};
    forall k, x | Get(t, k, x).Some? ensures exists b :: b in q' && Refers(q'[b].questions, k, x) {
      var b :| b in quizzes && Refers(quizzes[b].questions, k, x);
      assert b in q';
    }
  }

  /** Removing a quiz that has references, and no records, orphans the record
      its first reference names. */
  lemma {:induction false} RemovingQuizOrphansRecords(quizzes: map<Id, Quiz>, t: QuestionTables, qz: Id)
    requires Sound(quizzes, t) && qz in quizzes && quizzes[qz].questions != []
    ensures !Owned(quizzes - {qz}, t)
  {
    var refs := quizzes[qz].questions;
    var r := refs[0];
    assert r in refs;
    var q := Resolve(t, r).value;
    var k, x := KindOf(q), r.question;
    assert Get(t, k, x).Some?;
    assert x in IdsOf(refs);
    forall b, i | b in quizzes && b != qz && 0 <= i < |quizzes[b].questions|
      ensures quizzes[b].questions[i].question != x
    {
      assert quizzes[b].questions[i] in quizzes[b].questions;
    }
  }

  /** The cascade the source intends: removing a quiz together with every
      record it references keeps both invariants. */
  lemma CascadeKeepsInvariants(quizzes: map<Id, Quiz>, t: QuestionTables, qz: Id)
    requires qz in quizzes
    ensures Sound(quizzes, t) ==> Sound(quizzes - {qz}, DeleteAll(t, quizzes[qz].questions))
    ensures Owned(quizzes, t) ==> Owned(quizzes - {qz}, DeleteAll(t, quizzes[qz].questions))
  {
    var dropped := WithRefs(quizzes, qz, []);
    assert dropped - {qz} == quizzes - {qz};
    if Sound(quizzes, t) {
      SoundAfterDrop(quizzes, t, qz);
      SoundWithoutQuiz(dropped, DeleteAll(t, quizzes[qz].questions), qz);
    }
    if Owned(quizzes, t) {
      OwnedAfterDrop(quizzes, t, qz);
      OwnedWithoutEmptyQuiz(dropped, DeleteAll(t, quizzes[qz].questions), qz);
    }
  }
}
