# Quiz service: reference bookkeeping

This project models the quiz backend's request handlers in Dafny. The
backend is an Express and Mongoose service. A quiz holds an ordered list of
references. Each reference pairs a question id with the model name of the
collection that holds the record. Questions live in three collections, one
each for multiple-choice (MCQ), multi-select (MSQ) and free-text questions.
The handlers create, read, update and delete quizzes and questions, and they
keep the reference lists in step with the question records.

The database is four in-memory maps keyed by an abstract id. The maps are
fields of the class `Controller.QuizService`, and each handler is a method on
that class. A handler returns a status-tagged `Response`: Created (201),
Ok (200), BadRequest (400), NotFound (404) or ServerError (500). The Mongoose
calls become operations on the maps:

- `findById` is a lookup;
- `save` is validate-then-insert under a fresh id;
- `findByIdAndUpdate` is a field merge, with no validation;
- `findByIdAndDelete` is remove-and-return-the-old-record.

Modules, in dependency order:

- `Documents`: `Option`, ids, Mongoose's `required` rule for strings, and the field merge of an update.
- `QuestionSchemas`: the three record shapes and what `save()` demands of each.
- `QuizSchema`: the quiz record, the reference sub-record, the model-name enum, and quiz validity.
- `Dispatch`:
  - the two tag dispatches, request tag to kind and stored model name to kind;
  - the three collections as one value, with `Get`, `Put` and `Remove`.
- `References`: pure functions on reference lists. These are the first-match lookup, the filter, the best-effort deletion loop as a function, and the listing projection.
- `Invariants`: the two cross-table invariants, and one preservation lemma per kind of paired write.
  - `Sound`: every reference names an existing record in the collection its model name selects, and no id is referenced by two quizzes.
  - `Owned`: every record is referenced by some quiz.
- `Controller`: request bodies, record construction (`Build`), record update (`Patch`), and the `QuizService` class with one method per handler.
- `Scenarios`: short request sequences on a fresh service, with their outcomes stated.

Ids come from one counter shared by all four maps. MongoDB ObjectIds are
unique across collections, and the shared counter stands for that. It is why
no id is stored in two question collections (`Dispatch.Disjoint`).

Each handler that writes states its whole new state. It also keeps both
invariants: if `Integrity()` (or `NoOrphans()`) held before the call, it holds
after. The one exception is `DeleteQuiz` as written, which breaks `NoOrphans`
because it never reaches its cascade (see Findings). This rests on every
re-save of a quiz being modelled as succeeding (see Left out). updateQuiz runs no validators, so it can store an
empty title; after that, every `quiz.save()` on that quiz fails. Then
createQuestion leaves an unreferenced record behind, and deleteQuestion and
dropQuestions leave references to deleted records.

## Model

| member | source | states |
|---|---|---|
| Dispatch.ModelName | controllers/controller.js:78-89 | The model name recorded for each kind is always one of the three names the quiz schema's enum admits. |
| Dispatch.KindOfRequest | controllers/controller.js:78-89 | A create request is dispatched exactly on the tags `mcq`, `msq` and `text`. Any other value, or no tag at all, selects no kind. |
| Dispatch.KindOfModel | controllers/controller.js:107-110 | A stored model name selects a collection exactly when it is in the enum. The selection inverts `ModelName`, so each name selects the collection it was recorded for. |
| Dispatch.Get | controllers/controller.js:111 | A lookup in the collection of a kind returns only records of that kind. |
| Dispatch.Put | controllers/controller.js:90 | A write stores the record under its id in its own collection. Every other (collection, id) pair reads as before. |
| Dispatch.Remove | controllers/controller.js:166 | A delete empties exactly one (collection, id) pair, and every other pair reads as before. |
| References.FindRef | controllers/controller.js:104 | Returns the index of the first reference with the given id, and no earlier reference has that id. It returns nothing only when no reference has the id. |
| References.Locate | controllers/controller.js:102-110 | The shared prefix of the three per-question handlers, checked in source order. The result is QuizMissing exactly when the quiz is absent, and NotInQuiz exactly when no reference has the id. Found(k) means the FIRST reference with the id (the one `FindRef` returns) names `k`'s collection. UnknownModel means that first reference carries a model name outside the enum. |
| References.LocateUsesFirstMatch | controllers/controller.js:104-110 | For a quiz whose first reference to an id has an unknown model name and whose second has a valid one, the lookup ends in UnknownModel, as `find` returns the first match. |
| References.RemoveRefs | controllers/controller.js:168 | The filter keeps exactly the references whose id differs from the given one, and never lengthens the list. |
| References.RemoveRefsCounts | controllers/controller.js:168 | Every reference whose id differs from the filtered one occurs after the filter exactly as often as before. Every reference with that id occurs zero times. |
| References.RemoveRefsKeepsOrder | controllers/controller.js:168 | The references left by the filter keep their relative order. |
| References.RemoveRefsUnmatched | controllers/controller.js:168 | Filtering an id that no reference has leaves the list unchanged. |
| References.RemoveRefsIdempotent | controllers/controller.js:168 | Filtering the same id twice gives the result of filtering it once. |
| References.RemoveRefsIds | controllers/controller.js:168 | After the filter, the referenced ids are the ones before it minus the filtered id. |
| References.RemoveRefsRefers | controllers/controller.js:168 | A record is still referenced after the filter exactly when it was referenced before and its id is not the filtered one. |
| References.Resolve | controllers/controller.js:184-189 | A reference resolves only when its model name is in the enum. The record it yields comes from the collection that name selects. It yields nothing when that collection lacks the id. |
| References.DeleteOne | controllers/controller.js:207-212 | One loop step deletes the record from the collection the reference's model name selects, or is skipped for an unknown name. Nothing else changes. |
| References.DeleteAllSpec | controllers/controller.js:206-213 | After the loop, a record is gone exactly when some reference pointed at it through its own collection. Every other record is untouched, and missing records and unknown names cause no error. |
| References.Project | controllers/controller.js:182-192 | The listing is never longer than the reference list, and every item is the record its own id and model name resolve to. |
| References.ProjectKeepsOrder | controllers/controller.js:182-192 | The listing is a subsequence of the references, in their order. |
| References.ProjectComplete | controllers/controller.js:187-190 | Every reference that resolves appears in the listing with its id, model name and record. |
| References.ProjectAllResolved | controllers/controller.js:182-192 | When every reference resolves, the listing has one item per reference, in the same order. |
| Invariants.NewRef | controllers/controller.js:91 | A reference created for a new record carries a model name in the enum, and that name selects the record's own collection. |
| Invariants.LocateSound | controllers/controller.js:104-112 | While every reference resolves, the per-question handlers never reach the unknown-model branch, and a found reference always finds its record. |
| Invariants.SoundAfterAppend | controllers/controller.js:90-92 | Saving a record under a fresh id and appending its reference keeps every reference resolving. It also keeps every id referenced by only one quiz. |
| Invariants.OwnedAfterAppend | controllers/controller.js:90-92 | The same paired write leaves no record that no quiz references. |
| Invariants.SoundAfterRewrite | controllers/controller.js:142-146 | Overwriting an existing record in its own collection keeps every reference resolving. |
| Invariants.OwnedAfterRewrite | controllers/controller.js:142-146 | Overwriting an existing record creates no unreferenced record. |
| Invariants.SoundAfterRemove | controllers/controller.js:166-169 | Deleting a record and filtering its id out of the one quiz that references it keeps every remaining reference resolving. |
| Invariants.OwnedAfterRemove | controllers/controller.js:166-169 | The same paired delete leaves no unreferenced record. |
| Invariants.SoundAfterDrop | controllers/controller.js:206-215 | Deleting every record a quiz references and clearing its list keeps every other quiz's references resolving. |
| Invariants.OwnedAfterDrop | controllers/controller.js:206-215 | The same drop leaves no unreferenced record. |
| Invariants.SoundWithNewQuiz | controllers/controller.js:11-12 | Adding a quiz with no references keeps every reference resolving. |
| Invariants.OwnedWithNewQuiz | controllers/controller.js:11-12 | Adding a quiz under a new id leaves no unreferenced record. |
| Invariants.SoundWithSameRefs | controllers/controller.js:44-48 | Rewriting a quiz without changing its reference list keeps every reference resolving. |
| Invariants.OwnedWithSameRefs | controllers/controller.js:44-48 | Rewriting a quiz without changing its reference list leaves no unreferenced record. |
| Invariants.SoundWithoutQuiz | controllers/controller.js:59 | Removing a quiz keeps every remaining reference resolving. |
| Invariants.OwnedWithoutEmptyQuiz | controllers/controller.js:59 | Removing a quiz that references nothing leaves no unreferenced record. |
| Invariants.RemovingQuizOrphansRecords | controllers/controller.js:59-62 | Removing a quiz that references some record, while keeping the records, leaves that record unreferenced. |
| Invariants.CascadeKeepsInvariants | controllers/controller.js:59-62 | Removing a quiz together with every record it references keeps both invariants. |
| Controller.Build | controllers/controller.js:78-86 | The record built for a kind lies in that kind's collection, and its `type` is the schema default, which equals the request tag. |
| Controller.BuildFields | controllers/controller.js:79-85 | Each field of the built record is the body's field of the same name. An absent options or answers list is stored as empty, and a field the variant lacks stays absent. |
| Controller.BuildUsesOwnFields | controllers/controller.js:79-85 | The record depends only on the body fields its variant takes. A text record never receives options or a list of answers. |
| Controller.McqBuildValid | models/questionTypes/mcqQuestion.js:5-9 | An MCQ body passes the schema exactly when `text` and `correctAnswer` are present and no option is empty. Absent options and an absent explanation never fail. |
| Controller.MsqBuildValid | models/questionTypes/msqQuestion.js:5-9 | An MSQ body passes the schema exactly when `text` is present and no option and no answer is empty. Absent lists and an absent explanation never fail. |
| Controller.TextBuildValid | models/questionTypes/textQuestion.js:4-10 | A text body passes the schema exactly when `text` is present. `correctAnswer` and `explanation` are optional. |
| Controller.McqAnswerUnconstrained | models/questionTypes/mcqQuestion.js:7-8 | Any non-empty answer is accepted next to valid options, so the answer need not be an option. |
| Controller.MsqAnswersUnconstrained | models/questionTypes/msqQuestion.js:7-8 | Any list of non-empty answers is accepted next to valid options, so the answers need not be a subset of the options. |
| Controller.Patch | controllers/controller.js:127-138 | An update keeps the record's variant and its stored `type`. |
| Controller.PatchFields | controllers/controller.js:127-146 | Field by field, a field of the stored variant that the body supplies takes the body's value, and one the body leaves out keeps its stored value. A field the variant lacks stays absent. |
| Controller.PatchUsesOwnFields | controllers/controller.js:127-138 | An update reads only the body fields of the stored variant. |
| Controller.PatchIdempotent | controllers/controller.js:142-146 | Applying the same partial update twice gives the result of applying it once. |
| Controller.PatchNothing | controllers/controller.js:142-146 | An update that sets no field leaves the record unchanged. |
| Controller.QuizService.SaveQuestion | controllers/controller.js:90 | A record is stored exactly when it passes its schema. It is stored under a fresh id, and a refused record changes nothing. |
| Controller.QuizService.SaveQuiz | controllers/controller.js:12 | A quiz is stored exactly when it passes its schema. It is stored under a fresh id, and a refused quiz changes nothing. |
| Controller.QuizService.FindByIdAndDelete | controllers/controller.js:166 | Returns the record that was stored and deletes it from exactly that collection. An absent record changes nothing. |
| Controller.QuizService.FindByIdAndUpdate | controllers/controller.js:142-147 | A missing record gives nothing and no change. Otherwise the merged record replaces it in place and is returned. |
| Controller.QuizService.DeleteReferenced | controllers/controller.js:206-213 | The loop leaves the collections as `DeleteAll` of the reference list says, and changes no quiz. |
| Controller.QuizService.CreateQuiz | controllers/controller.js:8-17 | Created exactly when a title is present, with the given title and description and an empty reference list, under a new id. Otherwise BadRequest and no change. Both invariants are kept. |
| Controller.QuizService.GetAllQuizzes | controllers/controller.js:20-27 | Returns every stored quiz and changes nothing. |
| Controller.QuizService.GetQuizById | controllers/controller.js:30-38 | Ok with the stored quiz exactly when it exists, otherwise NotFound. |
| Controller.QuizService.UpdateQuiz | controllers/controller.js:41-54 | A missing quiz gives NotFound with no change. Otherwise only the title and the description are merged, the reference list is kept, and no question collection changes. |
| Controller.QuizService.DeleteQuiz | controllers/controller.js:57-67 | As written. A missing quiz gives NotFound with no change. An existing quiz is removed, the result is ServerError, and every question collection is unchanged. Under the integrity invariant, a quiz with references leaves unreferenced records behind. |
| Controller.QuizService.DeleteQuizCascade | controllers/controller.js:57-67 | As intended. The quiz is removed and every record it references is deleted through its own collection. The result is Ok, and both invariants are kept. |
| Controller.QuizService.CreateQuestion | controllers/controller.js:72-97 | A missing quiz gives NotFound first, then an unknown tag gives BadRequest, then a record failing its schema gives BadRequest; each leaves everything unchanged. Success stores exactly one record under a fresh id in the tag's collection and appends exactly one reference to it at the end of that quiz's list. Nothing else changes, and both invariants are kept. |
| Controller.QuizService.GetQuestionById | controllers/controller.js:100-117 | The four outcomes of `Locate` map to their responses, followed by the record lookup in the collection the first matching reference names. A returned record is referenced by the quiz. Under the integrity invariant, every referenced id is found. |
| Controller.QuizService.UpdateQuestion | controllers/controller.js:120-152 | The same lookup, each failure with no change. On success, only the stored record's own fields are merged, in its own collection, and no reference list changes. Both invariants are kept. |
| Controller.QuizService.DeleteQuestion | controllers/controller.js:155-174 | The same lookup, each failure with no change. An absent record gives NotFound before the filter runs. Otherwise the record is deleted from exactly its collection and every reference to its id leaves the quiz. Both invariants are kept. |
| Controller.QuizService.Unlink | controllers/controller.js:166-169 | The paired delete of deleteQuestion, with both invariants kept. |
| Controller.QuizService.GetQuestions | controllers/controller.js:177-196 | NotFound for a missing quiz, otherwise the projection of its references, changing nothing. Under the integrity invariant, the listing has exactly the quiz's references, in order. |
| Controller.QuizService.DropQuestions | controllers/controller.js:201-220 | A missing quiz gives NotFound with no change. Otherwise every referenced record is deleted best-effort and the quiz's list is cleared. Other quizzes are unchanged, and both invariants are kept. |
| Scenarios.AddListDeleteQuestion | controllers/controller.js:72-196 | Create a quiz, add one MCQ, list the questions, delete the MCQ, then fetch it. The listing has one entry, the list ends empty, and the final fetch gives NotFound. |
| Scenarios.CreateWithUnknownTag | controllers/controller.js:87-89 | A tag outside the three short tags is refused with BadRequest before anything is stored. |
| Scenarios.DeleteQuizLeavesRecord | controllers/controller.js:59-65 | deleteQuiz as written on a quiz with one question answers 500 and leaves the record stored. |
| Scenarios.DeleteQuizCascadeRemovesRecord | controllers/controller.js:59-63 | The corrected deleteQuiz on the same state answers 200 and the record is gone. |

## Left out

- service.js and router/route.js are not part of this model. They hold the server bootstrap, the database connection and the table of routes; the handlers are called directly.
- `populate('questions')` in getAllQuizzes and getQuizById is not modelled. Those two handlers return the stored quiz, references included.
- Malformed ids are not modelled. There is no ObjectId casting, no CastError and no 400 or 500 answer caused by one; ids are naturals compared with plain equality.
- `createdAt` and its `Date.now` default are not modelled, because they depend on the clock.
- The `Promise.all` in getQuestions is modelled as a sequential map, because the lookups are independent. Concurrency between requests, and the lost updates it allows, are out of scope.
- Controller.QuizService.CreateQuestion: the second write, `quiz.save()` after the record is saved, is modelled as always succeeding. In Mongoose that save re-validates the whole quiz. So a quiz whose title was emptied by updateQuiz would fail it, answer 400 and leave the new record unreferenced. Storage failures between the two writes are left out for the same reason.
- Controller.QuizService.DeleteQuestion: the final `quiz.save()` is modelled as always succeeding, for the same reason.
- Controller.QuizService.DropQuestions: the final `quiz.save()` is modelled as always succeeding, for the same reason.
- Controller.QuizService.UpdateQuiz: does not model the 400 path of a failing update, because no validators run here and only a cast error, which is not modelled, could cause it.
- Documents.Merge: the assumption is that a field left `undefined` in an update document leaves the stored field as it was. This is how the Mongoose driver is taken to behave, not something verified here. Likewise, updates run no schema validation, so an update can clear a required field.
- The text of Mongoose's ValidationError messages is not modelled; every validation failure carries the one message `ValidationFailed`.
- JSON `null` values, and request values of the wrong JSON type, are not modelled: a body field is either absent or a string (or a list of strings).

## Findings

| source | as written | input that shows it | evidently intended | confidence | as-written member | corrected member |
|---|---|---|---|---|---|---|
| controllers/controller.js:62 | `Question` is not imported (only `Quiz` and the three question models are, lines 1-4), so after the quiz is deleted the handler throws a ReferenceError and answers 500 without deleting any question record | a quiz with one MCQ, then DELETE on the quiz (`Scenarios.DeleteQuizLeavesRecord`) | delete every record the quiz references, each from the collection its model name selects, and answer 200 | not executed | Controller.QuizService.DeleteQuiz | Controller.QuizService.DeleteQuizCascade |
