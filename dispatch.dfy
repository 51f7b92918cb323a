/** The dispatch from a question kind to its collection: the request tags
    accepted at creation, the model names stored in references, and the three
    collections as in-memory tables (controllers/controller.js). */
module Dispatch {
  import opened Documents
  import opened QuestionSchemas
  import opened QuizSchema

  /** The three question variants. */
  datatype Kind = McqKind | MsqKind | TextKind

  /** The model name each variant is registered under; a reference stores it
      in `questionModel`. */
  function ModelName(k: Kind): (name: string)
    ensures name in ModelNames
  {
    match k
    case McqKind => "MCQQuestion"
    case MsqKind => "MSQQuestion"
    case TextKind => "TextQuestion"
  }

  /** The short tag a create request names the variant with. */
  function RequestTag(k: Kind): string {
    match k
    case McqKind => "mcq"
    case MsqKind => "msq"
    case TextKind => "text"
  }

  /** The create-time dispatch: only the three short tags are accepted; any
      other value, or none, is an invalid question type. */
  function KindOfRequest(tag: Option<string>): (r: Option<Kind>)
    ensures r.Some? ==> tag == Some(RequestTag(r.value))
    ensures r.None? ==> forall k :: tag != Some(RequestTag(k))
  {
    if tag == Some("mcq") then Some(McqKind)
    else if tag == Some("msq") then Some(MsqKind)
    else if tag == Some("text") then Some(TextKind)
    else None
  }

  /** The lookup-time dispatch from a stored model name: it succeeds exactly
      on the names the quiz schema's enum allows, and inverts `ModelName`. */
  function KindOfModel(name: string): (r: Option<Kind>)
    ensures r.Some? <==> name in ModelNames
    ensures r.Some? ==> ModelName(r.value) == name
    ensures forall k :: ModelName(k) == name ==> r == Some(k)
  {
    if name == "MCQQuestion" then Some(McqKind)
    else if name == "MSQQuestion" then Some(MsqKind)
    else if name == "TextQuestion" then Some(TextKind)
    else None
  }

  /** The variant of a record. */
  function KindOf(q: Question): Kind {
    match q
    case Mcq(_) => McqKind
    case Msq(_) => MsqKind
    case Text(_) => TextKind
  }

  /** The three question collections. */
  datatype QuestionTables = QuestionTables(
    mcq: map<Id, McqQuestion>,
    msq: map<Id, MsqQuestion>,
    text: map<Id, TextQuestion>)

  /** `Model.findById(id)` on the collection of kind `k`. */
  function Get(t: QuestionTables, k: Kind, id: Id): (r: Option<Question>)
    ensures r.Some? ==> KindOf(r.value) == k
  {
    match k
    case McqKind => if id in t.mcq then Some(Mcq(t.mcq[id])) else None
    case MsqKind => if id in t.msq then Some(Msq(t.msq[id])) else None
    case TextKind => if id in t.text then Some(Text(t.text[id])) else None
  }

  /** Writes `q` under `id` in the collection of its own variant; nothing
      else changes. */
  function Put(t: QuestionTables, id: Id, q: Question): (r: QuestionTables)
    ensures forall k, x :: Get(r, k, x) == if k == KindOf(q) && x == id then Some(q) else Get(t, k, x)
  {
    match q
    case Mcq(m) => t.(mcq := t.mcq[id := m])
    case Msq(m) => t.(msq := t.msq[id := m])
    case Text(m) => t.(text := t.text[id := m])
  }

  /** Deletes `id` from the collection of kind `k`; nothing else changes, and
      deleting an absent id changes nothing. */
  function Remove(t: QuestionTables, k: Kind, id: Id): (r: QuestionTables)
    ensures forall k', x :: Get(r, k', x) == if k' == k && x == id then None else Get(t, k', x)
  {
    match k
    case McqKind => t.(mcq := t.mcq - {id})
    case MsqKind => t.(msq := t.msq - {id})
    case TextKind => t.(text := t.text - {id})
  }

  /** No collection holds `id`. */
  predicate Fresh(t: QuestionTables, id: Id) {
    forall k :: Get(t, k, id).None?
  }

  /** No id is stored in two collections, as holds for store-generated ids. */
  ghost predicate Disjoint(t: QuestionTables) {
    forall k1, k2, x :: Get(t, k1, x).Some? && Get(t, k2, x).Some? ==> k1 == k2
  }
}
