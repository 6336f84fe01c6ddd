/** The relational tables the routers read and write (backend/src/db/models.py),
    and the SQLite query shapes they use. Each table is a sequence in rowid
    order, which is the order an unordered SQLite scan returns. */
module Tables {
  import opened Wrappers
  import opened Seqs

  /** `datetime` values, compared as instants. */
  type Time = int

  /** A row of `documents`. Nullable string columns that the code tests for
      truthiness are options. `original_title` is read and written by the
      crawler router although the ORM class does not declare it. */
  datatype DocumentRow = DocumentRow(
    id: int,
    docId: string,
    url: string,
    title: Option<string>,
    originalTitle: Option<string>,
    content: string,
    sourceType: string,
    downloadedAt: Time,
    lang: string,
    ownerId: Option<int>)

  /** A row of the classification results table. */
  datatype ClassificationRow = ClassificationRow(
    documentId: int,
    userId: int,
    resultJson: string,
    createdAt: Time)

  /** A row of `users`. */
  datatype UserRow = UserRow(
    id: int,
    username: string,
    hashedPassword: string,
    isAdmin: bool,
    createdAt: Time)

  /** A row of `guidelines` with the keyword strings of its `guideline_keywords`
      relation, in relation order. */
  datatype GuidelineRow = GuidelineRow(
    id: int,
    guidelineId: string,
    category: string,
    standard: string,
    controlText: string,
    sourceUrl: string,
    region: string,
    keywords: seq<string>)

  /** The committed state of the database that the routers share. */
  class Database {
    var documents: seq<DocumentRow>
    var results: seq<ClassificationRow>
    var users: seq<UserRow>

    constructor (documents: seq<DocumentRow>, results: seq<ClassificationRow>, users: seq<UserRow>)
      ensures this.documents == documents && this.results == results && this.users == users
    {
      this.documents := documents;
      this.results := results;
      this.users := users;
    }
  }

  /** An `HTTPException` raised by a handler. */
  datatype HttpError = HttpError(statusCode: int, detail: string)

  /** Python truthiness of an optional string: neither None nor "". */
  predicate Truthy(s: Option<string>) {
    s.Some? && s.value != ""
  }

  function RowId(d: DocumentRow): int { d.id }
  function RowDocId(d: DocumentRow): string { d.docId }

  /** `query(DocumentModel).filter(DocumentModel.id == id).first()`, as an index. */
  function IndexOfId(docs: seq<DocumentRow>, id: int): (r: int)
    ensures -1 <= r < |docs|
    ensures r >= 0 ==> docs[r].id == id && forall k :: 0 <= k < r ==> docs[k].id != id
    ensures r == -1 ==> forall k :: 0 <= k < |docs| ==> docs[k].id != id
  {
    FirstIndex(docs, RowId, id)
  }

  /** `query(DocumentModel).filter(DocumentModel.doc_id == docId).first()`, as an index. */
  function IndexOfDocId(docs: seq<DocumentRow>, docId: string): (r: int)
    ensures -1 <= r < |docs|
    ensures r >= 0 ==> docs[r].docId == docId && forall k :: 0 <= k < r ==> docs[k].docId != docId
    ensures r == -1 ==> forall k :: 0 <= k < |docs| ==> docs[k].docId != docId
  {
    FirstIndex(docs, RowDocId, docId)
  }

  /** First row whose `id` equals `id`, if any. */
  function FindById(docs: seq<DocumentRow>, id: int): (r: Option<DocumentRow>)
    ensures r.Some? <==> exists k :: 0 <= k < |docs| && docs[k].id == id
    ensures r.Some? ==> r.value in docs && r.value.id == id
  {
    var k := IndexOfId(docs, id);
    if k == -1 then None else Some(docs[k])
  }

  /** The ids of the documents that have at least one classification result. */
  function ClassifiedIds(results: seq<ClassificationRow>): set<int> {
    set r | r in results :: r.documentId
  }

  /** Where `OFFSET skip` starts in SQLite: a negative offset counts as zero. */
  function OffsetStart(n: nat, skip: int): (s: nat)
    ensures s <= n
  {
    if skip <= 0 then 0 else if skip < n then skip else n
  }

  /** `.offset(skip).limit(limit)` in SQLite: a negative limit means no limit. */
  function Page<T>(xs: seq<T>, skip: int, limit: int): (r: seq<T>)
    ensures var s := OffsetStart(|xs|, skip);
      && s + |r| <= |xs|
      && r == xs[s..s + |r|]
      && |r| == if limit < 0 || |xs| - s <= limit then |xs| - s else limit
  {
    var s := OffsetStart(|xs|, skip);
    if limit < 0 || |xs| - s <= limit then xs[s..] else xs[s..s + limit]
  }
}
