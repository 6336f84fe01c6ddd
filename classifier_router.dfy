/** backend/src/classifier/router.py: choosing the documents of a
    classification run, the module-level progress record, the background
    worker that walks the chosen documents, the progress and result reads, and
    the statistics tally.

    The progress record is one value held by `ClassifierService.progress`;
    rebinding the module global is assigning that field. A start is accepted
    whatever the current status, and no path ever sets the status `error`. */
module ClassifierRouter {
  import opened Wrappers
  import opened PyStr
  import opened Seqs
  import opened Json
  import opened Tables
  import Classifier

  // ---------------------------------------------------------------------------
  // Selection (classify_documents)

  datatype ClassificationRequest = ClassificationRequest(
    sectionIds: seq<int>,
    documentIds: seq<int>,
    allDocuments: bool)

  /** The documents handed to the worker, and the titles of the requested
      documents that were skipped because they already have a result. */
  datatype Selection = Selection(documents: seq<DocumentRow>, skipped: seq<string>)

  /** `doc.title or f"Document {doc_id}"`. */
  function SkipLabel(doc: DocumentRow, id: int): (tag: string)
    ensures Truthy(doc.title) ==> tag == doc.title.value
    ensures !Truthy(doc.title) ==> |tag| > 9 && tag[..9] == "Document " && tag[9..] == Decimal(id)
  {
    if Truthy(doc.title) then doc.title.value else "Document " + Decimal(id)
  }

  /** The skip label of a requested id, for an id that names a document. */
  function LabelOf(docs: seq<DocumentRow>, id: int): string {
    match FindById(docs, id)
    case Some(doc) => SkipLabel(doc, id)
    case None => ""
  }

  /** The document ids of a list of rows, in order. */
  function IdsOf(docs: seq<DocumentRow>): (ids: seq<int>)
    ensures |ids| == |docs| && forall k :: 0 <= k < |docs| ==> ids[k] == docs[k].id
  {
    seq(|docs|, k requires 0 <= k < |docs| => docs[k].id)
  }

  /** The `all_documents` query: every document with no classification result. */
  function Unclassified(docs: seq<DocumentRow>, classified: set<int>): seq<DocumentRow> {
    Filter(docs, (d: DocumentRow) => d.id !in classified)
  }

  /** The `section_ids` query: the documents whose id is in the list, in table
      order (the list is compared with document ids). */
  function InSections(docs: seq<DocumentRow>, sectionIds: seq<int>): seq<DocumentRow> {
    Filter(docs, InSection(sectionIds))
  }

  function InSection(sectionIds: seq<int>): DocumentRow -> bool {
    (d: DocumentRow) => d.id in sectionIds
  }

  /** The `document_ids` loop over a prefix of the requested ids. */
  function ExplicitSelection(ids: seq<int>, docs: seq<DocumentRow>, classified: set<int>): (sel: Selection)
    ensures |sel.documents| + |sel.skipped| <= |ids|
  {
    if ids == [] then Selection([], [])
    else
      var prev := ExplicitSelection(ids[..|ids| - 1], docs, classified);
      var id := ids[|ids| - 1];
      match FindById(docs, id)
      case None => prev
      case Some(doc) =>
        if id in classified then Selection(prev.documents, prev.skipped + [SkipLabel(doc, id)])
        else Selection(prev.documents + [doc], prev.skipped)
  }

  /** One more requested id extends the selection of the ids before it. */
  lemma ExplicitSelectionStep(ids: seq<int>, i: int, docs: seq<DocumentRow>, classified: set<int>)
    requires 0 <= i < |ids|
    ensures var prev := ExplicitSelection(ids[..i], docs, classified);
            var doc := FindById(docs, ids[i]);
            ExplicitSelection(ids[..i + 1], docs, classified)
              == if doc.None? then prev
                 else if ids[i] in classified then Selection(prev.documents, prev.skipped + [SkipLabel(doc.value, ids[i])])
                 else Selection(prev.documents + [doc.value], prev.skipped)
  {
    assert ids[..i + 1][..i] == ids[..i];
  }

  /** The three selection rules in their order of precedence. */
  function Select(req: ClassificationRequest, docs: seq<DocumentRow>, results: seq<ClassificationRow>): (sel: Selection)
    ensures sel.skipped != [] ==> !req.allDocuments && req.documentIds != []
    ensures req.allDocuments || req.documentIds == [] ==> |sel.documents| <= |docs|
  {
    var classified := ClassifiedIds(results);
    if req.allDocuments then Selection(Unclassified(docs, classified), [])
    else if req.documentIds != [] then ExplicitSelection(req.documentIds, docs, classified)
    else if req.sectionIds != [] then Selection(InSections(docs, req.sectionIds), [])
    else Selection([], [])
  }

  /** Lines 61-84 of the handler, with the loop over `document_ids`. */
  method SelectDocuments(req: ClassificationRequest, docs: seq<DocumentRow>, results: seq<ClassificationRow>)
    returns (sel: Selection)
    ensures sel == Select(req, docs, results)
  {
    var classified := ClassifiedIds(results);
    var documents: seq<DocumentRow> := [];
    var alreadyClassified: seq<string> := [];
    if req.allDocuments {
      documents := Unclassified(docs, classified);
    } else if req.documentIds != [] {
      var ids := req.documentIds;
      var i := 0;
      while i < |ids|
        invariant 0 <= i <= |ids|
        invariant Selection(documents, alreadyClassified) == ExplicitSelection(ids[..i], docs, classified)
      {
        ExplicitSelectionStep(ids, i, docs, classified);
        var docId := ids[i];
        var doc := FindById(docs, docId);
        if doc.Some? {
          if docId in classified {
            alreadyClassified := alreadyClassified + [SkipLabel(doc.value, docId)];
          } else {
            documents := documents + [doc.value];
          }
        }
        i := i + 1;
      }
      assert ids[..i] == ids;
    } else if req.sectionIds != [] {
      documents := InSections(docs, req.sectionIds);
    }
    sel := Selection(documents, alreadyClassified);
  }

  /** Requested ids that name an existing, not yet classified document. */
  predicate Eligible(docs: seq<DocumentRow>, classified: set<int>, id: int) {
    FindById(docs, id).Some? && id !in classified
  }

  /** Requested ids that name an existing document that already has a result. */
  predicate AlreadyDone(docs: seq<DocumentRow>, classified: set<int>, id: int) {
    FindById(docs, id).Some? && id in classified
  }

  function EligibleIds(ids: seq<int>, docs: seq<DocumentRow>, classified: set<int>): seq<int> {
    Filter(ids, id => Eligible(docs, classified, id))
  }

  function AlreadyDoneIds(ids: seq<int>, docs: seq<DocumentRow>, classified: set<int>): seq<int> {
    Filter(ids, id => AlreadyDone(docs, classified, id))
  }

  /** With `document_ids`, the selected documents are the eligible requested
      ids, in request order and with every repetition. */
  lemma {:induction false} ExplicitSelectionOrder(ids: seq<int>, docs: seq<DocumentRow>, classified: set<int>)
    ensures IdsOf(ExplicitSelection(ids, docs, classified).documents) == EligibleIds(ids, docs, classified)
  {
    if ids != [] {
      var front := ids[..|ids| - 1];
      var id := ids[|ids| - 1];
      ExplicitSelectionOrder(front, docs, classified);
      assert ids == front + [id];
      FilterAppend(front, [id], id => Eligible(docs, classified, id));
      var prev := ExplicitSelection(front, docs, classified);
      match FindById(docs, id)
      case None =>
      case Some(doc) =>
        if id !in classified {
          assert IdsOf(prev.documents + [doc]) == IdsOf(prev.documents) + [doc.id];
        }
    }
  }

  /** One skip label per requested id of an already classified document, in
      request order: the document's title, or `Document <id>` without one. */
  lemma {:induction false} ExplicitSelectionSkips(ids: seq<int>, docs: seq<DocumentRow>, classified: set<int>)
    ensures |ExplicitSelection(ids, docs, classified).skipped| == |AlreadyDoneIds(ids, docs, classified)|
    ensures var done := AlreadyDoneIds(ids, docs, classified);
            forall k :: 0 <= k < |done| ==> ExplicitSelection(ids, docs, classified).skipped[k] == LabelOf(docs, done[k])
  {
    if ids != [] {
      var front := ids[..|ids| - 1];
      var id := ids[|ids| - 1];
      ExplicitSelectionSkips(front, docs, classified);
      assert ids == front + [id];
      var p := id => AlreadyDone(docs, classified, id);
      FilterAppend(front, [id], p);
      assert [id][..0] == [];
    }
  }

  /** Every selected document exists and has no result. */
  lemma {:induction false} ExplicitSelectionSound(ids: seq<int>, docs: seq<DocumentRow>, classified: set<int>)
    ensures forall d :: d in ExplicitSelection(ids, docs, classified).documents ==> d in docs && d.id !in classified
  {
    if ids != [] {
      ExplicitSelectionSound(ids[..|ids| - 1], docs, classified);
    }
  }

  /** With `document_ids`, the selection keeps the requested order and every
      repetition, drops ids with no document, and moves already classified
      documents to the skipped list, one label per requested id: the title, or
      `Document <id>` for a document without one. */
  lemma ExplicitSelectionKeepsRequestOrder(ids: seq<int>, docs: seq<DocumentRow>, classified: set<int>)
    ensures IdsOf(ExplicitSelection(ids, docs, classified).documents) == EligibleIds(ids, docs, classified)
    ensures |ExplicitSelection(ids, docs, classified).skipped| == |AlreadyDoneIds(ids, docs, classified)|
    ensures var done := AlreadyDoneIds(ids, docs, classified);
            forall k :: 0 <= k < |done| ==>
              FindById(docs, done[k]).Some? && ExplicitSelection(ids, docs, classified).skipped[k] == SkipLabel(FindById(docs, done[k]).value, done[k])
    ensures forall d :: d in ExplicitSelection(ids, docs, classified).documents ==> d in docs && d.id !in classified
  {
    ExplicitSelectionOrder(ids, docs, classified);
    ExplicitSelectionSkips(ids, docs, classified);
    ExplicitSelectionSound(ids, docs, classified);
  }

  /** `all_documents` wins over both lists, `document_ids` wins over
      `section_ids`, and with neither list nothing is selected. */
  lemma SelectionPrecedence(req: ClassificationRequest, docs: seq<DocumentRow>, results: seq<ClassificationRow>)
    ensures req.allDocuments ==>
              Select(req, docs, results) == Selection(Unclassified(docs, ClassifiedIds(results)), [])
    ensures !req.allDocuments && req.documentIds != [] ==>
              Select(req, docs, results) == Select(req.(sectionIds := []), docs, results)
    ensures !req.allDocuments && req.documentIds == [] ==>
              Select(req, docs, results) == Selection(InSections(docs, req.sectionIds), [])
  {
    FilterNone(docs, InSection([]));
  }

  /** Every document of an `all_documents` run exists and has no result. */
  lemma AllDocumentsSelectsUnclassified(docs: seq<DocumentRow>, results: seq<ClassificationRow>, d: DocumentRow)
    ensures d in Unclassified(docs, ClassifiedIds(results)) <==>
              d in docs && forall r :: r in results ==> r.documentId != d.id
  {
  }

  // ---------------------------------------------------------------------------
  // The progress record

  /** The values the comment on `status` lists; `Error` is never assigned. */
  datatype Status = Idle | Initializing | InProgress | Completed | Error

  function StatusText(s: Status): string {
    match s
    case Idle => "idle"
    case Initializing => "initializing"
    case InProgress => "in_progress"
    case Completed => "completed"
    case Error => "error"
  }

  datatype Progress = Progress(
    totalDocuments: nat,
    processedDocuments: nat,
    status: Status,
    startedAt: Option<Time>,
    completedAt: Option<Time>)

  const IdleProgress: Progress := Progress(0, 0, Idle, None, None)

  const Frameworks: seq<string> := ["NIST_CSF", "IEC_62443"]

  const SkippedMessagePrefix: string := "次のドキュメントは既に分類されているためスキップされました: "

  /** The fields the start handler passes to `ClassificationResult`. */
  datatype StartResponse = StartResponse(
    processedCount: nat,
    frameworks: seq<string>,
    skippedDocuments: seq<string>,
    message: Option<string>,
    totalCount: nat,
    currentCount: nat,
    status: string)

  /** The fields the progress handler passes to `ClassificationResult`. */
  datatype ProgressResponse = ProgressResponse(
    processedCount: nat,
    frameworks: seq<string>,
    totalCount: nat,
    currentCount: nat,
    status: string)

  function SkippedMessage(skipped: seq<string>): (m: Option<string>)
    ensures m.Some? <==> skipped != []
  {
    if skipped == [] then None else Some(SkippedMessagePrefix + Join(", ", skipped))
  }

  // ---------------------------------------------------------------------------
  // One document of the background run

  /** What the worker cannot see: the classifier's answer at each step, the
      serialiser, the clock and whether each commit succeeds. */
  datatype WorkerEnv = WorkerEnv(
    classifyAt: nat -> string -> Result<Classifier.Report, Classifier.ClassifyError>,
    dumps: Classifier.Report -> string,
    clock: nat -> Time,
    commitOk: nat -> bool)

  /** The environment of a real run: at step `idx` the worker calls
      `classify_document` with the model's behaviour at that step, the default
      keyword settings and that step's timestamp. */
  function RunEnv(llmAt: nat -> Classifier.Llm, timestampAt: nat -> string, dumps: Classifier.Report -> string,
                  clock: nat -> Time, commitOk: nat -> bool): WorkerEnv
  {
    WorkerEnv(
      (idx: nat) => (content: string) => Classifier.ClassifyDocument(llmAt(idx), content,
        Classifier.DefaultMinKeywordLength, Classifier.DefaultMaxKeywords, timestampAt(idx)),
      dumps, clock, commitOk)
  }

  /** The row committed for the document at position `idx`, or None when the
      document is missing, classification raises or the commit fails. */
  function Attempt(docs: seq<DocumentRow>, docId: int, idx: nat, userId: int, env: WorkerEnv): (r: Option<ClassificationRow>)
    ensures r.Some? <==>
              FindById(docs, docId).Some? && env.classifyAt(idx)(FindById(docs, docId).value.content).Ok? && env.commitOk(idx)
    ensures r.Some? ==>
              r.value == ClassificationRow(docId, userId, env.dumps(env.classifyAt(idx)(FindById(docs, docId).value.content).value),
                                           env.clock(idx))
  {
    match FindById(docs, docId)
    case None => None
    case Some(doc) =>
      var report := env.classifyAt(idx)(doc.content);
      if report.Ok? && env.commitOk(idx) then
        Some(ClassificationRow(docId, userId, env.dumps(report.value), env.clock(idx)))
      else None
  }

  /** In a real run, the document at position `idx` commits exactly when it
      exists, `classify_document` with the default keyword settings returns a
      report for its content, and the commit succeeds; the row then holds the
      serialised report, whose timestamp is that step's. */
  lemma RunEnvAttempt(docs: seq<DocumentRow>, docId: int, idx: nat, userId: int,
                      llmAt: nat -> Classifier.Llm, timestampAt: nat -> string, dumps: Classifier.Report -> string,
                      clock: nat -> Time, commitOk: nat -> bool)
    ensures var r := Attempt(docs, docId, idx, userId, RunEnv(llmAt, timestampAt, dumps, clock, commitOk));
            var report := if FindById(docs, docId).Some?
                          then Classifier.ClassifyDocument(llmAt(idx), FindById(docs, docId).value.content,
                                 Classifier.DefaultMinKeywordLength, Classifier.DefaultMaxKeywords, timestampAt(idx))
                          else Err(Classifier.LlmCallFailed);
            && (r.Some? <==> FindById(docs, docId).Some? && report.Ok? && commitOk(idx))
            && (r.Some? ==> r.value == ClassificationRow(docId, userId, dumps(report.value), clock(idx))
                            && report.value.timestamp == timestampAt(idx))
  {
  }

  function Attempts(ids: seq<int>, docs: seq<DocumentRow>, userId: int, env: WorkerEnv): (outs: seq<Option<ClassificationRow>>)
    ensures |outs| == |ids|
  {
    seq(|ids|, k requires 0 <= k < |ids| => Attempt(docs, ids[k], k, userId, env))
  }

  /** The rows committed over a run, in order. */
  function Committed(outs: seq<Option<ClassificationRow>>): seq<ClassificationRow> {
    if outs == [] then []
    else Committed(outs[..|outs| - 1]) + (if outs[|outs| - 1].Some? then [outs[|outs| - 1].value] else [])
  }

  /** The values written to `processed_documents` over a run: `idx + 1` for
      each document that commits. */
  function ProgressWrites(outs: seq<Option<ClassificationRow>>): seq<nat> {
    if outs == [] then []
    else ProgressWrites(outs[..|outs| - 1]) + (if outs[|outs| - 1].Some? then [|outs|] else [])
  }

  /** `processed_documents` after a series of writes. */
  function LastWrite(before: nat, writes: seq<nat>): nat {
    if writes == [] then before else writes[|writes| - 1]
  }

  lemma WorkerStart(outs: seq<Option<ClassificationRow>>, before: nat)
    ensures Committed(outs[..0]) == [] && LastWrite(before, ProgressWrites(outs[..0])) == before
  {
    assert outs[..0] == [];
  }

  /** One more document of the run. */
  lemma WorkerStep(outs: seq<Option<ClassificationRow>>, idx: int)
    requires 0 <= idx < |outs|
    ensures Committed(outs[..idx + 1]) == Committed(outs[..idx]) + (if outs[idx].Some? then [outs[idx].value] else [])
    ensures ProgressWrites(outs[..idx + 1]) == ProgressWrites(outs[..idx]) + (if outs[idx].Some? then [idx + 1] else [])
  {
    assert outs[..idx + 1][..idx] == outs[..idx];
  }

  lemma LastWriteBounded(before: nat, writes: seq<nat>, bound: nat)
    requires before <= bound && forall n :: n in writes ==> n <= bound
    ensures LastWrite(before, writes) <= bound
  {
    if writes != [] {
      assert writes[|writes| - 1] in writes;
    }
  }

  /** The writes strictly increase, stay within the run, and are exactly the
      positions (plus one) of the documents that committed. */
  lemma {:induction false} ProgressWritesFacts(outs: seq<Option<ClassificationRow>>)
    ensures forall i, j :: 0 <= i < j < |ProgressWrites(outs)| ==> ProgressWrites(outs)[i] < ProgressWrites(outs)[j]
    ensures forall n :: n in ProgressWrites(outs) <==> 1 <= n <= |outs| && outs[n - 1].Some?
    ensures |Committed(outs)| == |ProgressWrites(outs)|
  {
    if outs != [] {
      var front := outs[..|outs| - 1];
      ProgressWritesFacts(front);
      var w := ProgressWrites(front);
      assert forall k :: 0 <= k < |front| ==> front[k] == outs[k];
      assert forall k :: 0 <= k < |w| ==> w[k] in w;
    }
  }

  /** After a run that started from 0, `processed_documents` is 0 exactly when
      no document committed, and otherwise one past the last that did. */
  lemma {:induction false} ProcessedIsLastSuccess(outs: seq<Option<ClassificationRow>>)
    ensures var p := LastWrite(0, ProgressWrites(outs));
      && p <= |outs|
      && (p == 0 <==> forall i :: 0 <= i < |outs| ==> outs[i].None?)
      && (p > 0 ==> outs[p - 1].Some? && forall i :: p <= i < |outs| ==> outs[i].None?)
  {
    if outs != [] {
      var front := outs[..|outs| - 1];
      ProcessedIsLastSuccess(front);
      ProgressWritesFacts(front);
      assert forall i :: 0 <= i < |front| ==> front[i] == outs[i];
    }
  }

  /** A run whose last document commits leaves `processed_documents` at its own
      length, whatever the record held: a run of three documents started
      before a later start of one leaves the count at 3 against a total of 1. */
  lemma {:induction false} StaleRunOvershoots(outs: seq<Option<ClassificationRow>>, before: nat)
    requires outs != [] && outs[|outs| - 1].Some?
    ensures LastWrite(before, ProgressWrites(outs)) == |outs|
  {
  }

  /** A failed document does not stop the run: every document that commits,
      before or after a failure, has its row in the table. */
  lemma {:induction false} EveryCommitIsKept(outs: seq<Option<ClassificationRow>>, i: int)
    requires 0 <= i < |outs| && outs[i].Some?
    ensures outs[i].value in Committed(outs)
  {
    if i < |outs| - 1 {
      EveryCommitIsKept(outs[..|outs| - 1], i);
    }
  }

  // ---------------------------------------------------------------------------
  // The service: start, background run, progress read

  class ClassifierService {
    /** `classification_progress`. */
    var progress: Progress
    /** The document ids of the last accepted start. */
    ghost var job: seq<int>

    /** The record always counts the last start's documents and never holds
        `error`. Nothing bounds `processed_documents` by the total: a worker of
        an earlier start writes into the record of a later one. */
    ghost predicate Valid()
      reads this
    {
      && progress.status != Error
      && progress.totalDocuments == |job|
    }

    constructor ()
      ensures Valid() && progress == IdleProgress && job == []
    {
      progress := IdleProgress;
      job := [];
    }

    /** `classify_documents`: select, refuse an empty selection before the
        record is touched, otherwise reset the record without looking at its
        current status and return the ids for the worker. */
    method ClassifyDocuments(req: ClassificationRequest, db: Database, now: Time)
      returns (r: Result<StartResponse, HttpError>, task: seq<int>)
      requires Valid()
      modifies this
      ensures Valid()
      ensures var sel := Select(req, old(db.documents), old(db.results));
        if sel.documents == [] then
          && r == Err(HttpError(404, "No documents found for classification"))
          && task == []
          && progress == old(progress) && job == old(job)
        else
          && task == IdsOf(sel.documents) && job == task
          && progress == Progress(|sel.documents|, 0, Initializing, Some(now), None)
          && r == Ok(StartResponse(|sel.documents|, Frameworks, sel.skipped, SkippedMessage(sel.skipped),
                                   |sel.documents|, 0, "initializing"))
    {
      var sel := SelectDocuments(req, db.documents, db.results);
      if sel.documents == [] {
        r := Err(HttpError(404, "No documents found for classification"));
        task := [];
        return;
      }
      task := IdsOf(sel.documents);
      job := task;
      progress := Progress(|sel.documents|, 0, Initializing, Some(now), None);
      r := Ok(StartResponse(|sel.documents|, Frameworks, sel.skipped, SkippedMessage(sel.skipped),
                            |sel.documents|, 0, "initializing"));
    }

    /** `classify_documents_background` for the ids of some start, which need
        not be the last: status `in_progress`, then for each document either a
        committed row and `processed_documents = idx + 1`, or a skip/rollback;
        finally `completed`. Every write goes to the record as it is now. */
    method ClassifyDocumentsBackground(documents: seq<int>, db: Database, userId: int, env: WorkerEnv, finishedAt: Time)
      requires Valid()
      modifies this, db
      ensures Valid() && job == old(job)
      ensures old(progress.processedDocuments) <= |documents| ==> progress.processedDocuments <= |documents|
      ensures var outs := Attempts(documents, old(db.documents), userId, env);
        && progress == old(progress).(status := Completed,
                                      processedDocuments := LastWrite(old(progress.processedDocuments), ProgressWrites(outs)),
                                      completedAt := Some(finishedAt))
        && db.results == old(db.results) + Committed(outs)
      ensures db.documents == old(db.documents) && db.users == old(db.users)
    {
      ghost var outs := Attempts(documents, db.documents, userId, env);
      progress := progress.(status := InProgress);
      var idx := 0;
      WorkerStart(outs, old(progress.processedDocuments));
      while idx < |documents|
        invariant 0 <= idx <= |documents|
        invariant db.documents == old(db.documents) && db.users == old(db.users) && job == old(job)
        invariant progress == old(progress).(status := InProgress,
                    processedDocuments := LastWrite(old(progress.processedDocuments), ProgressWrites(outs[..idx])))
        invariant db.results == old(db.results) + Committed(outs[..idx])
      {
        WorkerStep(outs, idx);
        var row := Attempt(db.documents, documents[idx], idx, userId, env);
        if row.Some? {
          db.results := db.results + [row.value];
          progress := progress.(processedDocuments := idx + 1);
        }
        idx := idx + 1;
      }
      assert outs[..idx] == outs;
      ProgressWritesFacts(outs);
      if old(progress.processedDocuments) <= |outs| {
        LastWriteBounded(old(progress.processedDocuments), ProgressWrites(outs), |outs|);
      }
      progress := progress.(status := Completed, completedAt := Some(finishedAt));
    }

    /** `get_classification_progress`: the counters as the record holds them,
        with its status text; a poller never sees `error`. The current count
        can exceed the total (see `StaleRunOvershoots`). */
    function GetProgress(): (r: ProgressResponse)
      reads this
      ensures r.processedCount == progress.totalDocuments
      ensures r.totalCount == progress.totalDocuments && r.currentCount == progress.processedDocuments
      ensures r.status == StatusText(progress.status)
      ensures Valid() ==> r.status != "error"
    {
      ProgressResponse(progress.totalDocuments, Frameworks, progress.totalDocuments,
                       progress.processedDocuments, StatusText(progress.status))
    }
  }

  // ---------------------------------------------------------------------------
  // get_classification_results

  /** The most recent result for a document (`order_by(created_at.desc()).first()`);
      among equal timestamps the earliest row is taken. */
  function LatestResultFor(results: seq<ClassificationRow>, documentId: int): (r: Option<ClassificationRow>)
    ensures r.None? <==> forall x :: x in results ==> x.documentId != documentId
    ensures r.Some? ==> r.value in results && r.value.documentId == documentId
    ensures r.Some? ==> forall x :: x in results && x.documentId == documentId ==> x.createdAt <= r.value.createdAt
  {
    if results == [] then None
    else
      var prev := LatestResultFor(results[..|results| - 1], documentId);
      var last := results[|results| - 1];
      assert results == results[..|results| - 1] + [last];
      if last.documentId != documentId then prev
      else if prev.Some? && prev.value.createdAt >= last.createdAt then prev
      else Some(last)
  }

  datatype ResultView =
    | NotClassified(documentId: int, title: Option<string>)
    | ClassifiedResult(documentId: int, title: Option<string>, createdAt: Time, result: Json)
    | ResultParseError(documentId: int, title: Option<string>)

  /** `get_classification_results(document_id)`. */
  function GetClassificationResults(docs: seq<DocumentRow>, results: seq<ClassificationRow>, documentId: int,
                                    loads: string -> Option<Json>): (r: Result<ResultView, HttpError>)
    ensures r.Err? <==> FindById(docs, documentId).None?
    ensures r.Ok? && r.value.NotClassified? <==> r.Ok? && forall x :: x in results ==> x.documentId != documentId
    ensures r.Ok? ==> r.value.documentId == documentId && r.value.title == FindById(docs, documentId).value.title
    ensures r.Ok? && !r.value.NotClassified? ==>
              var row := LatestResultFor(results, documentId).value;
              && (r.value.ClassifiedResult? <==> loads(row.resultJson).Some?)
              && (r.value.ClassifiedResult? ==> r.value.createdAt == row.createdAt && r.value.result == loads(row.resultJson).value)
  {
    match FindById(docs, documentId)
    case None => Err(HttpError(404, "Document not found"))
    case Some(doc) =>
      match LatestResultFor(results, documentId)
      case None => Ok(NotClassified(documentId, doc.title))
      case Some(row) =>
        match loads(row.resultJson)
        case Some(result) => Ok(ClassifiedResult(documentId, doc.title, row.createdAt, result))
        case None => Ok(ResultParseError(documentId, doc.title))
  }

  // ---------------------------------------------------------------------------
  // get_classification_stats

  const NistCategories: seq<string> := ["ID", "PR", "DE", "RS", "RC"]
  const IecRequirements: seq<string> := ["FR1", "FR2", "FR3", "FR4", "FR5", "FR6", "FR7"]

  /** `"frameworks" in result and framework in result["frameworks"]`, then
      `field in sub and sub[field] in keys`, with Python's `in` and `[]` on
      whatever JSON the row holds. Ok(Some(k)): counter `k` is incremented. */
  function PrimaryKey(result: Json, framework: string, field: string, keys: seq<string>): (r: Result<Option<string>, PyError>)
    ensures r.Ok? && r.value.Some? ==> r.value.value in keys
  {
    var hasFrameworks :- In("frameworks", result);
    if !hasFrameworks then Ok(None)
    else
      var frameworks :- GetItem(result, "frameworks");
      var hasFramework :- In(framework, frameworks);
      if !hasFramework then Ok(None)
      else
        var sub :- GetItem(frameworks, framework);
        var hasField :- In(field, sub);
        if !hasField then Ok(None)
        else
          var v :- GetItem(sub, field);
          if !Hashable(v) then Err(TypeError)
          else if v.JStr? && v.s in keys then Ok(Some(v.s))
          else Ok(None)
  }

  /** What one row adds to the two counters. An exception in the NIST part
      skips the IEC part; one in the IEC part keeps the NIST increment. */
  datatype Contribution = Contribution(nist: Option<string>, iec: Option<string>)

  function ContributionOf(row: ClassificationRow, loads: string -> Option<Json>): Contribution {
    match loads(row.resultJson)
    case None => Contribution(None, None)
    case Some(result) =>
      match PrimaryKey(result, "NIST_CSF", "primary_category", NistCategories)
      case Err(_) => Contribution(None, None)
      case Ok(n) =>
        match PrimaryKey(result, "IEC_62443", "primary_requirement", IecRequirements)
        case Err(_) => Contribution(n, None)
        case Ok(i) => Contribution(n, i)
  }

  /** `ContributionOf` with the parser fixed. */
  function Contributions(loads: string -> Option<Json>): ClassificationRow -> Contribution {
    row => ContributionOf(row, loads)
  }

  function DocIds(rows: seq<ClassificationRow>): set<int> {
    set r | r in rows :: r.documentId
  }

  /** The rows the tally looks at: the first row of each document. The id is
      marked seen before the row is parsed, so an unparsable first row still
      hides the later ones. */
  function FirstPerDocument(rows: seq<ClassificationRow>): seq<ClassificationRow> {
    if rows == [] then []
    else
      var front := rows[..|rows| - 1];
      var last := rows[|rows| - 1];
      if last.documentId in DocIds(front) then FirstPerDocument(front) else FirstPerDocument(front) + [last]
  }

  function Zeros(keys: seq<string>): (m: map<string, nat>)
    ensures forall k :: k in m <==> k in keys
  {
    map k | k in keys :: 0
  }

  function Bump(m: map<string, nat>, hit: Option<string>): (r: map<string, nat>)
    ensures r.Keys == m.Keys
  {
    if hit.Some? && hit.value in m then m[hit.value := m[hit.value] + 1] else m
  }

  datatype Counters = Counters(nist: map<string, nat>, iec: map<string, nat>)

  /** The two counter dicts after counting `picks` in order. */
  function TallyOf(picks: seq<ClassificationRow>, hitOf: ClassificationRow -> Contribution): (c: Counters)
  {
    if picks == [] then Counters(Zeros(NistCategories), Zeros(IecRequirements))
    else
      var prev := TallyOf(picks[..|picks| - 1], hitOf);
      var hit := hitOf(picks[|picks| - 1]);
      Counters(Bump(prev.nist, hit.nist), Bump(prev.iec, hit.iec))
  }

  /** One more row of the tally loop: a document seen before is skipped,
      a new one is marked seen and counted. */
  lemma TallyStep(rows: seq<ClassificationRow>, i: int, hitOf: ClassificationRow -> Contribution)
    requires 0 <= i < |rows|
    ensures DocIds(rows[..i + 1]) == DocIds(rows[..i]) + {rows[i].documentId}
    ensures var prev := TallyOf(FirstPerDocument(rows[..i]), hitOf);
      var hit := hitOf(rows[i]);
      TallyOf(FirstPerDocument(rows[..i + 1]), hitOf)
        == if rows[i].documentId in DocIds(rows[..i]) then prev
           else Counters(Bump(prev.nist, hit.nist), Bump(prev.iec, hit.iec))
  {
    var front := rows[..i];
    assert rows[..i + 1][..i] == front;
    assert rows[..i + 1] == front + [rows[i]];
    var picks := FirstPerDocument(front);
    assert (picks + [rows[i]])[..|picks|] == picks;
  }

  lemma TallyStart(rows: seq<ClassificationRow>, hitOf: ClassificationRow -> Contribution)
    ensures DocIds(rows[..0]) == {}
    ensures TallyOf(FirstPerDocument(rows[..0]), hitOf) == Counters(Zeros(NistCategories), Zeros(IecRequirements))
  {
    assert rows[..0] == [];
  }

  /** The tally loop over the ordered result rows. */
  method TallyStats(rows: seq<ClassificationRow>, hitOf: ClassificationRow -> Contribution) returns (c: Counters)
    ensures c == TallyOf(FirstPerDocument(rows), hitOf)
  {
    var nistStats := Zeros(NistCategories);
    var iecStats := Zeros(IecRequirements);
    var seen: set<int> := {};
    var i := 0;
    TallyStart(rows, hitOf);
    while i < |rows|
      invariant 0 <= i <= |rows|
      invariant seen == DocIds(rows[..i])
      invariant Counters(nistStats, iecStats) == TallyOf(FirstPerDocument(rows[..i]), hitOf)
    {
      seen, nistStats, iecStats := TallyRow(rows, i, hitOf, seen, nistStats, iecStats);
      i := i + 1;
    }
    assert rows[..i] == rows;
    c := Counters(nistStats, iecStats);
  }

  /** The body of the tally loop for row `i`: a row of a document already
      seen is skipped; otherwise the document is marked seen and the row's
      contribution counted. It carries the loop's invariant to `i + 1`. */
  method TallyRow(rows: seq<ClassificationRow>, i: int, hitOf: ClassificationRow -> Contribution,
                  seen: set<int>, nistStats: map<string, nat>, iecStats: map<string, nat>)
    returns (seen': set<int>, nist': map<string, nat>, iec': map<string, nat>)
    requires 0 <= i < |rows| && seen == DocIds(rows[..i])
    requires Counters(nistStats, iecStats) == TallyOf(FirstPerDocument(rows[..i]), hitOf)
    ensures seen' == DocIds(rows[..i + 1])
    ensures Counters(nist', iec') == TallyOf(FirstPerDocument(rows[..i + 1]), hitOf)
  {
    var row := rows[i];
    TallyStep(rows, i, hitOf);
    seen', nist', iec' := seen, nistStats, iecStats;
    if row.documentId in seen {
      return;
    }
    seen' := seen + {row.documentId};
    var hit := hitOf(row);
    nist' := Bump(nistStats, hit.nist);
    iec' := Bump(iecStats, hit.iec);
  }

  /** The rows looked at have distinct documents, and cover every document. */
  lemma {:induction false} FirstPerDocumentDistinct(rows: seq<ClassificationRow>)
    ensures forall i, j :: 0 <= i < j < |FirstPerDocument(rows)| ==>
              FirstPerDocument(rows)[i].documentId != FirstPerDocument(rows)[j].documentId
    ensures DocIds(FirstPerDocument(rows)) == DocIds(rows)
  {
    if rows != [] {
      var front := rows[..|rows| - 1];
      var last := rows[|rows| - 1];
      FirstPerDocumentDistinct(front);
      assert rows == front + [last];
      var picks := FirstPerDocument(front);
      assert DocIds(rows) == DocIds(front) + {last.documentId};
      if last.documentId !in DocIds(front) {
        var r := picks + [last];
        assert DocIds(r) == DocIds(picks) + {last.documentId};
        forall i, j | 0 <= i < j < |r| ensures r[i].documentId != r[j].documentId {
          if j == |picks| {
            assert r[i] == picks[i] && picks[i] in picks;
          } else {
            assert r[i] == picks[i] && r[j] == picks[j];
          }
        }
      }
    }
  }

  /** Each row looked at is the first row of its document. */
  lemma {:induction false} FirstPerDocumentIsFirst(rows: seq<ClassificationRow>)
    ensures forall p :: p in FirstPerDocument(rows) ==>
              exists i :: 0 <= i < |rows| && rows[i] == p && forall j :: 0 <= j < i ==> rows[j].documentId != p.documentId
  {
    if rows != [] {
      var front := rows[..|rows| - 1];
      var last := rows[|rows| - 1];
      FirstPerDocumentIsFirst(front);
      forall p | p in FirstPerDocument(rows)
        ensures exists i :: 0 <= i < |rows| && rows[i] == p && forall j :: 0 <= j < i ==> rows[j].documentId != p.documentId
      {
        if p in FirstPerDocument(front) {
          var i :| 0 <= i < |front| && front[i] == p && forall j :: 0 <= j < i ==> front[j].documentId != p.documentId;
          assert rows[i] == p;
          assert forall j :: 0 <= j < i ==> rows[j] == front[j];
        } else {
          assert p == last && last.documentId !in DocIds(front);
          forall j | 0 <= j < |front| ensures rows[j].documentId != p.documentId {
            assert rows[j] == front[j] && front[j] in front;
          }
          assert rows[|front|] == p;
        }
      }
    }
  }

  /** Each document is looked at once, through its first row. */
  lemma FirstPerDocumentFacts(rows: seq<ClassificationRow>)
    ensures forall i, j :: 0 <= i < j < |FirstPerDocument(rows)| ==>
              FirstPerDocument(rows)[i].documentId != FirstPerDocument(rows)[j].documentId
    ensures DocIds(FirstPerDocument(rows)) == DocIds(rows)
    ensures forall p :: p in FirstPerDocument(rows) ==>
              exists i :: 0 <= i < |rows| && rows[i] == p && forall j :: 0 <= j < i ==> rows[j].documentId != p.documentId
  {
    FirstPerDocumentDistinct(rows);
    FirstPerDocumentIsFirst(rows);
  }

  /** The query orders by document id, then newest first. */
  predicate OrderedForTally(rows: seq<ClassificationRow>) {
    forall i, j :: 0 <= i < j < |rows| ==>
      rows[i].documentId < rows[j].documentId
      || (rows[i].documentId == rows[j].documentId && rows[i].createdAt >= rows[j].createdAt)
  }

  /** In that order the row the tally uses for a document is its latest. */
  lemma LatestResultIsCounted(rows: seq<ClassificationRow>, p: ClassificationRow, x: ClassificationRow)
    requires OrderedForTally(rows)
    requires p in FirstPerDocument(rows) && x in rows && x.documentId == p.documentId
    ensures x.createdAt <= p.createdAt
  {
    FirstPerDocumentFacts(rows);
    var i :| 0 <= i < |rows| && rows[i] == p && forall j :: 0 <= j < i ==> rows[j].documentId != p.documentId;
    var j :| 0 <= j < |rows| && rows[j] == x;
  }

  function Sum(keys: seq<string>, m: map<string, nat>): nat
    requires forall k :: k in keys ==> k in m
  {
    if keys == [] then 0 else m[keys[0]] + Sum(keys[1..], m)
  }

  lemma {:induction false} BumpAddsAtMostOne(keys: seq<string>, m: map<string, nat>, hit: Option<string>)
    requires NoDuplicates(keys) && forall k :: k in m <==> k in keys
    ensures forall k :: k in keys ==> k in Bump(m, hit)
    ensures Sum(keys, Bump(m, hit)) <= Sum(keys, m) + 1
  {
    BumpSumHelper(keys, m, hit);
  }

  lemma {:induction false} BumpSumHelper(keys: seq<string>, m: map<string, nat>, hit: Option<string>)
    requires NoDuplicates(keys) && forall k :: k in keys ==> k in m
    ensures forall k :: k in keys ==> k in Bump(m, hit)
    ensures Sum(keys, Bump(m, hit)) <= Sum(keys, m) + 1
    ensures hit.None? || hit.value !in keys ==> Sum(keys, Bump(m, hit)) == Sum(keys, m)
  {
    if keys != [] {
      assert NoDuplicates(keys[1..]) by {
        forall i, j | 0 <= i < j < |keys[1..]| ensures keys[1..][i] != keys[1..][j] {
          assert keys[1..][i] == keys[i + 1] && keys[1..][j] == keys[j + 1];
        }
      }
      BumpSumHelper(keys[1..], m, hit);
      if hit.Some? && hit.value == keys[0] {
        assert hit.value !in keys[1..] by {
          forall j | 0 <= j < |keys[1..]| ensures keys[1..][j] != keys[0] {
            assert keys[1..][j] == keys[j + 1];
          }
        }
        SumIgnoresOtherKeys(keys[1..], m, Bump(m, hit));
      }
    }
  }

  lemma {:induction false} SumIgnoresOtherKeys(keys: seq<string>, m: map<string, nat>, m': map<string, nat>)
    requires forall k :: k in keys ==> k in m && k in m' && m[k] == m'[k]
    ensures Sum(keys, m) == Sum(keys, m')
  {
    if keys != [] {
      SumIgnoresOtherKeys(keys[1..], m, m');
    }
  }

  lemma KeysDistinct()
    ensures NoDuplicates(NistCategories) && NoDuplicates(IecRequirements)
  {
  }

  lemma {:induction false} SumOfZeros(keys: seq<string>, m: map<string, nat>)
    requires forall k :: k in keys ==> k in m && m[k] == 0
    ensures Sum(keys, m) == 0
  {
    if keys != [] {
      SumOfZeros(keys[1..], m);
    }
  }

  /** The counters only ever hold the fixed keys, and together they count at
      most one hit per document looked at. */
  lemma {:induction false} TallyCountsEachPickOnce(picks: seq<ClassificationRow>, hitOf: ClassificationRow -> Contribution)
    ensures forall k :: k in TallyOf(picks, hitOf).nist <==> k in NistCategories
    ensures forall k :: k in TallyOf(picks, hitOf).iec <==> k in IecRequirements
    ensures Sum(NistCategories, TallyOf(picks, hitOf).nist) <= |picks|
    ensures Sum(IecRequirements, TallyOf(picks, hitOf).iec) <= |picks|
  {
    if picks == [] {
      SumOfZeros(NistCategories, Zeros(NistCategories));
      SumOfZeros(IecRequirements, Zeros(IecRequirements));
    } else {
      var front := picks[..|picks| - 1];
      TallyCountsEachPickOnce(front, hitOf);
      var prev := TallyOf(front, hitOf);
      var hit := hitOf(picks[|picks| - 1]);
      KeysDistinct();
      BumpAddsAtMostOne(NistCategories, prev.nist, hit.nist);
      BumpAddsAtMostOne(IecRequirements, prev.iec, hit.iec);
    }
  }

  /** The documents that have at least one result. */
  function Classified(docs: seq<DocumentRow>, results: seq<ClassificationRow>): seq<DocumentRow> {
    Filter(docs, (d: DocumentRow) => d.id in ClassifiedIds(results))
  }

  datatype Stats = Stats(
    totalDocuments: nat,
    classifiedDocuments: nat,
    nistCategories: map<string, nat>,
    iecRequirements: map<string, nat>)

  /** `get_classification_stats`, given the result rows in the query's order. */
  method GetClassificationStats(db: Database, ordered: seq<ClassificationRow>, loads: string -> Option<Json>)
    returns (s: Stats)
    requires multiset(ordered) == multiset(db.results) && OrderedForTally(ordered)
    ensures s.totalDocuments == |db.documents|
    ensures s.classifiedDocuments == |Classified(db.documents, db.results)|
    ensures Counters(s.nistCategories, s.iecRequirements) == TallyOf(FirstPerDocument(ordered), Contributions(loads))
  {
    var counters := TallyStats(ordered, Contributions(loads));
    s := Stats(|db.documents|, |Classified(db.documents, db.results)|, counters.nist, counters.iec);
  }
}
