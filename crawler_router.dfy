/** backend/src/crawler/router.py: the upsert of crawled documents that
    `run_crawler_task` performs in one transaction, and the recency listing of
    `get_crawler_status`.

    The session has `autoflush=False` (db/database.py), so the lookup by
    `doc_id` sees only committed rows, while updates made to a row it returned
    are kept on that same in-memory row. New rows are inserted at the commit,
    in the order they were added, each with rowid one past the largest so far;
    the unique index on `doc_id` makes the commit fail when two new rows share
    one. A failed commit is rolled back entirely. */
module CrawlerRouter {
  import opened Wrappers
  import opened Seqs
  import opened Tables

  /** A crawled document as the upsert loop reads it. */
  datatype IncomingDocument = IncomingDocument(
    docId: string,
    url: string,
    title: string,
    originalTitle: Option<string>,
    content: string,
    sourceType: string,
    downloadedAt: Time,
    lang: string)

  /** The session before the commit: committed rows with the updates applied,
      and the rows added, not yet numbered. */
  datatype Staged = Staged(rows: seq<DocumentRow>, pending: seq<DocumentRow>)

  /** The four fields the update branch assigns. */
  function Updated(row: DocumentRow, doc: IncomingDocument): DocumentRow {
    row.(title := Some(doc.title), originalTitle := doc.originalTitle, content := doc.content,
         downloadedAt := doc.downloadedAt)
  }

  /** The `DocumentModel(...)` of the insert branch; its id comes at the flush. */
  function NewRow(doc: IncomingDocument, userId: int): DocumentRow {
    DocumentRow(0, doc.docId, doc.url, Some(doc.title), doc.originalTitle, doc.content, doc.sourceType,
                doc.downloadedAt, doc.lang, Some(userId))
  }

  /** The `for doc in documents` loop over a prefix of the crawled list. */
  function Stage(committed: seq<DocumentRow>, docs: seq<IncomingDocument>, userId: int): (s: Staged)
    ensures |s.rows| == |committed|
  {
    if docs == [] then Staged(committed, [])
    else
      var prev := Stage(committed, docs[..|docs| - 1], userId);
      var doc := docs[|docs| - 1];
      var k := IndexOfDocId(committed, doc.docId);
      if k >= 0 then Staged(prev.rows[k := Updated(prev.rows[k], doc)], prev.pending)
      else Staged(prev.rows, prev.pending + [NewRow(doc, userId)])
  }

  /** The largest rowid, 0 for an empty table. */
  function MaxId(rows: seq<DocumentRow>): int {
    if rows == [] then 0
    else
      var m := MaxId(rows[..|rows| - 1]);
      if rows[|rows| - 1].id > m then rows[|rows| - 1].id else m
  }

  /** Every existing id is at most the one the flush numbers from. */
  lemma {:induction false} MaxIdBounds(rows: seq<DocumentRow>)
    ensures forall r :: r in rows ==> r.id <= MaxId(rows)
  {
    if rows != [] {
      MaxIdBounds(rows[..|rows| - 1]);
      assert rows == rows[..|rows| - 1] + [rows[|rows| - 1]];
    }
  }

  /** The rows inserted at the flush, numbered in order. */
  function AssignIds(existing: seq<DocumentRow>, pending: seq<DocumentRow>): (r: seq<DocumentRow>)
    ensures |r| == |pending|
  {
    if pending == [] then []
    else
      var prev := AssignIds(existing, pending[..|pending| - 1]);
      prev + [pending[|pending| - 1].(id := MaxId(existing + prev) + 1)]
  }

  predicate DocIdsDistinct(rows: seq<DocumentRow>) {
    forall i, j :: 0 <= i < j < |rows| ==> rows[i].docId != rows[j].docId
  }

  /** The table after a successful commit. */
  function Upserted(committed: seq<DocumentRow>, docs: seq<IncomingDocument>, userId: int): seq<DocumentRow> {
    var s := Stage(committed, docs, userId);
    s.rows + AssignIds(s.rows, s.pending)
  }

  /** The commit succeeds unless it raises or two new rows share a `doc_id`. */
  predicate CommitSucceeds(committed: seq<DocumentRow>, docs: seq<IncomingDocument>, userId: int, commitOk: bool) {
    commitOk && DocIdsDistinct(Stage(committed, docs, userId).pending)
  }

  /** The upsert loop, the commit and the rollback of `run_crawler_task`:
      either every upsert is in the table or none is. */
  method RunCrawlerTask(db: Database, documents: seq<IncomingDocument>, userId: int, commitOk: bool)
    returns (committed: bool)
    modifies db
    ensures committed == CommitSucceeds(old(db.documents), documents, userId, commitOk)
    ensures db.documents == if committed then Upserted(old(db.documents), documents, userId) else old(db.documents)
    ensures db.results == old(db.results) && db.users == old(db.users)
  {
    var rows := db.documents;
    var pending: seq<DocumentRow> := [];
    var i := 0;
    while i < |documents|
      invariant 0 <= i <= |documents|
      invariant Staged(rows, pending) == Stage(db.documents, documents[..i], userId)
    {
      assert documents[..i + 1][..i] == documents[..i];
      var doc := documents[i];
      var existing := IndexOfDocId(db.documents, doc.docId);
      if existing >= 0 {
        rows := rows[existing := Updated(rows[existing], doc)];
      } else {
        pending := pending + [NewRow(doc, userId)];
      }
      i := i + 1;
    }
    assert documents[..i] == documents;
    committed := commitOk && DocIdsDistinct(pending);
    if committed {
      db.documents := rows + AssignIds(rows, pending);
    }
  }

  /** An existing row keeps its id, doc_id, url, source type, language and
      owner; only title, original_title, content and downloaded_at change. */
  lemma {:induction false} UpsertTouchesOnlyFourFields(committed: seq<DocumentRow>, docs: seq<IncomingDocument>, userId: int, k: int)
    requires 0 <= k < |committed|
    ensures var r := Stage(committed, docs, userId).rows[k];
      r == committed[k].(title := r.title, originalTitle := r.originalTitle, content := r.content,
                         downloadedAt := r.downloadedAt)
  {
    if docs != [] {
      UpsertTouchesOnlyFourFields(committed, docs[..|docs| - 1], userId, k);
    }
  }

  /** The last crawled document with a row's doc_id decides its four fields;
      a row no crawled document names is unchanged. */
  function LastMatch(docs: seq<IncomingDocument>, docId: string): (j: int)
    ensures -1 <= j < |docs|
    ensures j >= 0 ==> docs[j].docId == docId && forall i :: j < i < |docs| ==> docs[i].docId != docId
    ensures j == -1 ==> forall i :: 0 <= i < |docs| ==> docs[i].docId != docId
  {
    if docs == [] then -1
    else if docs[|docs| - 1].docId == docId then |docs| - 1
    else LastMatch(docs[..|docs| - 1], docId)
  }

  lemma {:induction false} LastUpdateWins(committed: seq<DocumentRow>, docs: seq<IncomingDocument>, userId: int, k: int)
    requires DocIdsDistinct(committed) && 0 <= k < |committed|
    ensures var j := LastMatch(docs, committed[k].docId);
      Stage(committed, docs, userId).rows[k] == if j < 0 then committed[k] else Updated(committed[k], docs[j])
  {
    if docs != [] {
      var front := docs[..|docs| - 1];
      var doc := docs[|docs| - 1];
      LastUpdateWins(committed, front, userId, k);
      var idx := IndexOfDocId(committed, doc.docId);
      if doc.docId == committed[k].docId {
        assert idx == k;
      } else {
        assert idx != k;
        assert LastMatch(docs, committed[k].docId) == LastMatch(front, committed[k].docId);
        forall i | 0 <= i < |front| ensures front[i] == docs[i] { }
      }
    }
  }

  /** Crawled documents whose doc_id has no committed row. */
  function IsNew(committed: seq<DocumentRow>): IncomingDocument -> bool {
    (doc: IncomingDocument) => IndexOfDocId(committed, doc.docId) < 0
  }

  function NewRows(docs: seq<IncomingDocument>, userId: int): (r: seq<DocumentRow>)
    ensures |r| == |docs|
  {
    seq(|docs|, k requires 0 <= k < |docs| => NewRow(docs[k], userId))
  }

  /** The rows added are the crawled documents with an unknown doc_id, in
      crawl order, each owned by the user who started the crawl. */
  lemma {:induction false} PendingAreTheNewDocuments(committed: seq<DocumentRow>, docs: seq<IncomingDocument>, userId: int)
    ensures Stage(committed, docs, userId).pending == NewRows(Filter(docs, IsNew(committed)), userId)
  {
    if docs != [] {
      var front := docs[..|docs| - 1];
      var doc := docs[|docs| - 1];
      PendingAreTheNewDocuments(committed, front, userId);
      assert docs == front + [doc];
      FilterAppend(front, [doc], IsNew(committed));
      var before := Filter(front, IsNew(committed));
      if IsNew(committed)(doc) {
        assert NewRows(before + [doc], userId) == NewRows(before, userId) + [NewRow(doc, userId)];
      } else {
        assert Filter([doc], IsNew(committed)) == [];
        assert before + [] == before;
      }
    }
  }

  lemma MaxIdSnoc(rows: seq<DocumentRow>, x: DocumentRow)
    ensures MaxId(rows + [x]) == if x.id > MaxId(rows) then x.id else MaxId(rows)
  {
    assert (rows + [x])[..|rows|] == rows;
  }

  /** After numbering, the largest id is `|pending|` past the largest existing one. */
  lemma {:induction false} AssignIdsTop(existing: seq<DocumentRow>, pending: seq<DocumentRow>)
    ensures MaxId(existing + AssignIds(existing, pending)) == MaxId(existing) + |pending|
  {
    var r := AssignIds(existing, pending);
    if pending == [] {
      assert existing + r == existing;
    } else {
      var n := |pending| - 1;
      var prev := AssignIds(existing, pending[..n]);
      AssignIdsTop(existing, pending[..n]);
      var x := pending[n].(id := MaxId(existing + prev) + 1);
      assert r == prev + [x];
      ConcatAssoc(existing, prev, [x]);
      MaxIdSnoc(existing + prev, x);
    }
  }

  /** Numbering the new rows one at a time, each one past the largest id so
      far, numbers them consecutively from one past the largest existing id. */
  lemma {:induction false} AssignIdsConsecutive(existing: seq<DocumentRow>, pending: seq<DocumentRow>)
    ensures var r := AssignIds(existing, pending);
      && MaxId(existing + r) == MaxId(existing) + |pending|
      && forall k :: 0 <= k < |r| ==> r[k] == pending[k].(id := MaxId(existing) + 1 + k)
  {
    AssignIdsTop(existing, pending);
    var r := AssignIds(existing, pending);
    if pending != [] {
      var n := |pending| - 1;
      var front := pending[..n];
      var prev := AssignIds(existing, front);
      AssignIdsConsecutive(existing, front);
      AssignIdsTop(existing, front);
      var x := pending[n].(id := MaxId(existing + prev) + 1);
      assert r == prev + [x];
      forall k | 0 <= k < |r| ensures r[k] == pending[k].(id := MaxId(existing) + 1 + k) {
        if k < n {
          assert r[k] == prev[k] && front[k] == pending[k];
        } else {
          assert r[k] == x;
        }
      }
    }
  }

  /** The new rows keep the added fields and get fresh, increasing ids above
      every existing one. */
  lemma AssignedIdsAreFresh(existing: seq<DocumentRow>, pending: seq<DocumentRow>)
    ensures var r := AssignIds(existing, pending);
      && (forall k :: 0 <= k < |r| ==> r[k] == pending[k].(id := r[k].id) && r[k].id > MaxId(existing))
      && (forall i, j :: 0 <= i < j < |r| ==> r[i].id < r[j].id)
  {
    AssignIdsConsecutive(existing, pending);
  }

  lemma DocIdsDistinctConcat(a: seq<DocumentRow>, b: seq<DocumentRow>)
    requires DocIdsDistinct(a) && DocIdsDistinct(b)
    requires forall i, k :: 0 <= i < |a| && 0 <= k < |b| ==> a[i].docId != b[k].docId
    ensures DocIdsDistinct(a + b)
  {
    var all := a + b;
    forall i, j | 0 <= i < j < |all| ensures all[i].docId != all[j].docId {
      if j < |a| {
        assert all[i] == a[i] && all[j] == a[j];
      } else if i >= |a| {
        assert all[i] == b[i - |a|] && all[j] == b[j - |a|];
      } else {
        assert all[i] == a[i] && all[j] == b[j - |a|];
      }
    }
  }

  /** The staged rows keep the committed doc_ids. */
  lemma StagedKeepsDocIds(committed: seq<DocumentRow>, docs: seq<IncomingDocument>, userId: int)
    ensures forall k :: 0 <= k < |committed| ==> Stage(committed, docs, userId).rows[k].docId == committed[k].docId
  {
    forall k | 0 <= k < |committed| ensures Stage(committed, docs, userId).rows[k].docId == committed[k].docId {
      UpsertTouchesOnlyFourFields(committed, docs, userId, k);
    }
  }

  /** No added row has a committed doc_id. */
  lemma PendingDocIdsAreNew(committed: seq<DocumentRow>, docs: seq<IncomingDocument>, userId: int)
    ensures var p := Stage(committed, docs, userId).pending;
      forall i, k :: 0 <= i < |committed| && 0 <= k < |p| ==> committed[i].docId != p[k].docId
  {
    var p := Stage(committed, docs, userId).pending;
    PendingAreTheNewDocuments(committed, docs, userId);
    var newDocs := Filter(docs, IsNew(committed));
    forall k | 0 <= k < |p| ensures IndexOfDocId(committed, p[k].docId) < 0 {
      assert p[k] == NewRow(newDocs[k], userId);
      assert newDocs[k] in newDocs;
    }
  }

  /** A successful upsert keeps the unique index on doc_id: the committed rows
      keep their doc_ids and every new doc_id was absent. */
  lemma UpsertKeepsDocIdsUnique(committed: seq<DocumentRow>, docs: seq<IncomingDocument>, userId: int)
    requires DocIdsDistinct(committed)
    requires DocIdsDistinct(Stage(committed, docs, userId).pending)
    ensures DocIdsDistinct(Upserted(committed, docs, userId))
    ensures |Upserted(committed, docs, userId)| == |committed| + |Stage(committed, docs, userId).pending|
  {
    var s := Stage(committed, docs, userId);
    var added := AssignIds(s.rows, s.pending);
    StagedKeepsDocIds(committed, docs, userId);
    PendingDocIdsAreNew(committed, docs, userId);
    AssignIdsConsecutive(s.rows, s.pending);
    assert forall k :: 0 <= k < |added| ==> added[k].docId == s.pending[k].docId;
    assert DocIdsDistinct(s.rows) by {
      forall i, j | 0 <= i < j < |s.rows| ensures s.rows[i].docId != s.rows[j].docId {
        assert s.rows[i].docId == committed[i].docId && s.rows[j].docId == committed[j].docId;
      }
    }
    assert DocIdsDistinct(added) by {
      forall i, j | 0 <= i < j < |added| ensures added[i].docId != added[j].docId {
        assert s.pending[i].docId != s.pending[j].docId;
      }
    }
    forall i, k | 0 <= i < |s.rows| && 0 <= k < |added| ensures s.rows[i].docId != added[k].docId {
      assert committed[i].docId != s.pending[k].docId;
    }
    DocIdsDistinctConcat(s.rows, added);
  }

  // ---------------------------------------------------------------------------
  // get_crawler_status

  /** Rows newest first. */
  predicate NewestFirst(rows: seq<DocumentRow>) {
    forall i, j :: 0 <= i < j < |rows| ==> rows[i].downloadedAt >= rows[j].downloadedAt
  }

  /** Places `x` before the first row that is not newer, so equal timestamps
      keep table order. */
  function InsertByRecency(x: DocumentRow, sorted: seq<DocumentRow>): (r: seq<DocumentRow>)
    ensures multiset(r) == multiset(sorted) + multiset{x}
    ensures forall y :: y in r ==> y == x || y in sorted
  {
    if sorted == [] || sorted[0].downloadedAt <= x.downloadedAt then [x] + sorted
    else
      assert sorted == [sorted[0]] + sorted[1..];
      [sorted[0]] + InsertByRecency(x, sorted[1..])
  }

  /** Inserting an older row into the tail leaves every row of it no newer
      than the head. */
  lemma InsertBelowHead(x: DocumentRow, sorted: seq<DocumentRow>)
    requires NewestFirst(sorted) && sorted != [] && x.downloadedAt < sorted[0].downloadedAt
    ensures forall y :: y in InsertByRecency(x, sorted[1..]) ==> y.downloadedAt <= sorted[0].downloadedAt
  {
    var tail := sorted[1..];
    forall y | y in InsertByRecency(x, tail) ensures y.downloadedAt <= sorted[0].downloadedAt {
      if y != x {
        var j :| 0 <= j < |tail| && tail[j] == y;
        assert sorted[j + 1] == y;
      }
    }
  }

  /** A row no older than every row of a newest-first table can go in front. */
  lemma ConsNewestFirst(h: DocumentRow, rest: seq<DocumentRow>)
    requires NewestFirst(rest)
    requires forall y :: y in rest ==> y.downloadedAt <= h.downloadedAt
    ensures NewestFirst([h] + rest)
  {
    var r := [h] + rest;
    forall i, j | 0 <= i < j < |r| ensures r[i].downloadedAt >= r[j].downloadedAt {
      if i == 0 {
        assert r[j] == rest[j - 1] && rest[j - 1] in rest;
      } else {
        assert r[i] == rest[i - 1] && r[j] == rest[j - 1];
      }
    }
  }

  lemma {:induction false} InsertKeepsNewestFirst(x: DocumentRow, sorted: seq<DocumentRow>)
    requires NewestFirst(sorted)
    ensures NewestFirst(InsertByRecency(x, sorted))
  {
    if !(sorted == [] || sorted[0].downloadedAt <= x.downloadedAt) {
      InsertKeepsNewestFirst(x, sorted[1..]);
      InsertBelowHead(x, sorted);
      ConsNewestFirst(sorted[0], InsertByRecency(x, sorted[1..]));
    } else {
      ConsNewestFirst(x, sorted);
    }
  }

  /** `ORDER BY downloaded_at DESC` over the table, ties in rowid order. */
  function SortByRecency(rows: seq<DocumentRow>): (r: seq<DocumentRow>)
    ensures multiset(r) == multiset(rows) && |r| == |rows|
    ensures NewestFirst(r)
  {
    if rows == [] then []
    else
      assert rows == [rows[0]] + rows[1..];
      InsertKeepsNewestFirst(rows[0], SortByRecency(rows[1..]));
      InsertByRecency(rows[0], SortByRecency(rows[1..]))
  }

  /** An entry of the status response. */
  datatype StatusDocument = StatusDocument(
    docId: string,
    url: string,
    title: Option<string>,
    originalTitle: Option<string>,
    content: string,
    sourceType: string,
    downloadedAt: Time,
    lang: string)

  /** `original_title if original_title else title`. */
  function StatusView(row: DocumentRow): (v: StatusDocument)
    ensures v.originalTitle == if Truthy(row.originalTitle) then row.originalTitle else row.title
    ensures v.docId == row.docId && v.downloadedAt == row.downloadedAt && v.title == row.title
  {
    StatusDocument(row.docId, row.url, row.title,
                   if Truthy(row.originalTitle) then row.originalTitle else row.title,
                   row.content, row.sourceType, row.downloadedAt, row.lang)
  }

  function Views(rows: seq<DocumentRow>): (r: seq<StatusDocument>)
    ensures |r| == |rows| && forall k :: 0 <= k < |rows| ==> r[k] == StatusView(rows[k])
  {
    seq(|rows|, k requires 0 <= k < |rows| => StatusView(rows[k]))
  }

  /** `get_crawler_status(limit)`. */
  function GetCrawlerStatus(docs: seq<DocumentRow>, limit: int): (r: seq<StatusDocument>)
    ensures |r| == if limit < 0 || |docs| <= limit then |docs| else limit
  {
    Views(Page(SortByRecency(docs), 0, limit))
  }

  /** The listing is the views of a prefix of the sorted table, of length
      `limit` (all, for a negative limit or a small table). */
  lemma StatusIsSortedPrefix(docs: seq<DocumentRow>, limit: int)
    ensures var r := GetCrawlerStatus(docs, limit);
      var s := SortByRecency(docs);
      && |s| == |docs|
      && |r| == (if limit < 0 || |docs| <= limit then |docs| else limit)
      && r == Views(s[..|r|])
  {
    var s := SortByRecency(docs);
    assert |s| == |docs| by { assert |multiset(s)| == |multiset(docs)|; }
    var p := Page(s, 0, limit);
    assert p == s[..|p|];
  }

  lemma SplitKeepsRows(s: seq<DocumentRow>, n: int)
    requires 0 <= n <= |s|
    ensures multiset(s[..n]) + multiset(s[n..]) == multiset(s)
  {
    assert s == s[..n] + s[n..];
  }

  /** The listed prefix and the rest of the sorted table are the whole table. */
  lemma StatusSplitsTheTable(docs: seq<DocumentRow>, limit: int)
    ensures var n := |GetCrawlerStatus(docs, limit)|;
      var s := SortByRecency(docs);
      n <= |s| && multiset(s[..n]) + multiset(s[n..]) == multiset(docs)
  {
    StatusIsSortedPrefix(docs, limit);
    var s := SortByRecency(docs);
    SplitKeepsRows(s, |GetCrawlerStatus(docs, limit)|);
  }

  /** Entry `i` of the listing carries the timestamp of row `i` of the sorted table. */
  lemma StatusTimestamps(docs: seq<DocumentRow>, limit: int)
    ensures var r := GetCrawlerStatus(docs, limit);
      var s := SortByRecency(docs);
      |r| <= |s| && forall i :: 0 <= i < |r| ==> r[i].downloadedAt == s[i].downloadedAt
  {
    StatusIsSortedPrefix(docs, limit);
    var s := SortByRecency(docs);
    var r := GetCrawlerStatus(docs, limit);
    forall i | 0 <= i < |r| ensures r[i].downloadedAt == s[i].downloadedAt {
      assert r[i] == StatusView(s[..|r|][i]);
    }
  }

  /** The listing is newest first. */
  lemma StatusIsNewestFirst(docs: seq<DocumentRow>, limit: int)
    ensures var r := GetCrawlerStatus(docs, limit);
      forall i, j :: 0 <= i < j < |r| ==> r[i].downloadedAt >= r[j].downloadedAt
  {
    StatusTimestamps(docs, limit);
  }

  /** Every document left out is no newer than every document listed. */
  lemma StatusLeavesOutOnlyOlder(docs: seq<DocumentRow>, limit: int)
    ensures var r := GetCrawlerStatus(docs, limit);
      var s := SortByRecency(docs);
      forall i, j :: 0 <= i < |r| <= j < |s| ==> s[j].downloadedAt <= r[i].downloadedAt
  {
    StatusTimestamps(docs, limit);
  }

  /** The listing holds `limit` entries (all, for a negative limit or a small
      table), newest first, and every document left out is no newer than
      every document listed. */
  lemma StatusListsTheNewest(docs: seq<DocumentRow>, limit: int)
    ensures var r := GetCrawlerStatus(docs, limit);
      var s := SortByRecency(docs);
      && |r| == (if limit < 0 || |docs| <= limit then |docs| else limit)
      && r == Views(s[..|r|])
      && multiset(s[..|r|]) + multiset(s[|r|..]) == multiset(docs)
      && (forall i, j :: 0 <= i < j < |r| ==> r[i].downloadedAt >= r[j].downloadedAt)
      && (forall i, j :: 0 <= i < |r| <= j < |s| ==> s[j].downloadedAt <= r[i].downloadedAt)
  {
    StatusIsSortedPrefix(docs, limit);
    StatusSplitsTheTable(docs, limit);
    StatusIsNewestFirst(docs, limit);
    StatusLeavesOutOnlyOlder(docs, limit);
  }
}
