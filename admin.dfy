/** backend/src/admin/router.py: the document listing with its classified flag,
    the confirmation-gated document delete, and the admin-flag toggle. */
module Admin {
  import opened Wrappers
  import opened Tables
  import opened Seqs

  const ConfirmDeletion: string := "削除を確認してください"
  const DocumentNotFound: string := "ドキュメントが見つかりません"
  const DocumentDeleted: string := "ドキュメントが削除されました"
  const UserNotFound: string := "ユーザーが見つかりません"

  // ---------------------------------------------------------------------------
  // get_all_documents

  /** A listed document: its columns and `is_classified`. */
  datatype DocumentInfo = DocumentInfo(
    id: int,
    docId: string,
    title: Option<string>,
    sourceType: string,
    downloadedAt: Time,
    url: string,
    isClassified: bool)

  /** The per-row subquery: some result row names this document. */
  predicate HasResult(results: seq<ClassificationRow>, id: int) {
    exists r :: r in results && r.documentId == id
  }

  /** One listed document: its own columns, and the flag set exactly when some
      result names it. */
  function Info(doc: DocumentRow, results: seq<ClassificationRow>): (info: DocumentInfo)
    ensures info.id == doc.id && info.docId == doc.docId && info.title == doc.title && info.url == doc.url
    ensures info.isClassified <==> exists r :: r in results && r.documentId == doc.id
  {
    DocumentInfo(doc.id, doc.docId, doc.title, doc.sourceType, doc.downloadedAt, doc.url, HasResult(results, doc.id))
  }

  /** The listing of a list of documents: entry `k` is the entry of document `k`. */
  function Infos(docs: seq<DocumentRow>, results: seq<ClassificationRow>): (r: seq<DocumentInfo>)
    ensures |r| == |docs|
    ensures forall k :: 0 <= k < |docs| ==> r[k] == Info(docs[k], results)
  {
    if docs == [] then [] else Infos(docs[..|docs| - 1], results) + [Info(docs[|docs| - 1], results)]
  }

  /** `get_all_documents(skip, limit)`: the append loop over one page. */
  method GetAllDocuments(documents: seq<DocumentRow>, results: seq<ClassificationRow>, skip: int, limit: int)
    returns (result: seq<DocumentInfo>)
    ensures result == Infos(Page(documents, skip, limit), results)
  {
    var page := Page(documents, skip, limit);
    result := [];
    var i := 0;
    while i < |page|
      invariant 0 <= i <= |page|
      invariant result == Infos(page[..i], results)
    {
      assert page[..i + 1][..i] == page[..i];
      var doc := page[i];
      var classified := exists r :: r in results && r.documentId == doc.id;
      result := result + [DocumentInfo(doc.id, doc.docId, doc.title, doc.sourceType, doc.downloadedAt, doc.url, classified)];
      i := i + 1;
    }
    assert page[..i] == page;
  }

  /** Entry `k` of the listing is the document at offset `skip + k`, and it is
      flagged classified exactly when some result names it. */
  lemma {:induction false} ListingFlagsClassified(docs: seq<DocumentRow>, results: seq<ClassificationRow>, k: int)
    requires 0 <= k < |docs|
    ensures var info := Infos(docs, results)[k];
      && info.id == docs[k].id && info.docId == docs[k].docId
      && (info.isClassified <==> exists r :: r in results && r.documentId == docs[k].id)
  {
    if k < |docs| - 1 {
      ListingFlagsClassified(docs[..|docs| - 1], results, k);
    }
  }

  // ---------------------------------------------------------------------------
  // delete_document

  /** The table without row `k`. */
  function Without(rows: seq<DocumentRow>, k: int): (r: seq<DocumentRow>)
    requires 0 <= k < |rows|
    ensures |r| == |rows| - 1
    ensures multiset(r) + multiset{rows[k]} == multiset(rows)
  {
    assert rows == rows[..k] + [rows[k]] + rows[k + 1..];
    rows[..k] + rows[k + 1..]
  }

  /** `delete_document(doc_id, confirmation)`: an unconfirmed request is
      refused before the lookup; an unknown `doc_id` (the string key) is 404;
      otherwise that row goes and the commit follows. Result rows that name
      the document stay, as no cascade is declared. */
  method DeleteDocument(db: Database, docId: string, confirmed: bool) returns (r: Result<string, HttpError>)
    modifies db
    ensures !confirmed ==> r == Err(HttpError(400, ConfirmDeletion)) && db.documents == old(db.documents)
    ensures confirmed && IndexOfDocId(old(db.documents), docId) < 0 ==>
              r == Err(HttpError(404, DocumentNotFound)) && db.documents == old(db.documents)
    ensures var k := IndexOfDocId(old(db.documents), docId);
      confirmed && k >= 0 ==> r == Ok(DocumentDeleted) && db.documents == Without(old(db.documents), k)
    ensures db.results == old(db.results) && db.users == old(db.users)
  {
    if !confirmed {
      return Err(HttpError(400, ConfirmDeletion));
    }
    var k := IndexOfDocId(db.documents, docId);
    if k < 0 {
      return Err(HttpError(404, DocumentNotFound));
    }
    db.documents := Without(db.documents, k);
    r := Ok(DocumentDeleted);
  }

  /** Row `j` of the table without row `k`. */
  lemma WithoutAt(rows: seq<DocumentRow>, k: int, j: int)
    requires 0 <= k < |rows| && 0 <= j < |rows| - 1
    ensures Without(rows, k)[j] == if j < k then rows[j] else rows[j + 1]
  {
  }

  predicate DocIdsUnique(rows: seq<DocumentRow>) {
    forall i, j :: 0 <= i < j < |rows| ==> rows[i].docId != rows[j].docId
  }

  /** Without row `k`, no row has row `k`'s key, and every row with another key stays. */
  lemma WithoutDropsKey(rows: seq<DocumentRow>, k: int)
    requires 0 <= k < |rows| && DocIdsUnique(rows)
    ensures forall x :: x in Without(rows, k) ==> x.docId != rows[k].docId
    ensures forall x :: x in rows && x.docId != rows[k].docId ==> x in Without(rows, k)
  {
    var r := Without(rows, k);
    forall x | x in r ensures x.docId != rows[k].docId {
      var j :| 0 <= j < |r| && r[j] == x;
      WithoutAt(rows, k, j);
      if j < k {
        assert rows[j].docId != rows[k].docId;
      } else {
        assert rows[k].docId != rows[j + 1].docId;
      }
    }
    forall x | x in rows && x.docId != rows[k].docId ensures x in r {
      var j :| 0 <= j < |rows| && rows[j] == x;
      var i := if j < k then j else j - 1;
      WithoutAt(rows, k, i);
      assert r[i] == x;
    }
  }

  /** A delete removes exactly one row, the one with that `doc_id` (unique in
      the table), and keeps the others in order. */
  lemma DeleteRemovesExactlyThatDocument(rows: seq<DocumentRow>, docId: string)
    requires DocIdsUnique(rows)
    requires IndexOfDocId(rows, docId) >= 0
    ensures var r := Without(rows, IndexOfDocId(rows, docId));
      && |r| == |rows| - 1
      && (forall x :: x in r ==> x.docId != docId)
      && (forall x :: x in rows && x.docId != docId ==> x in r)
  {
    WithoutDropsKey(rows, IndexOfDocId(rows, docId));
  }

  // ---------------------------------------------------------------------------
  // toggle_admin_status

  /** `query(User).filter(User.id == id).first()`, as an index. */
  function IndexOfUser(users: seq<UserRow>, id: int): (r: int)
    ensures -1 <= r < |users|
    ensures r >= 0 ==> users[r].id == id && forall k :: 0 <= k < r ==> users[k].id != id
    ensures r == -1 ==> forall k :: 0 <= k < |users| ==> users[k].id != id
  {
    FirstIndex(users, UserId, id)
  }

  function UserId(u: UserRow): int { u.id }

  /** `user.is_admin = not user.is_admin` on row `k`. */
  function Toggled(users: seq<UserRow>, k: int): (r: seq<UserRow>)
    requires 0 <= k < |users|
    ensures |r| == |users| && r[k].isAdmin == !users[k].isAdmin
    ensures forall j :: 0 <= j < |users| && j != k ==> r[j] == users[j]
    ensures r[k].(isAdmin := users[k].isAdmin) == users[k]
  {
    users[k := users[k].(isAdmin := !users[k].isAdmin)]
  }

  /** "ユーザー {username} の管理者権限が {付与|解除} されました". */
  function ToggleMessage(username: string, isAdmin: bool): string {
    "ユーザー " + username + " の管理者権限が " + (if isAdmin then "付与" else "解除") + " されました"
  }

  /** `toggle_admin_status(user_id)`. */
  method ToggleAdminStatus(db: Database, userId: int) returns (r: Result<string, HttpError>)
    modifies db
    ensures var k := IndexOfUser(old(db.users), userId);
      if k < 0 then r == Err(HttpError(404, UserNotFound)) && db.users == old(db.users)
      else db.users == Toggled(old(db.users), k)
           && r == Ok(ToggleMessage(old(db.users)[k].username, !old(db.users)[k].isAdmin))
    ensures db.documents == old(db.documents) && db.results == old(db.results)
  {
    var k := IndexOfUser(db.users, userId);
    if k < 0 {
      return Err(HttpError(404, UserNotFound));
    }
    db.users := db.users[k := db.users[k].(isAdmin := !db.users[k].isAdmin)];
    r := Ok(ToggleMessage(db.users[k].username, db.users[k].isAdmin));
  }

  /** Toggling the same user twice restores the table; the lookup finds the
      same row after the first toggle. */
  lemma ToggleTwiceRestores(users: seq<UserRow>, userId: int)
    requires IndexOfUser(users, userId) >= 0
    ensures var k := IndexOfUser(users, userId);
      && IndexOfUser(Toggled(users, k), userId) == k
      && Toggled(Toggled(users, k), k) == users
  {
    var k := IndexOfUser(users, userId);
    var t := Toggled(users, k);
    var k2 := IndexOfUser(t, userId);
    assert forall j :: 0 <= j < |users| ==> t[j].id == users[j].id;
    assert k2 == k;
  }
}
