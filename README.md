# A verified model of the cyber-meddev-agents backend core

This project models, in Dafny, the parts of the cyber-meddev-agents backend
(a FastAPI service that crawls medical-device cybersecurity documents and
classifies them against NIST CSF and IEC 62443 with a language model) that
hold real logic. It also proves properties of that model.

- **Classification job** (`backend/src/classifier/router.py`):
  - the three selection rules of `classify_documents` and the 404 for an
    empty selection;
  - the module-level progress record, held as a field of `ClassifierService`;
  - the background worker loop of `classify_documents_background`;
  - the progress and result reads;
  - the statistics tally of `get_classification_stats`.
- **Language-model output handling** (`backend/src/classifier/classifier.py`):
  - `normalize_json`, with its anchored `re.sub`;
  - the `text_for_fw` rendering and its fallback;
  - the `[:max_document_size]` truncation of every prompt;
  - the assembly of the classification report.
- **Crawler** (`backend/src/crawler/crawler.py`): a `Crawler` class whose
  `visitedUrls` field persists across `crawl` calls. The recursive
  `_crawl_url` and its `for link in links` loop are methods proved against a
  functional specification of the walk (`Visit`/`VisitLinks`). The module
  also has the link resolution and the title and source-type derivation.
- **Crawl upsert and status listing** (`backend/src/crawler/router.py`):
  - the upsert by `doc_id` with one commit, so either every change lands or
    none does;
  - the newest-first status listing with its `original_title` fallback.
- **Guideline queries** (`backend/src/guidelines/router.py`):
  - optional filters;
  - SQLite offset and limit;
  - the substring search;
  - the keyword projection;
  - the distinct-value endpoints.
- **Admin operations** (`backend/src/admin/router.py`):
  - the confirmation-gated delete;
  - the admin-flag toggle;
  - the listing with the `is_classified` flag it computes for each document.

Values are datatypes. The shared database is the `Tables.Database` class,
whose three tables are sequences in rowid order. SQLite is the configured
dialect (`backend/src/db/database.py:11-15`), so a negative `LIMIT` means no
limit and a negative `OFFSET` counts as zero.

The following are function-valued inputs:
- the language model, the JSON decoder and encoder;
- the web, `urlparse`, SHA-256;
- the clocks;
- the outcome of each commit.

The start handler has no guard against a second start while a run is
active, and no code path sets the status `error`. The model follows the code:
- a start always resets the record, whatever it holds;
- a failed document is rolled back and skipped;
- the status is never set to `error`;
- a worker writes into the record as it is when it writes, which may be the
  record of a later start.

## Model

| member | source | states |
|---|---|---|
| PyStr.Find | backend/src/classifier/classifier.py:66 | `find` gives -1 exactly when the character is absent, and otherwise an index that holds it |
| PyStr.FindFirst | backend/src/classifier/classifier.py:66 | no occurrence of the character comes before the index `find` gives |
| PyStr.FindIsFirst | backend/src/classifier/classifier.py:66 | an index holding the character with none before it is the one `find` gives |
| PyStr.RFind | backend/src/classifier/classifier.py:67 | `rfind` gives -1 exactly when the character is absent, and otherwise an index that holds it |
| PyStr.RFindLast | backend/src/classifier/classifier.py:67 | no occurrence of the character comes after the index `rfind` gives |
| PyStr.RFindIsLast | backend/src/classifier/classifier.py:67 | an index holding the character with none after it is the one `rfind` gives |
| PyStr.Slice | backend/src/classifier/classifier.py:70 | `raw[start:end]` is the substring when start <= end and empty otherwise |
| PyStr.Prefix | backend/src/classifier/classifier.py:105 | `text[:n]` is a prefix of the text of length min(n, len) for n >= 0, with Python's count-from-the-end meaning for n < 0 |
| PyStr.BeforeFirst | backend/src/crawler/crawler.py:48 | `split(';')[0]` is the longest prefix free of `;` |
| PyStr.AfterLast | backend/src/crawler/crawler.py:88 | `split('/')[-1]` is the longest suffix free of `/` |
| PyStr.Upper | backend/src/crawler/crawler.py:95 | `upper()` keeps the length, maps each ASCII lower-case letter to its capital and keeps every other character |
| PyStr.Decimal | backend/src/classifier/router.py:80 | `str(id)` is a digit string without leading zeros whose value is the id, with a leading `-` exactly for negative ids |
| PyStr.SplitJoin | backend/src/classifier/classifier.py:93 | splitting a newline-joined list gives the list back when no piece holds a newline |
| Json.In | backend/src/classifier/router.py:203-210 | `key in value` raises exactly on None, booleans and numbers, and tests the keys of a dict |
| Json.GetItem | backend/src/classifier/router.py:204-210 | `value[key]` gives `fields[key]` exactly on a dict that holds the key, `KeyError` on a dict without it and `TypeError` on anything else |
| Json.Get | backend/src/classifier/classifier.py:136 | `.get(key, default)` gives `fields[key]` for a present key and the default for a missing one, and raises `AttributeError` exactly on a non-dict |
| Seqs.Filter | backend/src/guidelines/router.py:26-35 | a filtered query keeps exactly the rows that pass, in table order |
| Seqs.Distinct | backend/src/guidelines/router.py:57 | `SELECT DISTINCT` lists every value of the column once and nothing else |
| Tables.IndexOfId | backend/src/classifier/router.py:71 | the lookup by integer id finds the first row with that id, or reports that none has it |
| Tables.IndexOfDocId | backend/src/crawler/router.py:88-90 | the lookup by the string `doc_id` finds the first row with that key, or reports that none has it |
| Tables.FindById | backend/src/classifier/router.py:306 | a document is found exactly when some row has the id, and the row found has it |
| Tables.Page | backend/src/guidelines/router.py:35 | `.offset(skip).limit(limit)` is a contiguous slice starting at the clamped offset, of `limit` rows or all the rest |
| Classifier.TrimEnd | backend/src/classifier/classifier.py:72 | the `\s*$` tail of a string starts at or before its end |
| Classifier.TrimEndSpaces | backend/src/classifier/classifier.py:72 | everything from the tail position to the end is whitespace, and the character just before it is not |
| Classifier.TrimEndUnique | backend/src/classifier/classifier.py:72 | those two properties determine the tail position |
| Classifier.CollapseClosingBraces | backend/src/classifier/classifier.py:72 | the substitution never lengthens the text, and a changed text keeps its prefix and ends with `}` |
| Classifier.CollapseShape | backend/src/classifier/classifier.py:72 | a text the substitution changes ends with `}` and keeps the prefix before it |
| Classifier.CollapseMatchUnique | backend/src/classifier/classifier.py:72 | the anchored pattern `\}\s*\}\s*$` matches at most one place |
| Classifier.CollapseOnMatch | backend/src/classifier/classifier.py:72-73 | where the pattern matches, the brace, spaces, brace and spaces become a single `}` |
| Classifier.CollapseChangesOnlyMatches | backend/src/classifier/classifier.py:72-73 | a text the pattern does not match comes back unchanged |
| Classifier.NormalizeJson | backend/src/classifier/classifier.py:60-76 | without `{` the input comes back unchanged, and the output is never longer |
| Classifier.JsonCandidate | backend/src/classifier/classifier.py:69-76 | with no `{` the raw text is returned, and the candidate is never longer |
| Classifier.NormalizeJsonAt | backend/src/classifier/classifier.py:66-73 | with `find` and `rfind` known, the result is the collapse of `raw[start:end]` |
| Classifier.NormalizeJsonIsBraceSpan | backend/src/classifier/classifier.py:66-73 | for i the first index of `{` and j the last of `}` with i <= j, the result is the collapse of `raw[i..j]` inclusive |
| Classifier.CandidateIsBraced | backend/src/classifier/classifier.py:70-73 | a span from a `{` to a `}` keeps a `{` first and a `}` last through the collapse |
| Classifier.NormalizeJsonIsBraced | backend/src/classifier/classifier.py:60-76 | a non-empty result for a text with `{` starts with `{` and ends with `}` |
| Classifier.NormalizeJsonWithoutClosingBrace | backend/src/classifier/classifier.py:66-70 | with a `{` but no `}` at or after it the result is the empty string, because the `end == -1` guard can never hold |
| Classifier.RenderRequirement | backend/src/classifier/classifier.py:93 | a requirement renders as `"{id}. [{type}] {text}"` exactly when it is a dict holding the three keys, and raises otherwise |
| Classifier.RenderAll | backend/src/classifier/classifier.py:93 | the comprehension succeeds exactly when every item renders, and gives one line per item in order |
| Classifier.RequirementItems | backend/src/classifier/classifier.py:89-93 | a list is iterated element by element, an empty dict or string gives no items, and anything else raises `TypeError` on the first `r['id']` |
| Classifier.TextForFramework | backend/src/classifier/classifier.py:89-93 | the rendering succeeds exactly for an empty dict or string, or a list whose every item renders; for the empty dict or string the text is the document text |
| Classifier.TextFallsBackExactlyWhenEmpty | backend/src/classifier/classifier.py:93 | the document text is used exactly when the requirement list is empty, otherwise the newline-joined rendering |
| Classifier.TextLinesRecoverable | backend/src/classifier/classifier.py:93 | the prompt text consists of the rendered requirements, one per line, in order |
| Classifier.AskSeesOnlyPrefix | backend/src/classifier/classifier.py:104-152 | every prompt sees only the first `max_document_size` characters of its input |
| Classifier.Ask | backend/src/classifier/classifier.py:104-152 | a prompt raises exactly when the model call raises, and otherwise gives `json.loads` of the normalised answer on the truncated text |
| Classifier.ClassifyFramework | backend/src/classifier/classifier.py:104-126 | a framework prompt raises exactly when its call raises, and otherwise gives the decoded answer, or `{}` when it does not parse |
| Classifier.ExtractList | backend/src/classifier/classifier.py:128-152 | an extraction raises exactly when its call raises, and otherwise gives `data.get(key, [])`, or `[]` when the answer is not a dict |
| Classifier.ClassifyDocument | backend/src/classifier/classifier.py:85-102 | a report carries the timestamp it was built with |
| Classifier.ClassifyDocumentRequirements | backend/src/classifier/classifier.py:86-93 | the report's requirements are the extraction answer's `requirements`, or `[]` when that answer is not a dict |
| Classifier.ClassifyDocumentRenderFailure | backend/src/classifier/classifier.py:89-93 | requirements that fail to render make the call raise with the rendering's error, before any framework prompt |
| Classifier.ClassifyDocumentOnceRendered | backend/src/classifier/classifier.py:85-102 | once the requirements render to a text, the call raises if a framework or keyword prompt on that text raises, and otherwise returns their answers with the requirements and timestamp |
| Classifier.ClassifyDocumentSucceeds | backend/src/classifier/classifier.py:85-102 | once the requirements render, the call succeeds exactly when the two framework calls and the keyword call on the rendered text all return |
| Classifier.ClassifyDocumentFields | backend/src/classifier/classifier.py:95-152 | each field falls back on its own: an unparsable framework answer gives `{}`, a keyword answer that does not parse to a dict holding `keywords` gives `[]`, and the other fields keep their decoded answers |
| Classifier.ClassifyDocumentSeesOnlyPrefix | backend/src/classifier/classifier.py:85-152 | two documents that agree on their first `max_document_size` characters get the same report |
| Classifier.UnparsableAnswersGiveEmptyReport | backend/src/classifier/classifier.py:86-152 | answers that never parse give a complete report with `{}` for both frameworks and `[]` for requirements and keywords |
| Classifier.ExtractionFailureRaises | backend/src/classifier/classifier.py:128-131 | a model call that raises during extraction, outside the `try`, makes the whole classification raise |
| ClassifierRouter.IdsOf | backend/src/classifier/router.py:94 | the worker gets the ids of the selected documents, one per document, in order |
| ClassifierRouter.SkipLabel | backend/src/classifier/router.py:80 | the label is the title when it is truthy, and otherwise `Document ` followed by `str(id)` |
| ClassifierRouter.ExplicitSelection | backend/src/classifier/router.py:69-82 | each requested id adds at most one document or one label |
| ClassifierRouter.ExplicitSelectionStep | backend/src/classifier/router.py:70-82 | one more requested id skips a missing document, adds a label for a classified one and appends an unclassified one |
| ClassifierRouter.Select | backend/src/classifier/router.py:61-84 | labels are produced only by the `document_ids` rule, and the other rules select no more documents than the table holds |
| ClassifierRouter.SelectDocuments | backend/src/classifier/router.py:61-84 | the handler's lists and loop compute exactly the selection the three rules define |
| ClassifierRouter.SelectionPrecedence | backend/src/classifier/router.py:64-84 | `all_documents` wins over both lists, `document_ids` is used only without the flag, `section_ids` only when `document_ids` is empty, and nothing is selected otherwise |
| ClassifierRouter.AllDocumentsSelectsUnclassified | backend/src/classifier/router.py:64-68 | an `all_documents` run selects exactly the documents no result names |
| ClassifierRouter.ExplicitSelectionKeepsRequestOrder | backend/src/classifier/router.py:69-82 | with `document_ids`, the selection keeps request order and repetitions, drops missing ids, holds only unclassified documents, and skips one label per already classified id, each the title or `Document <id>` |
| ClassifierRouter.ExplicitSelectionOrder | backend/src/classifier/router.py:69-82 | with `document_ids`, the ids of the selected documents are the requested ids that name an unclassified document, in request order with repetitions |
| ClassifierRouter.ExplicitSelectionSkips | backend/src/classifier/router.py:73-80 | the labels are, in request order, one per requested id of an already classified document, each that document's title or `Document <id>` |
| ClassifierRouter.ExplicitSelectionSound | backend/src/classifier/router.py:69-82 | every selected document exists and has no result |
| ClassifierRouter.SkippedMessage | backend/src/classifier/router.py:109-111 | the skipped-documents message is present exactly when something was skipped |
| ClassifierRouter.ClassifierService.constructor | backend/src/classifier/router.py:21-27 | the record starts idle with zero counters and no timestamps |
| ClassifierRouter.ClassifierService.ClassifyDocuments | backend/src/classifier/router.py:86-122 | an empty selection gives 404 with the record untouched; otherwise the record is reset to total = selected, processed = 0, `initializing`, whatever it held, and the response carries those counts |
| ClassifierRouter.Attempt | backend/src/classifier/router.py:305-328 | a document commits a row exactly when it exists, its classification returns and the commit succeeds; the row holds the id, the user, the serialised report and the step's time |
| ClassifierRouter.RunEnvAttempt | backend/src/classifier/router.py:304-323 | in a real run a document commits exactly when `classify_document` with the default `ClassificationConfig()` returns a report for its content and the commit succeeds; the row holds the serialised report, whose timestamp is that step's |
| ClassifierRouter.WorkerStep | backend/src/classifier/router.py:304-323 | one more document adds its row to the committed rows and `idx + 1` to the progress writes exactly when it commits |
| ClassifierRouter.ClassifierService.ClassifyDocumentsBackground | backend/src/classifier/router.py:290-334 | for the ids of any start, the run appends exactly the committed rows, leaves `processed_documents` at the last value it wrote (or as it was), ends `completed` with a completion time, and keeps the total of the current record |
| ClassifierRouter.ProgressWritesFacts | backend/src/classifier/router.py:304-323 | the values written to `processed_documents` strictly increase and are exactly idx + 1 for each document that committed |
| ClassifierRouter.ProcessedIsLastSuccess | backend/src/classifier/router.py:304-328 | after a run `processed_documents` is 0 when no document committed, otherwise one past the last document that did |
| ClassifierRouter.EveryCommitIsKept | backend/src/classifier/router.py:304-328 | a failed document does not stop the loop: every document that commits has its row in the table |
| ClassifierRouter.StaleRunOvershoots | backend/src/classifier/router.py:98-107 | a run whose last document commits leaves `processed_documents` at its own length, whatever the record held, so a run of an earlier start can push the count above a later start's total |
| ClassifierRouter.ClassifierService.GetProgress | backend/src/classifier/router.py:337-351 | the handler passes the record's total as both `processed_count` and `total_count`, its processed count as `current_count` and its status text, and a poller never sees `error` |
| ClassifierRouter.LatestResultFor | backend/src/classifier/router.py:139-141 | the result read is a row of that document that no other row of it postdates, and none exactly when no row names it |
| ClassifierRouter.GetClassificationResults | backend/src/classifier/router.py:125-167 | 404 exactly when the document is missing, `not_classified` exactly when no result names it, and otherwise the latest row's decoded result and `created_at` when it parses and the error view when it does not, always with the document's id and title |
| ClassifierRouter.PrimaryKey | backend/src/classifier/router.py:203-211 | a counter is incremented only for one of the fixed keys |
| ClassifierRouter.Bump | backend/src/classifier/router.py:206 | an increment never adds or removes a counter key |
| ClassifierRouter.TallyStats | backend/src/classifier/router.py:193-213 | the loop with its `document_ids` set counts exactly the first row of each document |
| ClassifierRouter.TallyRow | backend/src/classifier/router.py:194-211 | one pass of the loop extends the seen set and the counters from the rows before it to that row |
| ClassifierRouter.TallyStep | backend/src/classifier/router.py:193-211 | a row of an already seen document changes no counter; the first row of a document bumps the counters its contribution names |
| ClassifierRouter.FirstPerDocumentDistinct | backend/src/classifier/router.py:193-198 | the rows looked at name distinct documents and cover every document of the results |
| ClassifierRouter.FirstPerDocumentIsFirst | backend/src/classifier/router.py:193-198 | each row looked at is the first row of its document in query order |
| ClassifierRouter.FirstPerDocumentFacts | backend/src/classifier/router.py:193-198 | each document is looked at once, through its first row in query order, even when that row fails to parse |
| ClassifierRouter.LatestResultIsCounted | backend/src/classifier/router.py:189-198 | in the query's order the row counted for a document is its latest |
| ClassifierRouter.TallyCountsEachPickOnce | backend/src/classifier/router.py:181-211 | the two counter dicts hold exactly ID/PR/DE/RS/RC and FR1-FR7, and each dict's total is at most the number of documents counted |
| ClassifierRouter.GetClassificationStats | backend/src/classifier/router.py:170-221 | the totals count the documents and the documents with a result, and the counters are the tally of the latest row per document |
| Crawler.DefaultTarget | backend/src/crawler/models.py:5-10 | a target defaults to depth 2 with HTML among its MIME filters |
| Crawler.ContentType | backend/src/crawler/crawler.py:48 | the content type is the header cut before its first `;` |
| Crawler.SourceType | backend/src/crawler/crawler.py:81-95 | `HTML` for text/html, `PDF` for application/pdf, otherwise the upper-cased last `/` segment |
| Crawler.ProcessDocument | backend/src/crawler/crawler.py:76-111 | the id is the URL's hash and the language `en`; an HTML page takes the title tag's string, or the URL without a title tag, gives no document for a tag without a string, and keeps the page text; a PDF or other type takes the URL's last segment as title and a fixed placeholder content |
| Crawler.OwnDocument | backend/src/crawler/crawler.py:48-53 | a fetched page gives at most one document of its own, for its URL and only when its content type is a target MIME filter |
| Crawler.Visit | backend/src/crawler/crawler.py:36-74 | a walk only adds to the visited set |
| Crawler.VisitLinks | backend/src/crawler/crawler.py:55-71 | the link loop only adds to the visited set |
| Crawler.Resolve | backend/src/crawler/crawler.py:60-69 | `/`-hrefs get the page's scheme and host, absolute hrefs are kept, others are appended to the page URL with one `/`, and `urlparse` raising stops the link loop |
| Crawler.ResolveIsNotReferenceResolution | backend/src/crawler/crawler.py:65-69 | a sibling reference is appended below the page URL instead of replacing its last segment |
| Crawler.VisitFacts | backend/src/crawler/crawler.py:36-74 | a walk fetches no URL twice or already visited, stays within depth bounds, marks the start visited even when its fetch fails, and emits only admitted documents of fetched URLs |
| Crawler.VisitLinksFacts | backend/src/crawler/crawler.py:55-71 | the links of a page are walked at depth + 1 with the same guarantees |
| Crawler.PageThenLinks | backend/src/crawler/crawler.py:48-71 | a fetched page followed by a sound walk of its links is a sound walk from the page's URL |
| Crawler.WalkThenWalk | backend/src/crawler/crawler.py:59-71 | two sound walks in sequence, the second from the visited set the first left, make one sound walk |
| Crawler.VisitPage | backend/src/crawler/crawler.py:36-71 | an unvisited URL within depth whose fetch succeeds is marked visited and gives its own document; its links are walked only for an HTML page below the depth limit |
| Crawler.VisitLinksStep | backend/src/crawler/crawler.py:59-71 | each link is walked from the visited set the earlier links left, in link order |
| Crawler.StoppedStaysStopped | backend/src/crawler/crawler.py:59-74 | once the loop is left by an exception, later links are not walked |
| Crawler.LinkLoopStopsOnlyOnResolution | backend/src/crawler/crawler.py:59-74 | the link loop stops early exactly when some href cannot be resolved (`SomeUnresolvable`); a failed fetch below a link never stops its siblings |
| Crawler.UnresolvableStep | backend/src/crawler/crawler.py:60-69 | some href of a list is unresolvable exactly when one of the earlier hrefs is or the last one is |
| Crawler.RevisitFindsNothing | backend/src/crawler/crawler.py:38-41 | a walk from the visited set a walk of the same start left finds nothing |
| Crawler.PreOrder | backend/src/crawler/crawler.py:48-71 | a page's own document comes before any document of its links |
| Crawler.Crawler.constructor | backend/src/crawler/crawler.py:16-21 | a new crawler has an empty visited set and the fixed User-Agent |
| Crawler.Crawler.Crawl | backend/src/crawler/crawler.py:23-34 | `crawl` returns the documents of a walk from depth 0 and keeps the visited set it leaves |
| Crawler.Crawler.CrawlUrl | backend/src/crawler/crawler.py:36-74 | `_crawl_url` appends exactly the walk's documents to the shared list and updates the visited set accordingly |
| Crawler.Crawler.CrawlLinks | backend/src/crawler/crawler.py:59-71 | the link loop appends exactly the documents of the links' walks |
| Crawler.RecrawlYieldsNothing | backend/src/crawler/crawler.py:21-41 | on one instance a second crawl of the same target yields no documents |
| CrawlerRouter.Stage | backend/src/crawler/router.py:87-109 | updates never add rows to the committed table |
| CrawlerRouter.RunCrawlerTask | backend/src/crawler/router.py:81-118 | after the one commit the table holds every upsert, and after a failed commit none of them |
| CrawlerRouter.UpsertTouchesOnlyFourFields | backend/src/crawler/router.py:88-96 | an existing row keeps id, doc_id, url, source type, language and owner; only title, original_title, content and downloaded_at change |
| CrawlerRouter.LastMatch | backend/src/crawler/router.py:87-96 | finds the last crawled document with a given doc_id |
| CrawlerRouter.LastUpdateWins | backend/src/crawler/router.py:87-96 | the last crawled document naming a row decides its fields; a row no crawled document names is unchanged |
| CrawlerRouter.PendingAreTheNewDocuments | backend/src/crawler/router.py:97-109 | the rows added are the crawled documents with an unknown doc_id, in crawl order, with all fields and `owner_id = user_id` |
| CrawlerRouter.MaxIdBounds | backend/src/crawler/router.py:109-111 | the id the flush numbers from is at least every existing id |
| CrawlerRouter.MaxIdSnoc | backend/src/crawler/router.py:109-111 | the largest id after one more row is that row's id when it is larger, else the old largest id |
| CrawlerRouter.AssignIdsTop | backend/src/crawler/router.py:109-111 | after numbering, the largest id is the number of new rows past the largest existing one |
| CrawlerRouter.AssignIdsConsecutive | backend/src/crawler/router.py:109-111 | numbering each new row one past the largest id so far numbers the new rows consecutively above every existing id |
| CrawlerRouter.AssignedIdsAreFresh | backend/src/crawler/router.py:109-111 | inserted rows keep their fields and get increasing ids above every existing one |
| CrawlerRouter.DocIdsDistinctConcat | backend/src/crawler/router.py:87-111 | two tables with unique `doc_id`s and no key in common make one table with unique `doc_id`s |
| CrawlerRouter.StagedKeepsDocIds | backend/src/crawler/router.py:88-96 | updating existing rows keeps their `doc_id`s |
| CrawlerRouter.PendingDocIdsAreNew | backend/src/crawler/router.py:97-109 | no added row has the `doc_id` of a committed row |
| CrawlerRouter.UpsertKeepsDocIdsUnique | backend/src/crawler/router.py:87-111 | a committed upsert keeps `doc_id` unique and adds one row per new document |
| CrawlerRouter.InsertByRecency | backend/src/crawler/router.py:63-64 | inserting one row into the ordering adds exactly that row |
| CrawlerRouter.InsertBelowHead | backend/src/crawler/router.py:63-64 | a row older than the head inserted into the tail leaves every row there no newer than the head |
| CrawlerRouter.ConsNewestFirst | backend/src/crawler/router.py:63-64 | a row no older than every row of a newest-first table can go in front of it |
| CrawlerRouter.InsertKeepsNewestFirst | backend/src/crawler/router.py:63-64 | inserting keeps the rows newest first |
| CrawlerRouter.SortByRecency | backend/src/crawler/router.py:63-64 | `ORDER BY downloaded_at DESC` is a permutation of the table, newest first |
| CrawlerRouter.StatusView | backend/src/crawler/router.py:67-77 | `original_title` falls back to `title` when empty or missing |
| CrawlerRouter.Views | backend/src/crawler/router.py:67-78 | one entry per row, in order |
| CrawlerRouter.GetCrawlerStatus | backend/src/crawler/router.py:56-78 | the listing holds `limit` entries, or every document for a negative limit or a small table |
| CrawlerRouter.StatusIsSortedPrefix | backend/src/crawler/router.py:56-78 | the listing is the views of a prefix of the sorted table, of `limit` rows or all of them |
| CrawlerRouter.StatusSplitsTheTable | backend/src/crawler/router.py:56-78 | the listed prefix and the rest of the sorted table are together the whole table |
| CrawlerRouter.StatusTimestamps | backend/src/crawler/router.py:63-78 | entry `i` of the listing has the timestamp of row `i` of the sorted table |
| CrawlerRouter.StatusIsNewestFirst | backend/src/crawler/router.py:63-78 | the listing is newest first |
| CrawlerRouter.StatusLeavesOutOnlyOlder | backend/src/crawler/router.py:63-78 | no document left out is newer than any document listed |
| CrawlerRouter.StatusListsTheNewest | backend/src/crawler/router.py:56-78 | the listing holds `limit` entries (all of them for a negative limit or a small table), newest first, and no document left out is newer than any listed |
| Guidelines.Views | backend/src/guidelines/router.py:37-50 | one projected dictionary per row, in order, each with its own keyword strings |
| Guidelines.GetGuidelines | backend/src/guidelines/router.py:16-52 | the listing is the page at `skip` of the filtered rows, of `limit` rows or all the rest |
| Guidelines.MatchingIsConjunction | backend/src/guidelines/router.py:28-33 | a row is listed exactly when it passes every supplied, non-empty filter |
| Guidelines.EmptyFiltersSelectAll | backend/src/guidelines/router.py:28-33 | absent and empty filters select the whole table |
| Guidelines.MatchingIsSound | backend/src/guidelines/router.py:26-33 | a row of the filtered query is a table row that passes the filters |
| Guidelines.ListingIsSound | backend/src/guidelines/router.py:35-50 | every entry of the listing is the view of a table row that passes the filters, with that row's keywords in relation order |
| Guidelines.SearchGuidelines | backend/src/guidelines/router.py:72-106 | every search result's control text contains the query |
| Guidelines.SearchIsSound | backend/src/guidelines/router.py:78-106 | every search result is the view of a table row whose control text holds the query and that passes the filters |
| Guidelines.SearchIsExact | backend/src/guidelines/router.py:78-89 | a guideline is found exactly when its control text holds the query and it passes the filters, with no pagination |
| Guidelines.DistinctValuesEndpoints | backend/src/guidelines/router.py:54-70 | the categories, standards and regions endpoints list each value of their column exactly once and nothing else |
| Guidelines.GetCategories | backend/src/guidelines/router.py:54-58 | the categories endpoint lists no value twice and no more values than rows |
| Guidelines.GetStandards | backend/src/guidelines/router.py:60-64 | the standards endpoint lists no value twice and no more values than rows |
| Guidelines.GetRegions | backend/src/guidelines/router.py:66-70 | the regions endpoint lists no value twice and no more values than rows |
| Guidelines.ColumnHolds | backend/src/guidelines/router.py:54-70 | a value is listed for a column exactly when some guideline has it in that column |
| Admin.GetAllDocuments | backend/src/admin/router.py:18-34 | the append loop gives one entry per document of the page at `skip`, in order |
| Admin.Info | backend/src/admin/router.py:28-33 | an entry carries the document's id, doc_id, title and URL, and `is_classified` exactly when some result names the document |
| Admin.Infos | backend/src/admin/router.py:27-33 | one entry per document, in order, entry `k` being the columns and `is_classified` flag of document `k` |
| Admin.ListingFlagsClassified | backend/src/admin/router.py:25-33 | `is_classified` is true exactly when some result names the document |
| Admin.Without | backend/src/admin/router.py:69 | removing one row leaves the others |
| Admin.WithoutAt | backend/src/admin/router.py:69 | the rows before the removed one keep their position, the rows after it move up by one |
| Admin.WithoutDropsKey | backend/src/admin/router.py:69 | with unique `doc_id`s, removing a row removes its key and keeps every row with another key |
| Admin.DeleteDocument | backend/src/admin/router.py:37-72 | `confirmed = false` gives 400 before the lookup, an unknown `doc_id` gives 404, and both leave the table unchanged; otherwise exactly that row goes |
| Admin.DeleteRemovesExactlyThatDocument | backend/src/admin/router.py:52-70 | a delete removes the one document with that `doc_id` and keeps every other |
| Admin.IndexOfUser | backend/src/admin/router.py:94 | the lookup finds the first user with that id, or reports that none has it |
| Admin.Toggled | backend/src/admin/router.py:101 | the toggle flips `is_admin` of that user and changes nothing else |
| Admin.ToggleAdminStatus | backend/src/admin/router.py:86-116 | an unknown user gives 404 and no change; otherwise the flag flips and the message names the new state |
| Admin.ToggleTwiceRestores | backend/src/admin/router.py:94-114 | toggling the same user twice restores the table |

## Left out

- The language model, `json.loads`/`json.dumps`, `str()` of lists and dicts, `requests`/BeautifulSoup, `urlparse`, SHA-256 and `datetime.now()` are function-valued inputs. The prompt templates (`backend/src/classifier/prompt.py`) are not part of this model.
- The thread-pool hand-off in `classify_documents` can let the worker start before the reset of the progress record. The model runs the reset first. FastAPI background tasks, logging and the audit-log prints are out.
- ClassifierRouter.ClassifierService.ClassifyDocumentsBackground: the loop body is the function `Attempt` (lookup, classification, commit), because stating it statement by statement made the proof too costly. The method is stated for any classifier `env.classifyAt`. `RunEnv` builds the one a real run uses, and `RunEnvAttempt` states what a step of such a run commits. The `in_progress` write is made; only its effect at the end is stated.
- ClassifierRouter.GetClassificationStats: the `ORDER BY document_id, created_at DESC` query is an input, `ordered`. The requires states that it is a permutation of the result table in that order.
- ClassifierRouter.ClassifierService.ClassifyDocumentsBackground: a whole run is one atomic step of the service. The model covers a run for the ids of an earlier start writing into a later start's record (`StaleRunOvershoots`, and `GetProgress`, which promises no bound of the count by the total). It does not cover the writes of two workers interleaving with each other or with a start in the middle of a run.
- `classification_percentage` at `backend/src/classifier/router.py:218` is a float and is not modelled.
- `get_all_classifications` (`backend/src/classifier/router.py:224-287`) is not part of this model.
- Response shaping by pydantic is not modelled. The handlers' models state the fields each handler passes. The served `ClassificationResult` (`backend/src/classifier/models.py:24-28`) declares only `processed_count`, `categories_count` and `frameworks` and drops the rest. So a poller of `/classifier/progress` receives the total as `processed_count` and neither the current count nor the status. A start response likewise loses the skipped list and the message.
- The rejection of a `None` title by the crawled `Document` model is the `None` result of `Crawler.ProcessDocument`.
- The string columns `content`, `category`, `standard`, `region`, `control_text` and `username`, which the code never tests for truthiness, are taken as non-NULL. A NULL `content` would make `classify_document` raise at `document_text[:max_document_size]` (`backend/src/classifier/classifier.py:105`), so the worker would skip that document. A NULL category would be listed as `null`. None of the code's own writers stores NULL there.
- `backend/src/db/models.py` declares no `ClassificationResult` class, yet `backend/src/classifier/router.py:5` and `backend/src/admin/router.py:7` import one, so the application fails at import. The model assumes a results table with the columns the routers use (`Tables.ClassificationRow`).
- Admin.GetAllDocuments: the handler's `response_model=List[DocumentInfo]` (`backend/src/admin/router.py:18`) declares no `is_classified` field (`backend/src/admin/models.py:16-24`), so the served listing drops the flag. The model states the list the handler builds, flag included.
- Deleting a document leaves `document_sections.document_id` to the `sections` relationship (`backend/src/db/models.py:33`), which nulls it. The section table is not part of this model.
- `original_title` is assigned and read by the crawl router, but neither the ORM class nor the crawled `Document` model declares it. The model assumes the column exists.
- `run_crawler_task` calls `Crawler(db=db)`, which raises because the constructor takes no arguments. The upsert therefore takes the crawled document list as input. The session mechanics are modelled only as far as the commit: lookups see committed rows only, new rows are numbered at the flush, and the commit fails on a duplicate new `doc_id`.
- Guidelines.SearchGuidelines: SQL `LIKE` wildcards and case-insensitivity are not modelled. The test is a plain substring test.
- A tie in `ORDER BY ... DESC` is taken to keep rowid order. SQLite does not promise any order for ties.
- PyStr.Upper: only ASCII letters are upper-cased. Unicode case mapping is not modelled.
- Deleting a document does not cascade to its classification results, since none is declared. The model keeps them.
- `get_all_users` (`backend/src/admin/router.py:75-83`) is a plain page of the users table and is not modelled. Authentication (`backend/src/auth/`) and the vector index (`backend/src/indexer/`) are not part of this model.
- Floats in JSON values are not modelled.
