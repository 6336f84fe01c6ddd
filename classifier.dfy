/** backend/src/classifier/classifier.py: cleaning up the language model's JSON
    answer, building the text the framework prompts see, truncating every
    prompt, and assembling the per-document classification report. The model
    itself is a parameter: `invoke` returns the answer text, or None where the
    call raises. */
module Classifier {
  import opened Wrappers
  import opened PyStr
  import opened Json

  /** `MAX_DOCUMENT_SIZE` when the environment does not set it. */
  const DefaultMaxDocumentSize: int := 3000

  // ---------------------------------------------------------------------------
  // normalize_json

  /** Every character of `c` from `lo` up to `hi` is a space (`\s`). */
  predicate SpacesBetween(c: string, lo: int, hi: int)
    requires 0 <= lo && hi <= |c|
  {
    forall j :: lo <= j < hi ==> IsSpace(c[j])
  }

  /** The index just past the last non-space character of `c`. */
  function TrimEnd(c: string): (e: nat)
    ensures e <= |c|
  {
    if c == [] then 0
    else if IsSpace(c[|c| - 1]) then TrimEnd(c[..|c| - 1])
    else |c|
  }

  /** Everything after TrimEnd's position is a space, and the character just
      before it is not. */
  lemma {:induction false} TrimEndSpaces(c: string)
    ensures SpacesBetween(c, TrimEnd(c), |c|)
    ensures TrimEnd(c) > 0 ==> !IsSpace(c[TrimEnd(c) - 1])
  {
    if c != [] && IsSpace(c[|c| - 1]) {
      var d := c[..|c| - 1];
      TrimEndSpaces(d);
      assert forall j :: TrimEnd(d) <= j < |d| ==> d[j] == c[j];
    }
  }

  /** The position TrimEnd returns is the only one with its two properties. */
  lemma TrimEndUnique(c: string, e: nat)
    requires e <= |c| && SpacesBetween(c, e, |c|)
    requires e > 0 ==> !IsSpace(c[e - 1])
    ensures TrimEnd(c) == e
  {
  }

  /** The pattern `\}\s*\}\s*$` matches `c` starting at `i`, its second brace
      being at `k`: a brace, spaces, a brace, spaces up to the end. */
  predicate ClosingPairAt(c: string, i: int, k: int) {
    0 <= i < k < |c| && c[i] == '}' && c[k] == '}' && SpacesBetween(c, i + 1, k) && SpacesBetween(c, k + 1, |c|)
  }

  /** `re.sub(r"\}\s*\}\s*$", "}", c)`, computed by looking back from the end. */
  function CollapseClosingBraces(c: string): (r: string)
    ensures |r| <= |c|
  {
    var e := TrimEnd(c);
    if e > 0 && c[e - 1] == '}' then
      var j := TrimEnd(c[..e - 1]);
      if j > 0 && c[j - 1] == '}' then c[..j - 1] + "}" else c
    else c
  }

  /** A changed text ends in the one brace that replaced the match, and keeps
      everything before it. */
  lemma CollapseShape(c: string)
    ensures var r := CollapseClosingBraces(c);
            r != c ==> |r| >= 1 && r[|r| - 1] == '}' && r[..|r| - 1] == c[..|r| - 1]
  {
  }

  /** A match of the pattern is unique: it must end at the last non-space brace,
      and begin at the brace that precedes it across spaces. */
  lemma CollapseMatchUnique(c: string, i: int, k: int, i': int, k': int)
    requires ClosingPairAt(c, i, k) && ClosingPairAt(c, i', k')
    ensures i == i' && k == k'
  {
    TrimEndUnique(c, k + 1);
    TrimEndUnique(c, k' + 1);
    TrimEndUnique(c[..k], i + 1);
    TrimEndUnique(c[..k], i' + 1);
  }

  /** Where the pattern matches, the substitution replaces the match by one
      brace: `...}<spaces>}<spaces>` becomes `...}`. */
  lemma {:induction false} CollapseOnMatch(c: string, i: int, k: int)
    requires ClosingPairAt(c, i, k)
    ensures CollapseClosingBraces(c) == c[..i] + "}"
  {
    TrimEndUnique(c, k + 1);
    TrimEndUnique(c[..k], i + 1);
  }

  /** Whatever the substitution changes is a match of the pattern, so a
      string with no match comes back unchanged. */
  lemma {:induction false} CollapseChangesOnlyMatches(c: string)
    ensures CollapseClosingBraces(c) != c ==>
      ClosingPairAt(c, |CollapseClosingBraces(c)| - 1, TrimEnd(c) - 1)
  {
    var e := TrimEnd(c);
    TrimEndSpaces(c);
    if e > 0 && c[e - 1] == '}' {
      var j := TrimEnd(c[..e - 1]);
      TrimEndSpaces(c[..e - 1]);
      assert SpacesBetween(c[..e - 1], j, e - 1);
    }
  }

  /** `normalize_json(raw)`: the text from the first `{` through the last `}`,
      with one trailing duplicated brace collapsed. The guard `end == -1` can
      never hold because `end` is `rfind + 1`. */
  function NormalizeJson(raw: string): (r: string)
    ensures '{' !in raw ==> r == raw
    ensures |r| <= |raw|
  {
    JsonCandidate(raw, Find(raw, '{'), RFind(raw, '}') + 1)
  }

  /** The body of `normalize_json` once `start` and `end` are computed. */
  function JsonCandidate(raw: string, start: int, end: int): (r: string)
    requires -1 <= start < |raw| && 0 <= end <= |raw|
    ensures start == -1 ==> r == raw
    ensures |r| <= |raw|
  {
    if start == -1 || end == -1 then raw
    else CollapseClosingBraces(Slice(raw, start, end))
  }

  /** `normalize_json` once `find` and `rfind` are known: `i` is the first
      `{` and `e` is one past the last `}`. */
  lemma NormalizeJsonAt(raw: string, i: int, e: int)
    requires 0 <= i < |raw| && 0 <= e <= |raw| && Find(raw, '{') == i && RFind(raw, '}') + 1 == e
    ensures NormalizeJson(raw) == CollapseClosingBraces(Slice(raw, i, e))
  {
    calc {
      NormalizeJson(raw);
      JsonCandidate(raw, Find(raw, '{'), RFind(raw, '}') + 1);
      JsonCandidate(raw, i, e);
      CollapseClosingBraces(Slice(raw, i, e));
    }
  }

  /** The candidate is the text from the first `{` through the last `}`: for
      `i` the first index of `{` and `j` the last index of `}`, with `i <= j`,
      the result is the collapse of `raw[i..j + 1]`. */
  lemma NormalizeJsonIsBraceSpan(raw: string, i: int, j: int)
    requires 0 <= i <= j < |raw|
    requires raw[i] == '{' && '{' !in raw[..i]
    requires raw[j] == '}' && '}' !in raw[j + 1..]
    ensures NormalizeJson(raw) == CollapseClosingBraces(raw[i..j + 1])
  {
    FindIsFirst(raw, '{', i);
    RFindIsLast(raw, '}', j);
    NormalizeJsonAt(raw, i, j + 1);
  }

  /** A candidate that runs from a `{` to a `}` keeps both ends through the
      substitution. */
  lemma CandidateIsBraced(raw: string, i: int, j: int)
    requires 0 <= i <= j < |raw| && raw[i] == '{' && raw[j] == '}'
    ensures var r := CollapseClosingBraces(Slice(raw, i, j + 1)); |r| >= 1 && r[0] == '{' && r[|r| - 1] == '}'
  {
    var c := raw[i..j + 1];
    assert Slice(raw, i, j + 1) == c;
    assert c[0] == '{' && c[|c| - 1] == '}';
    CollapseShape(c);
    CollapseChangesOnlyMatches(c);
  }

  /** Where the text has a `{`, a non-empty result starts with `{` and ends
      with `}`. */
  lemma NormalizeJsonIsBraced(raw: string)
    requires '{' in raw && NormalizeJson(raw) != ""
    ensures NormalizeJson(raw)[0] == '{' && NormalizeJson(raw)[|NormalizeJson(raw)| - 1] == '}'
  {
    var i := Find(raw, '{');
    var j := RFind(raw, '}');
    NormalizeJsonAt(raw, i, j + 1);
    if i <= j {
      CandidateIsBraced(raw, i, j);
    }
  }

  /** When every `}` comes before the first `{`, including when there is no
      `}` at all, the result is empty rather than `raw`. */
  lemma {:induction false} NormalizeJsonWithoutClosingBrace(raw: string)
    requires '{' in raw
    requires forall j :: Find(raw, '{') <= j < |raw| ==> raw[j] != '}'
    ensures NormalizeJson(raw) == ""
  {
  }

  // ---------------------------------------------------------------------------
  // text_for_fw

  /** `f"{r['id']}. [{r['type']}] {r['text']}"`, raising where a lookup raises. */
  function RenderRequirement(r: Json, show: Json -> string): (line: Result<string, PyError>)
    ensures line.Ok? <==> r.JObj? && "id" in r.fields && "type" in r.fields && "text" in r.fields
    ensures line.Ok? ==>
              line.value == Str(r.fields["id"], show) + ". [" + Str(r.fields["type"], show) + "] " + Str(r.fields["text"], show)
  {
    var id :- GetItem(r, "id");
    var kind :- GetItem(r, "type");
    var text :- GetItem(r, "text");
    Ok(Str(id, show) + ". [" + Str(kind, show) + "] " + Str(text, show))
  }

  /** The list comprehension over the requirement items: the first item that
      fails to render raises. */
  function RenderAll(items: seq<Json>, show: Json -> string): (lines: Result<seq<string>, PyError>)
    ensures lines.Ok? <==> forall k :: 0 <= k < |items| ==> RenderRequirement(items[k], show).Ok?
    ensures lines.Ok? ==> |lines.value| == |items|
    ensures lines.Ok? ==> forall k :: 0 <= k < |items| ==> lines.value[k] == RenderRequirement(items[k], show).value
  {
    if items == [] then Ok([])
    else
      var first := RenderRequirement(items[0], show);
      var rest := RenderAll(items[1..], show);
      if first.Err? then Err(first.error)
      else if rest.Err? then Err(rest.error)
      else
        assert forall k :: 1 <= k < |items| ==> items[k] == items[1..][k - 1];
        Ok([first.value] + rest.value)
  }

  /** What `for r in reqs` iterates over, up to the first element that `r['id']`
      would reject: a str's characters and a dict's keys are strings, on which
      `r['id']` raises, so only their empty forms iterate without error. */
  function RequirementItems(reqs: Json): (items: Result<seq<Json>, PyError>)
    ensures reqs.JArr? ==> items == Ok(reqs.items)
    ensures items.Ok? <==> reqs.JArr? || reqs == JObj(map[]) || reqs == JStr("")
    ensures items.Ok? && !reqs.JArr? ==> items.value == []
    ensures items.Err? ==> items.error == TypeError
  {
    match reqs
    case JArr(xs) => Ok(xs)
    case JObj(f) => if f == map[] then Ok([]) else Err(TypeError)
    case JStr(s) => if s == "" then Ok([]) else Err(TypeError)
    case _ => Err(TypeError)
  }

  /** `"\n".join(...) or document_text`. */
  function TextForFramework(reqs: Json, documentText: string, show: Json -> string): (t: Result<string, PyError>)
    ensures t.Ok? <==>
              reqs == JObj(map[]) || reqs == JStr("") ||
              (reqs.JArr? && forall k :: 0 <= k < |reqs.items| ==> RenderRequirement(reqs.items[k], show).Ok?)
    ensures t.Ok? && !reqs.JArr? ==> t.value == documentText
  {
    var items :- RequirementItems(reqs);
    var lines :- RenderAll(items, show);
    var joined := Join("\n", lines);
    Ok(if joined != "" then joined else documentText)
  }

  lemma {:induction false} JoinNonEmpty(sep: string, xs: seq<string>)
    requires xs != [] && xs[0] != ""
    ensures Join(sep, xs) != ""
  {
    if |xs| > 1 {
      assert Join(sep, xs) == xs[0] + sep + Join(sep, xs[1..]);
      assert |Join(sep, xs)| >= |xs[0]|;
    }
  }

  /** The document text is used exactly when the requirement list is empty;
      otherwise the text is the rendered requirements, one per line, in order. */
  lemma {:induction false} TextFallsBackExactlyWhenEmpty(items: seq<Json>, documentText: string, show: Json -> string)
    requires RenderAll(items, show).Ok?
    ensures items == [] ==> TextForFramework(JArr(items), documentText, show) == Ok(documentText)
    ensures items != [] ==>
      var text := Join("\n", RenderAll(items, show).value);
      text != "" && TextForFramework(JArr(items), documentText, show) == Ok(text)
  {
    if items != [] {
      var lines := RenderAll(items, show).value;
      assert |lines[0]| >= 4;
      JoinNonEmpty("\n", lines);
    }
  }

  /** When no rendered field holds a newline, splitting the text on newlines
      gives back the rendered requirements. */
  lemma {:induction false} TextLinesRecoverable(items: seq<Json>, documentText: string, show: Json -> string)
    requires items != [] && RenderAll(items, show).Ok?
    requires forall k :: 0 <= k < |items| ==> '\n' !in RenderAll(items, show).value[k]
    ensures TextForFramework(JArr(items), documentText, show).Ok?
    ensures Split(TextForFramework(JArr(items), documentText, show).value, '\n') == RenderAll(items, show).value
  {
    TextFallsBackExactlyWhenEmpty(items, documentText, show);
    SplitJoin(RenderAll(items, show).value, '\n');
  }

  // ---------------------------------------------------------------------------
  // The four prompt calls and classify_document

  datatype PromptKind = NistPrompt | IecPrompt | ExtractPrompt | KeywordsPrompt(minLength: int, maxKeywords: int)

  /** The language model and the JSON decoder, abstracted. `invoke` gets the
      already truncated prompt text; None means the call raised. */
  datatype Llm = Llm(
    invoke: (PromptKind, string) -> Option<string>,
    loads: string -> Option<Json>,
    show: Json -> string,
    maxDocumentSize: int)

  /** `KeywordExtractionConfig` defaults. */
  const DefaultMinKeywordLength: int := 3
  const DefaultMaxKeywords: int := 10

  /** One prompt round trip: truncate to `max_document_size`, invoke, then
      `json.loads(normalize_json(raw))`. Outer None: the call raised; inner
      None: the answer did not parse. */
  function Ask(llm: Llm, kind: PromptKind, text: string): (r: Option<Option<Json>>)
    ensures r.None? <==> llm.invoke(kind, Prefix(text, llm.maxDocumentSize)).None?
    ensures r.Some? ==> r.value == llm.loads(NormalizeJson(llm.invoke(kind, Prefix(text, llm.maxDocumentSize)).value))
  {
    var raw :- llm.invoke(kind, Prefix(text, llm.maxDocumentSize));
    Some(llm.loads(NormalizeJson(raw)))
  }

  /** The prompt sees only the first `max_document_size` characters: two texts
      that agree there get the same answer. */
  lemma AskSeesOnlyPrefix(llm: Llm, kind: PromptKind, a: string, b: string)
    requires Prefix(a, llm.maxDocumentSize) == Prefix(b, llm.maxDocumentSize)
    ensures Ask(llm, kind, a) == Ask(llm, kind, b)
  {
  }

  /** What a framework prompt contributes to the report: the decoded answer,
      whatever its shape, or the empty dict when it did not parse. */
  function ObjectOrEmpty(parsed: Option<Json>): Json {
    match parsed
    case Some(v) => v
    case None => JObj(map[])
  }

  /** What a list prompt contributes: the value under `key` of a decoded dict,
      and the empty list for a missing key, a non-dict or an unparsed answer. */
  function ListField(parsed: Option<Json>, key: string): Json {
    match parsed
    case Some(JObj(f)) => if key in f then f[key] else JArr([])
    case _ => JArr([])
  }

  /** `_classify_nist` / `_classify_iec`: the decoded answer, `{}` when it does
      not parse. */
  function ClassifyFramework(llm: Llm, kind: PromptKind, text: string): (r: Option<Json>)
    ensures r.None? <==> llm.invoke(kind, Prefix(text, llm.maxDocumentSize)).None?
    ensures r.Some? ==> r.value == ObjectOrEmpty(Ask(llm, kind, text).value)
  {
    var parsed :- Ask(llm, kind, text);
    Some(if parsed.Some? then parsed.value else JObj(map[]))
  }

  /** `_extract_document` / `_extract_keywords`: `data.get(key, [])`, and `[]`
      when the answer does not parse or is not a dict. */
  function ExtractList(llm: Llm, kind: PromptKind, text: string, key: string): (r: Option<Json>)
    ensures r.None? <==> llm.invoke(kind, Prefix(text, llm.maxDocumentSize)).None?
    ensures r.Some? ==> r.value == ListField(Ask(llm, kind, text).value, key)
  {
    var parsed :- Ask(llm, kind, text);
    Some(if parsed.None? then JArr([])
         else var got := Get(parsed.value, key, JArr([]));
              if got.Ok? then got.value else JArr([]))
  }

  /** The keys of the dict `classify_document` returns. */
  datatype Report = Report(timestamp: string, nist: Json, iec: Json, requirements: Json, keywords: Json)

  datatype ClassifyError = LlmCallFailed | RenderFailed(cause: PyError)

  /** `classify_document(document_text, config)`. */
  function ClassifyDocument(llm: Llm, documentText: string, minLength: int, maxKeywords: int, timestamp: string)
    : (r: Result<Report, ClassifyError>)
    ensures r.Ok? ==> r.value.timestamp == timestamp
  {
    var reqs :- ExtractList(llm, ExtractPrompt, documentText, "requirements").ToResult(LlmCallFailed);
    var text :- TextForFramework(reqs, documentText, llm.show).MapError(e => RenderFailed(e));
    var nist :- ClassifyFramework(llm, NistPrompt, text).ToResult(LlmCallFailed);
    var iec :- ClassifyFramework(llm, IecPrompt, text).ToResult(LlmCallFailed);
    var keywords :- ExtractList(llm, KeywordsPrompt(minLength, maxKeywords), text, "keywords").ToResult(LlmCallFailed);
    Ok(Report(timestamp, nist, iec, reqs, keywords))
  }

  /** A document's classification depends only on its first
      `max_document_size` characters: with requirements, every later prompt
      sees their rendering; without, it sees the same prefix again. */
  lemma {:induction false} ClassifyDocumentSeesOnlyPrefix(llm: Llm, a: string, b: string, minLength: int, maxKeywords: int, timestamp: string)
    requires Prefix(a, llm.maxDocumentSize) == Prefix(b, llm.maxDocumentSize)
    ensures ClassifyDocument(llm, a, minLength, maxKeywords, timestamp) == ClassifyDocument(llm, b, minLength, maxKeywords, timestamp)
  {
    AskSeesOnlyPrefix(llm, ExtractPrompt, a, b);
    var reqs := ExtractList(llm, ExtractPrompt, a, "requirements");
    assert reqs == ExtractList(llm, ExtractPrompt, b, "requirements");
    if reqs.Some? {
      var ta := TextForFramework(reqs.value, a, llm.show);
      var tb := TextForFramework(reqs.value, b, llm.show);
      if ta.Ok? && tb.Ok? {
        assert Prefix(ta.value, llm.maxDocumentSize) == Prefix(tb.value, llm.maxDocumentSize);
        AskSeesOnlyPrefix(llm, NistPrompt, ta.value, tb.value);
        AskSeesOnlyPrefix(llm, IecPrompt, ta.value, tb.value);
        AskSeesOnlyPrefix(llm, KeywordsPrompt(minLength, maxKeywords), ta.value, tb.value);
        assert ClassifyFramework(llm, NistPrompt, ta.value) == ClassifyFramework(llm, NistPrompt, tb.value);
        assert ClassifyFramework(llm, IecPrompt, ta.value) == ClassifyFramework(llm, IecPrompt, tb.value);
      }
    }
  }

  /** Answers that never parse still give a complete report: `{}` for both
      frameworks, `[]` for requirements and keywords, and the framework
      prompts fall back to the document text. */
  lemma UnparsableAnswersGiveEmptyReport(llm: Llm, documentText: string, minLength: int, maxKeywords: int, timestamp: string)
    requires forall kind, t :: llm.invoke(kind, t).Some?
    requires forall s :: llm.loads(s).None?
    ensures ClassifyDocument(llm, documentText, minLength, maxKeywords, timestamp)
      == Ok(Report(timestamp, JObj(map[]), JObj(map[]), JArr([]), JArr([])))
  {
    var kw := KeywordsPrompt(minLength, maxKeywords);
    AskUnparsable(llm, ExtractPrompt, documentText);
    AskUnparsable(llm, NistPrompt, documentText);
    AskUnparsable(llm, IecPrompt, documentText);
    AskUnparsable(llm, kw, documentText);
    assert ExtractList(llm, ExtractPrompt, documentText, "requirements") == Some(JArr([]));
    assert TextForFramework(JArr([]), documentText, llm.show) == Ok(documentText);
    assert ClassifyFramework(llm, NistPrompt, documentText) == Some(JObj(map[]));
    assert ClassifyFramework(llm, IecPrompt, documentText) == Some(JObj(map[]));
    assert ExtractList(llm, kw, documentText, "keywords") == Some(JArr([]));
  }

  lemma AskUnparsable(llm: Llm, kind: PromptKind, text: string)
    requires llm.invoke(kind, Prefix(text, llm.maxDocumentSize)).Some?
    requires llm.loads(NormalizeJson(llm.invoke(kind, Prefix(text, llm.maxDocumentSize)).value)).None?
    ensures Ask(llm, kind, text) == Some(None)
  {
  }

  /** The decoded answer to one prompt, given that the call returned. */
  function Decoded(llm: Llm, kind: PromptKind, text: string): Option<Json>
    requires llm.invoke(kind, Prefix(text, llm.maxDocumentSize)).Some?
  {
    llm.loads(NormalizeJson(llm.invoke(kind, Prefix(text, llm.maxDocumentSize)).value))
  }

  /** The report's requirements are the extraction answer's `requirements`
      value, `[]` when that answer does not parse or is not a dict. */
  lemma ClassifyDocumentRequirements(llm: Llm, documentText: string, minLength: int, maxKeywords: int, timestamp: string)
    requires llm.invoke(ExtractPrompt, Prefix(documentText, llm.maxDocumentSize)).Some?
    ensures var r := ClassifyDocument(llm, documentText, minLength, maxKeywords, timestamp);
            r.Ok? ==> r.value.requirements == ListField(Decoded(llm, ExtractPrompt, documentText), "requirements")
  {
    var reqs := ExtractList(llm, ExtractPrompt, documentText, "requirements");
    assert reqs == Some(ListField(Decoded(llm, ExtractPrompt, documentText), "requirements"));
  }

  /** Requirements that do not render make the call raise, before any
      framework prompt. */
  lemma ClassifyDocumentRenderFailure(llm: Llm, documentText: string, minLength: int, maxKeywords: int, timestamp: string)
    requires llm.invoke(ExtractPrompt, Prefix(documentText, llm.maxDocumentSize)).Some?
    requires TextForFramework(ListField(Decoded(llm, ExtractPrompt, documentText), "requirements"), documentText, llm.show).Err?
    ensures ClassifyDocument(llm, documentText, minLength, maxKeywords, timestamp)
      == Err(RenderFailed(TextForFramework(ListField(Decoded(llm, ExtractPrompt, documentText), "requirements"), documentText, llm.show).error))
  {
  }

  /** Once the requirements render to `text`, the three remaining prompts run
      on `text`: the call raises if any of them raises, and otherwise returns
      their contributions beside the requirements. */
  lemma ClassifyDocumentOnceRendered(llm: Llm, documentText: string, minLength: int, maxKeywords: int, timestamp: string, text: string)
    requires llm.invoke(ExtractPrompt, Prefix(documentText, llm.maxDocumentSize)).Some?
    requires TextForFramework(ListField(Decoded(llm, ExtractPrompt, documentText), "requirements"), documentText, llm.show) == Ok(text)
    ensures var nist := ClassifyFramework(llm, NistPrompt, text);
            var iec := ClassifyFramework(llm, IecPrompt, text);
            var keywords := ExtractList(llm, KeywordsPrompt(minLength, maxKeywords), text, "keywords");
            ClassifyDocument(llm, documentText, minLength, maxKeywords, timestamp)
              == if nist.None? || iec.None? || keywords.None? then Err(LlmCallFailed)
                 else Ok(Report(timestamp, nist.value, iec.value,
                                ListField(Decoded(llm, ExtractPrompt, documentText), "requirements"), keywords.value))
  {
    assert ExtractList(llm, ExtractPrompt, documentText, "requirements")
      == Some(ListField(Decoded(llm, ExtractPrompt, documentText), "requirements"));
  }

  /** Once the requirements render to `text`, the call succeeds exactly when
      the two framework prompts and the keyword prompt on `text` all return. */
  lemma ClassifyDocumentSucceeds(llm: Llm, documentText: string, minLength: int, maxKeywords: int, timestamp: string, text: string)
    requires llm.invoke(ExtractPrompt, Prefix(documentText, llm.maxDocumentSize)).Some?
    requires TextForFramework(ListField(Decoded(llm, ExtractPrompt, documentText), "requirements"), documentText, llm.show) == Ok(text)
    ensures ClassifyDocument(llm, documentText, minLength, maxKeywords, timestamp).Ok? <==>
              llm.invoke(NistPrompt, Prefix(text, llm.maxDocumentSize)).Some? &&
              llm.invoke(IecPrompt, Prefix(text, llm.maxDocumentSize)).Some? &&
              llm.invoke(KeywordsPrompt(minLength, maxKeywords), Prefix(text, llm.maxDocumentSize)).Some?
  {
    ClassifyDocumentOnceRendered(llm, documentText, minLength, maxKeywords, timestamp, text);
  }

  /** Each field of a successful report falls back on its own: a framework
      answer that does not parse gives `{}` and a keyword answer `[]`, while
      the other fields keep their decoded answers. */
  lemma ClassifyDocumentFields(llm: Llm, documentText: string, minLength: int, maxKeywords: int, timestamp: string, text: string)
    requires llm.invoke(ExtractPrompt, Prefix(documentText, llm.maxDocumentSize)).Some?
    requires TextForFramework(ListField(Decoded(llm, ExtractPrompt, documentText), "requirements"), documentText, llm.show) == Ok(text)
    requires llm.invoke(NistPrompt, Prefix(text, llm.maxDocumentSize)).Some?
    requires llm.invoke(IecPrompt, Prefix(text, llm.maxDocumentSize)).Some?
    requires llm.invoke(KeywordsPrompt(minLength, maxKeywords), Prefix(text, llm.maxDocumentSize)).Some?
    ensures var r := ClassifyDocument(llm, documentText, minLength, maxKeywords, timestamp);
            r.Ok? &&
            r.value.nist == ObjectOrEmpty(Decoded(llm, NistPrompt, text)) &&
            r.value.iec == ObjectOrEmpty(Decoded(llm, IecPrompt, text)) &&
            r.value.keywords == ListField(Decoded(llm, KeywordsPrompt(minLength, maxKeywords), text), "keywords")
  {
    ClassifyDocumentOnceRendered(llm, documentText, minLength, maxKeywords, timestamp, text);
  }

  /** A model call that raises during extraction makes the whole call raise. */
  lemma ExtractionFailureRaises(llm: Llm, documentText: string, minLength: int, maxKeywords: int, timestamp: string)
    requires llm.invoke(ExtractPrompt, Prefix(documentText, llm.maxDocumentSize)).None?
    ensures ClassifyDocument(llm, documentText, minLength, maxKeywords, timestamp) == Err(LlmCallFailed)
  {
  }
}
