/** backend/src/guidelines/router.py: the read-only guideline queries. Optional
    equality filters are chained onto the query only when supplied and
    non-empty; the listing is paginated the SQLite way; the search adds a
    substring test on the control text and is not paginated. */
module Guidelines {
  import opened Wrappers
  import opened PyStr
  import opened Seqs
  import opened Tables

  /** The optional `category`, `standard` and `region` parameters. */
  datatype GuidelineFilter = GuidelineFilter(category: Option<string>, standard: Option<string>, region: Option<string>)

  const NoFilter: GuidelineFilter := GuidelineFilter(None, None, None)

  /** `if value: query = query.filter(column == value)`. */
  predicate FieldMatches(wanted: Option<string>, value: string) {
    Truthy(wanted) ==> value == wanted.value
  }

  predicate Matches(f: GuidelineFilter, g: GuidelineRow) {
    FieldMatches(f.category, g.category) && FieldMatches(f.standard, g.standard) && FieldMatches(f.region, g.region)
  }

  function MatchesFilter(f: GuidelineFilter): GuidelineRow -> bool {
    (g: GuidelineRow) => Matches(f, g)
  }

  /** The rows of the filtered query, in table order. */
  function Matching(gs: seq<GuidelineRow>, f: GuidelineFilter): seq<GuidelineRow> {
    Filter(gs, MatchesFilter(f))
  }

  /** The dictionary built for each row: its columns and the keyword strings of
      its `keywords` relation, in relation order. */
  datatype GuidelineView = GuidelineView(
    id: int,
    guidelineId: string,
    category: string,
    standard: string,
    controlText: string,
    sourceUrl: string,
    region: string,
    keywords: seq<string>)

  function View(g: GuidelineRow): GuidelineView {
    GuidelineView(g.id, g.guidelineId, g.category, g.standard, g.controlText, g.sourceUrl, g.region, g.keywords)
  }

  /** The `for guideline in guidelines` loop: one projected dictionary per row. */
  function Views(gs: seq<GuidelineRow>): (r: seq<GuidelineView>)
    ensures |r| == |gs| && forall k :: 0 <= k < |gs| ==> r[k] == View(gs[k])
  {
    seq(|gs|, k requires 0 <= k < |gs| => View(gs[k]))
  }

  /** `get_guidelines`. */
  function GetGuidelines(gs: seq<GuidelineRow>, f: GuidelineFilter, skip: int, limit: int): (r: seq<GuidelineView>)
    ensures var m := Matching(gs, f); var s := OffsetStart(|m|, skip);
      && s + |r| <= |m|
      && (forall k :: 0 <= k < |r| ==> r[k] == View(m[s + k]))
      && |r| == (if limit < 0 || |m| - s <= limit then |m| - s else limit)
  {
    Views(Page(Matching(gs, f), skip, limit))
  }

  /** A row is listed by the filtered query exactly when it passes every
      supplied, non-empty filter. */
  lemma MatchingIsConjunction(gs: seq<GuidelineRow>, f: GuidelineFilter, g: GuidelineRow)
    ensures g in Matching(gs, f) <==>
      && g in gs
      && (f.category.Some? && f.category.value != "" ==> g.category == f.category.value)
      && (f.standard.Some? && f.standard.value != "" ==> g.standard == f.standard.value)
      && (f.region.Some? && f.region.value != "" ==> g.region == f.region.value)
  {
  }

  /** Absent and empty filters select the whole table. */
  lemma EmptyFiltersSelectAll(gs: seq<GuidelineRow>, f: GuidelineFilter)
    requires !Truthy(f.category) && !Truthy(f.standard) && !Truthy(f.region)
    ensures Matching(gs, f) == gs
  {
    FilterAll(gs, MatchesFilter(f));
  }

  /** A row of the filtered query is a row of the table that passes the filters. */
  lemma MatchingIsSound(gs: seq<GuidelineRow>, f: GuidelineFilter, g: GuidelineRow)
    requires g in Matching(gs, f)
    ensures g in gs && Matches(f, g)
  {
    assert MatchesFilter(f)(g);
  }

  /** Every listed guideline is a table row that passes the filters, listed
      with its own keywords. */
  lemma ListingIsSound(gs: seq<GuidelineRow>, f: GuidelineFilter, skip: int, limit: int, k: int)
    requires 0 <= k < |GetGuidelines(gs, f, skip, limit)|
    ensures var v := GetGuidelines(gs, f, skip, limit)[k];
      exists g :: g in gs && Matches(f, g) && v == View(g) && v.keywords == g.keywords
  {
    var m := Matching(gs, f);
    var g := m[OffsetStart(|m|, skip) + k];
    MatchingIsSound(gs, f, g);
  }

  /** The search predicate: the control text contains the query and the
      filters pass. */
  function SearchMatch(query: string, f: GuidelineFilter): GuidelineRow -> bool {
    (g: GuidelineRow) => Contains(g.controlText, query) && Matches(f, g)
  }

  /** `search_guidelines`: every matching row, no pagination. */
  function SearchGuidelines(gs: seq<GuidelineRow>, query: string, f: GuidelineFilter): (r: seq<GuidelineView>)
    ensures |r| <= |gs|
    ensures forall v :: v in r ==> Contains(v.controlText, query)
  {
    var hits := Filter(gs, SearchMatch(query, f));
    assert forall k :: 0 <= k < |hits| ==> hits[k] in hits;
    Views(hits)
  }

  /** Every search result is the view of a table row whose control text holds
      the query and that passes the filters. */
  lemma SearchIsSound(gs: seq<GuidelineRow>, query: string, f: GuidelineFilter, k: int)
    requires 0 <= k < |SearchGuidelines(gs, query, f)|
    ensures exists g :: g in gs && SearchGuidelines(gs, query, f)[k] == View(g)
                        && Contains(g.controlText, query) && Matches(f, g)
  {
    var hits := Filter(gs, SearchMatch(query, f));
    assert hits[k] in hits;
    assert SearchMatch(query, f)(hits[k]);
  }

  /** A guideline is found by the search exactly when its control text holds
      the query and it passes the filters. */
  lemma SearchIsExact(gs: seq<GuidelineRow>, query: string, f: GuidelineFilter, g: GuidelineRow)
    requires g in gs
    ensures View(g) in SearchGuidelines(gs, query, f) <==> Contains(g.controlText, query) && Matches(f, g)
  {
    var hits := Filter(gs, SearchMatch(query, f));
    var r := SearchGuidelines(gs, query, f);
    if Contains(g.controlText, query) && Matches(f, g) {
      var k :| 0 <= k < |hits| && hits[k] == g;
      assert r[k] == View(g);
    }
    if View(g) in r {
      var k :| 0 <= k < |r| && r[k] == View(g);
      assert View(hits[k]) == View(g);
      assert hits[k] in hits;
    }
  }

  function CategoryOf(g: GuidelineRow): string { g.category }
  function StandardOf(g: GuidelineRow): string { g.standard }
  function RegionOf(g: GuidelineRow): string { g.region }

  /** The values of one column of the table, one per row. */
  function Column(gs: seq<GuidelineRow>, col: GuidelineRow -> string): seq<string> {
    seq(|gs|, k requires 0 <= k < |gs| => col(gs[k]))
  }

  function Categories(gs: seq<GuidelineRow>): seq<string> {
    Column(gs, CategoryOf)
  }

  function Standards(gs: seq<GuidelineRow>): seq<string> {
    Column(gs, StandardOf)
  }

  function Regions(gs: seq<GuidelineRow>): seq<string> {
    Column(gs, RegionOf)
  }

  /** `get_categories`, `get_standards` and `get_regions`: `SELECT DISTINCT`. */
  function GetCategories(gs: seq<GuidelineRow>): (r: seq<string>)
    ensures NoDuplicates(r) && |r| <= |gs|
  {
    Distinct(Categories(gs))
  }

  function GetStandards(gs: seq<GuidelineRow>): (r: seq<string>)
    ensures NoDuplicates(r) && |r| <= |gs|
  {
    Distinct(Standards(gs))
  }

  function GetRegions(gs: seq<GuidelineRow>): (r: seq<string>)
    ensures NoDuplicates(r) && |r| <= |gs|
  {
    Distinct(Regions(gs))
  }

  lemma ColumnHolds(gs: seq<GuidelineRow>, col: GuidelineRow -> string, c: string)
    ensures c in Column(gs, col) <==> exists g :: g in gs && col(g) == c
  {
    if exists g :: g in gs && col(g) == c {
      var g :| g in gs && col(g) == c;
      var k :| 0 <= k < |gs| && gs[k] == g;
      assert Column(gs, col)[k] == c;
    }
  }

  /** Each endpoint lists every value of its column once and nothing else. */
  lemma DistinctValuesEndpoints(gs: seq<GuidelineRow>, c: string)
    ensures NoDuplicates(GetCategories(gs)) && NoDuplicates(GetStandards(gs)) && NoDuplicates(GetRegions(gs))
    ensures c in GetCategories(gs) <==> exists g :: g in gs && g.category == c
    ensures c in GetStandards(gs) <==> exists g :: g in gs && g.standard == c
    ensures c in GetRegions(gs) <==> exists g :: g in gs && g.region == c
  {
    ColumnHolds(gs, CategoryOf, c);
    ColumnHolds(gs, StandardOf, c);
    ColumnHolds(gs, RegionOf, c);
  }
}
