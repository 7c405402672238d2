/** The local "already checked" store: a table of previously checked names,
    searched by exact (case- and margin-insensitive) name and class. */
module LocalDbChecker {
  import opened Wrappers
  import opened Strings
  import opened Config
  import opened SourceReplies

  /** A cell of the name column: text, or a missing value (NaN), which never
      compares equal to anything. */
  datatype Cell = Text(text: string) | Missing

  /** One row of the table; `niceClass` is the class cell as `astype(str)`
      renders it. */
  datatype Row = Row(name: Cell, region: Cell, niceClass: string)

  /** The loaded data frame: its column labels and its rows. */
  datatype Table = Table(columns: seq<string>, rows: seq<Row>)

  /** `df.empty`: no rows or no columns. */
  predicate IsEmpty(t: Table) {
    t.rows == [] || t.columns == []
  }

  /** The frame `load_database` falls back to: the three configured columns, no rows. */
  function FallbackTable(): (t: Table)
    ensures IsEmpty(t) && t.columns == [NameColumn, RegionColumn, ClassColumn]
  {
    Table([NameColumn, RegionColumn, ClassColumn], [])
  }

  /** What reading the CSV file does: yields a frame or raises. */
  datatype LoadOutcome = Loaded(table: Table) | LoadFailed(message: string)

  /** `search_params` of a local response. */
  datatype SearchParams = SearchParams(region: string, niceClass: string, status: string)

  datatype LocalResponse = LocalResponse(
    queryName: string,
    status: Status,
    errorMessage: Option<string>,
    inLocalDb: bool,
    brands: seq<string>,
    totalFound: int,
    hasExactMatch: bool,
    exactMatches: seq<string>,
    searchSource: seq<string>,
    searchParams: SearchParams)

  const LocalSource: string := "本地数据库"

  /** `f"{nice_class} - {NICE_CLASS_MAP.get(nice_class, '')}"` */
  function ClassLabel(niceClass: string): (s: string)
    ensures StartsWith(s, niceClass + " - ")
    ensures niceClass !in NiceClassMap ==> s == niceClass + " - "
  {
    var text := niceClass + " - " + (if niceClass in NiceClassMap then NiceClassMap[niceClass] else "");
    assert text[..|niceClass + " - "|] == niceClass + " - ";
    text
  }

  function Params(niceClass: string, region: string): SearchParams {
    SearchParams(region, ClassLabel(niceClass), "本地数据库查询")
  }

  /** `_create_response`: a found name is reported as the single, exact brand. */
  function CreateResponse(query: string, niceClass: string, region: string, found: bool): (r: LocalResponse)
    ensures r.status == Success && r.queryName == query && r.inLocalDb == found
    ensures found ==> r.brands == [query] && r.exactMatches == [query] && r.totalFound == 1 && r.hasExactMatch
    ensures !found ==> r.brands == [] && r.exactMatches == [] && r.totalFound == 0 && !r.hasExactMatch
    ensures r.searchSource == [LocalSource] && r.errorMessage == None
    ensures r.searchParams == Params(niceClass, region)
  {
    LocalResponse(query, Success, None, found,
                  if found then [query] else [], if found then 1 else 0, found,
                  if found then [query] else [], [LocalSource], Params(niceClass, region))
  }

  /** The error response of `search_trademark`'s exception handler. */
  function ErrorResponse(query: string, niceClass: string, region: string, message: string): (r: LocalResponse)
    ensures r.status == Error && !r.inLocalDb && r.brands == [] && r.totalFound == 0
    ensures r.errorMessage == Some("本地数据库查询出错: " + message)
    ensures r.searchSource == [LocalSource] && r.searchParams == Params(niceClass, region)
  {
    LocalResponse(query, Error, Some("本地数据库查询出错: " + message), false, [], 0, false, [],
                  [LocalSource], Params(niceClass, region))
  }

  /** The mask of `search_trademark` for one row. */
  predicate RowMatches(row: Row, q: string, niceClass: string) {
    row.name.Text? && Strip(Lower(row.name.text)) == q && row.niceClass == niceClass
  }

  /** `df[mask]`: the matching rows in table order. */
  function MatchingRows(rows: seq<Row>, q: string, niceClass: string): (r: seq<Row>)
    ensures forall row :: row in r <==> row in rows && RowMatches(row, q, niceClass)
  {
    if rows == [] then []
    else
      assert forall row :: row in rows <==> row == rows[0] || row in rows[1..];
      (if RowMatches(rows[0], q, niceClass) then [rows[0]] else []) + MatchingRows(rows[1..], q, niceClass)
  }

  /** The first configured column missing from the frame, which makes the
      column lookup raise `KeyError`. */
  function MissingColumn(t: Table): (c: Option<string>)
    ensures c == None <==> NameColumn in t.columns && ClassColumn in t.columns
  {
    if NameColumn !in t.columns then Some(NameColumn)
    else if ClassColumn !in t.columns then Some(ClassColumn)
    else None
  }

  /** `search_trademark` against the frame `t`. */
  function Search(t: Table, query: string, niceClass: string, region: string): LocalResponse {
    if IsEmpty(t) then CreateResponse(query, niceClass, region, false)
    else
      var q := Strip(Lower(query));
      match MissingColumn(t)
      case Some(c) => ErrorResponse(q, niceClass, region, "'" + c + "'")
      case None => CreateResponse(q, niceClass, region, MatchingRows(t.rows, q, niceClass) != [])
  }

  /** A name is found exactly when the frame is searchable and some row has
      the same stripped, lower-cased name and the same class string. */
  lemma FoundIffSomeRowMatches(t: Table, query: string, niceClass: string, region: string)
    ensures Search(t, query, niceClass, region).inLocalDb <==>
              && !IsEmpty(t) && NameColumn in t.columns && ClassColumn in t.columns
              && exists i :: 0 <= i < |t.rows| && RowMatches(t.rows[i], Strip(Lower(query)), niceClass)
  {
    var q := Strip(Lower(query));
    var m := MatchingRows(t.rows, q, niceClass);
    if m != [] {
      assert m[0] in t.rows;
    }
    if exists i :: 0 <= i < |t.rows| && RowMatches(t.rows[i], q, niceClass) {
      var i :| 0 <= i < |t.rows| && RowMatches(t.rows[i], q, niceClass);
      assert t.rows[i] in m;
    }
  }

  /** The region argument only reaches the echoed `search_params`. */
  lemma RegionIgnored(t: Table, query: string, niceClass: string, r1: string, r2: string)
    ensures Search(t, query, niceClass, r1).(searchParams := Params(niceClass, r1))
         == Search(t, query, niceClass, r2).(searchParams := Params(niceClass, r1))
  {
  }

  /** The echoed name is the normalised query, except from an empty frame,
      which echoes the query as given. */
  lemma EchoedQueryName(t: Table, query: string, niceClass: string, region: string)
    ensures Search(t, query, niceClass, region).queryName ==
              if IsEmpty(t) then query else Strip(Lower(query))
  {
  }

  /** Every answer names the local store as its only source, and an error is
      never a hit. */
  lemma SourceIsAlwaysLocal(t: Table, query: string, niceClass: string, region: string)
    ensures var r := Search(t, query, niceClass, region);
            r.searchSource == [LocalSource] && (r.status == Error ==> !r.inLocalDb)
  {
  }

  class LocalDbChecker {
    /** `self.df` */
    var table: Table

    /** `__init__` ends by loading the database. */
    constructor (load: LoadOutcome)
      ensures table == if load.Loaded? then load.table else FallbackTable()
    {
      table := if load.Loaded? then load.table else FallbackTable();
    }

    /** `load_database`: a failed read leaves an empty frame with the three
        configured columns. */
    method LoadDatabase(load: LoadOutcome)
      modifies this
      ensures table == if load.Loaded? then load.table else FallbackTable()
    {
      match load
      case Loaded(t) =>
        table := t;
      case LoadFailed(_) =>
        table := Table([NameColumn, RegionColumn, ClassColumn], []);
    }

    /** `search_trademark` on the loaded frame. */
    function SearchTrademark(query: string, niceClass: string, region: string): (r: LocalResponse)
      reads this
      ensures r.inLocalDb ==> exists i :: 0 <= i < |table.rows| && RowMatches(table.rows[i], r.queryName, niceClass)
      ensures r.inLocalDb <==> r.status == Success && r.totalFound == 1
    {
      FoundIffSomeRowMatches(table, query, niceClass, region);
      Search(table, query, niceClass, region)
    }
  }

  /** After a failed load every search answers "not found", with the query as given. */
  lemma FailedLoadNeverFinds(query: string, niceClass: string, region: string)
    ensures Search(FallbackTable(), query, niceClass, region) == CreateResponse(query, niceClass, region, false)
  {
  }
}
