/** twse_codes/codes.py: the packaged version. `download_codes` crawls the three pages and replaces the
    `twse` table of a SQLite store; `get` validates a category name, reads the filtered and ordered
    table, and downloads when that read finds nothing. The file's crawl calls a `find_ALL` method
    that does not exist, so it is modelled twice: as written (`CrawlAsWritten`, `DownloadCodesAsWritten`,
    `GetAsWritten`), and with `find_all` as evidently meant (`DownloadCodes`, `Get`). */
module TwseCodes {
  import opened Outcomes
  import opened Builtins
  import opened Schema
  import opened TableParser

  // ---------------------------------------------------------------------------------------------
  // What `get` may be asked for

  /** Every row (`"ALL"`), or the rows of one category. */
  datatype Target = All | Only(category: CodesCategory)

  /** `get`'s check of its argument: "ALL", or the name of a `CodesCategory` member; anything else,
      `None` included, is refused. */
  function ParseTarget(name: Option<string>): (t: Option<Target>)
    ensures t == Some(All) <==> name == Some("ALL")
    ensures forall c :: t == Some(Only(c)) <==> name == Some(MemberName(c))
    ensures t.None? <==> name.None? || (name.value != "ALL" && forall c :: MemberName(c) != name.value)
  {
    if name.None? then None
    else if name.value == "ALL" then Some(All)
    else
      match CategoryNamed(name.value)
      case Some(c) => Some(Only(c))
      case None => None
  }

  // ---------------------------------------------------------------------------------------------
  // The query `SELECT sc, cn, .. FROM twse [WHERE ca = '<label>'] ORDER BY sc`

  /** The `WHERE` clause: no condition for ALL, otherwise the `ca` cell equals the category's label. */
  predicate Selected(row: Row, target: Target) {
    target.All? || row[Position(Category)] == Some(Label(target.category))
  }

  /** The rows the `WHERE` clause keeps, each as often as it occurs. */
  function Select(rows: Frame, target: Target): (r: Frame)
    ensures forall row :: row in r ==> Selected(row, target)
    ensures forall row :: multiset(r)[row] == if Selected(row, target) then multiset(rows)[row] else 0
    decreases |rows|
  {
    if rows == [] then []
    else
      var rest := Select(rows[1..], target);
      assert rows == [rows[0]] + rows[1..];
      if Selected(rows[0], target) then [rows[0]] + rest else rest
  }

  /** SQLite's ordering of text: code point by code point, a prefix first. */
  predicate TextLe(a: string, b: string)
    decreases |a|
  {
    a == [] || (b != [] && (a[0] < b[0] || (a[0] == b[0] && TextLe(a[1..], b[1..]))))
  }

  lemma {:induction false} TextLeTotal(a: string, b: string)
    ensures TextLe(a, b) || TextLe(b, a)
    decreases |a|
  {
    if a != [] && b != [] && a[0] == b[0] {
      TextLeTotal(a[1..], b[1..]);
    }
  }

  lemma {:induction false} TextLeTransitive(a: string, b: string, c: string)
    requires TextLe(a, b) && TextLe(b, c)
    ensures TextLe(a, c)
    decreases |a|
  {
    if a != [] && b != [] && c != [] && a[0] == b[0] == c[0] {
      TextLeTransitive(a[1..], b[1..], c[1..]);
    }
  }

  /** Ascending order on `sc` cells: nulls first, as SQLite sorts them. */
  predicate SymbolLe(a: Row, b: Row) {
    var x, y := a[Position(Symbol)], b[Position(Symbol)];
    x.None? || (y.Some? && TextLe(x.value, y.value))
  }

  lemma SymbolLeTotal(a: Row, b: Row)
    ensures SymbolLe(a, b) || SymbolLe(b, a)
  {
    if a[0].Some? && b[0].Some? {
      TextLeTotal(a[0].value, b[0].value);
    }
  }

  lemma SymbolLeTransitive(a: Row, b: Row, c: Row)
    requires SymbolLe(a, b) && SymbolLe(b, c)
    ensures SymbolLe(a, c)
  {
    if a[0].Some? {
      TextLeTransitive(a[0].value, b[0].value, c[0].value);
    }
  }

  /** `ORDER BY sc`. */
  ghost predicate SortedBySymbol(rows: Frame) {
    forall i, j :: 0 <= i < j < |rows| ==> SymbolLe(rows[i], rows[j])
  }

  /** Puts a row in front of the first row it does not follow. */
  function InsertBySymbol(row: Row, rows: Frame): (r: Frame)
    requires SortedBySymbol(rows)
    ensures SortedBySymbol(r)
    ensures multiset(r) == multiset(rows) + multiset{row}
    decreases |rows|
  {
    if rows == [] then [row]
    else if SymbolLe(row, rows[0]) then
      assert forall j :: 0 <= j < |rows| ==> SymbolLe(row, rows[j]) by {
        forall j | 0 <= j < |rows| ensures SymbolLe(row, rows[j]) {
          if j > 0 { SymbolLeTransitive(row, rows[0], rows[j]); }
        }
      }
      ConsSorted(row, rows);
      [row] + rows
    else
      var rest := InsertBySymbol(row, rows[1..]);
      assert rows == [rows[0]] + rows[1..];
      SymbolLeTotal(row, rows[0]);
      assert forall j :: 0 <= j < |rows[1..]| ==> SymbolLe(rows[0], rows[1..][j]);
      LowerBoundKept(rows[0], row, rows[1..], rest);
      ConsSorted(rows[0], rest);
      [rows[0]] + rest
  }

  /** A row that every row of a sorted table follows can go in front of it. */
  lemma ConsSorted(first: Row, rows: Frame)
    requires SortedBySymbol(rows)
    requires forall j :: 0 <= j < |rows| ==> SymbolLe(first, rows[j])
    ensures SortedBySymbol([first] + rows)
  {
    var all := [first] + rows;
    forall i, j | 0 <= i < j < |all| ensures SymbolLe(all[i], all[j]) {
      assert all[j] == rows[j - 1];
      if i > 0 {
        assert all[i] == rows[i - 1];
      }
    }
  }

  /** A row that every row of `rows` and the inserted `row` follow is followed by every row of a
      permutation of them. */
  lemma LowerBoundKept(low: Row, row: Row, rows: Frame, rest: Frame)
    requires forall j :: 0 <= j < |rows| ==> SymbolLe(low, rows[j])
    requires SymbolLe(low, row)
    requires multiset(rest) == multiset(rows) + multiset{row}
    ensures forall j :: 0 <= j < |rest| ==> SymbolLe(low, rest[j])
  {
    forall j | 0 <= j < |rest| ensures SymbolLe(low, rest[j]) {
      assert rest[j] in multiset(rest);
      if rest[j] != row {
        assert rest[j] in multiset(rows);
        var k :| 0 <= k < |rows| && rows[k] == rest[j];
      }
    }
  }

  /** The rows in ascending `sc` order, a permutation of the input (rows with equal symbols keep their
      relative order, one of the orders SQLite may give). */
  function SortBySymbol(rows: Frame): (r: Frame)
    ensures SortedBySymbol(r)
    ensures multiset(r) == multiset(rows)
    decreases |rows|
  {
    if rows == [] then []
    else
      assert rows == [rows[0]] + rows[1..];
      InsertBySymbol(rows[0], SortBySymbol(rows[1..]))
  }

  /** The result of the query: the selected rows, ordered by symbol. */
  function Query(rows: Frame, target: Target): Frame {
    SortBySymbol(Select(rows, target))
  }

  /** The query returns every row of the category, as often as it is stored, ordered by symbol and
      nothing else: for one category, exactly the rows whose `ca` cell is that category's label. */
  lemma QueryMeaning(rows: Frame, target: Target)
    ensures SortedBySymbol(Query(rows, target))
    ensures forall row :: multiset(Query(rows, target))[row] == if Selected(row, target) then multiset(rows)[row] else 0
    ensures target.Only? ==> forall row, d :: row in Query(rows, target) && row[Position(Category)] == Some(Label(d)) ==> d == target.category
  {
    if target.Only? {
      forall row, d | row in Query(rows, target) && row[Position(Category)] == Some(Label(d))
        ensures d == target.category
      {
        assert row in multiset(Query(rows, target));
        if d != target.category { LabelsDistinct(d, target.category); }
      }
    }
  }

  /** Asked for ALL, the query returns the stored rows themselves, reordered by symbol. */
  lemma {:induction false} QueryAllIsPermutation(rows: Frame)
    ensures SortedBySymbol(Query(rows, All))
    ensures multiset(Query(rows, All)) == multiset(rows)
  {
    forall row ensures multiset(Select(rows, All))[row] == multiset(rows)[row] {
    }
    assert multiset(Select(rows, All)) == multiset(rows);
  }

  // ---------------------------------------------------------------------------------------------
  // The store

  /** The SQLite database file `twse_codes.db` and its `twse` table. */
  class Store {
    var tableExists: bool
    var rows: Frame

    ghost predicate Valid()
      reads this
    {
      !tableExists ==> rows == []
    }

    constructor (tableExists: bool, rows: Frame)
      requires !tableExists ==> rows == []
      ensures Valid() && this.tableExists == tableExists && this.rows == rows
    {
      this.tableExists := tableExists;
      this.rows := rows;
    }

    /** `pd.read_sql(query, conn)`: a missing table is an `OperationalError`, which nothing catches. */
    method Read(target: Target) returns (r: Result<Frame>)
      requires Valid()
      ensures r == if tableExists then Ok(Query(rows, target)) else Err(OperationalError)
    {
      if !tableExists {
        return Err(OperationalError);
      }
      r := Ok(Query(rows, target));
    }

    /** `df.to_sql("twse", conn, index=True, if_exists="replace")`: drops and recreates the table with
        the frame's rows, and reports how many rows it wrote. */
    method Replace(frame: Frame) returns (written: nat)
      modifies this
      ensures Valid() && tableExists && rows == frame
      ensures written == |frame|
    {
      tableExists, rows := true, frame;
      written := |frame|;
    }
  }

  // ---------------------------------------------------------------------------------------------
  // The crawl as written

  /** `_crawl_from_url` of this file as written. The rows are fetched with `table.find_ALL("tr")`, and
      BeautifulSoup has no such method: an unknown attribute of a tag is read as a search for a child
      tag of that name, which finds none and gives `None`, and calling `None` raises `TypeError`.
      On a page without the table, `table` itself is `None` and the same call is an `AttributeError`.
      Only the status check before it still works. */
  function CrawlAsWritten(response: Response): (r: Result<Frame>)
    ensures r.Err?
    ensures r.error == ConnectionError <==> response.status != 200
    ensures r.error == AttributeError <==> response.status == 200 && response.table.None?
    ensures r.error == TypeError <==> response.status == 200 && response.table.Some?
  {
    if response.status != 200 then Err(ConnectionError)
    else if response.table.None? then Err(AttributeError)
    else Err(TypeError)
  }

  /** Up to the row loop the crawl as written and the crawl with `find_all` agree; on a page with its
      table the first raises `TypeError`, where the second can only fail on a row (`IndexError`) or
      on the frame's width (`ValueError`). */
  lemma CrawlAsWrittenVersusCorrected(url: Url, response: Response)
    ensures response.status != 200 || response.table.None? ==>
      CrawlAsWritten(response) == Crawl(url, response, true)
    ensures response.status == 200 && response.table.Some? ==>
      CrawlAsWritten(response) == Err(TypeError) &&
      (Crawl(url, response, true).Err? ==> Crawl(url, response, true).error in {IndexError, ValueError})
  {
    if response.status == 200 && response.table.Some? {
      var rows := Body(response.table.value);
      if url == FuturesUrl {
        FuturesSucceedsIff(rows);
      } else {
        ListedSucceedsIff(rows, true);
      }
    }
  }

  /** The page heading of the listed and OTC tables. */
  const Heading: seq<string> :=
    ["有價證券代號及名稱", "國際證券辨識號碼(ISIN Code)", "上市日", "市場別", "產業別", "CFICode", "備註"]

  /** A category header row of the sample page, with the padding the page puts around its text. */
  const SampleHeader: seq<string> := [" 股票 "]

  /** A stock row of the sample page. */
  const SampleStock: seq<string> :=
    ["2330　台積電", "TW0002330008", "1962/11/09", "上市", "半導體業", "ESVUFR", ""]

  /** The frame row the sample stock becomes. */
  const SampleRow: Row :=
    [Some("2330"), Some("台積電"), Some("股票"), Some("TW0002330008"), Some("1962/11/09"), Some("上市"),
     Some("半導體業"), Some("ESVUFR"), Some("")]

  lemma SampleStockRecord()
    ensures ListedRecord(SampleStock, Some("股票")) == Ok(SampleRow)
  {
    SampleStockSplit();
    SampleStockTail();
    RemoveSpacesIdentity("2330");
    assert SampleRow == [Some("2330"), Some("台積電"), Some("股票")] + SampleRow[3..];
  }

  /** The first cell of the sample stock splits into its symbol and its name. */
  lemma SampleStockSplit()
    ensures Split(SampleStock[0], FullWidthSpace) == ["2330", "台積電"]
  {
    SplitJoin(["2330", "台積電"], FullWidthSpace);
    assert Join(["台積電"], FullWidthSpace) == "台積電";
    assert Join(["2330", "台積電"], FullWidthSpace) == "2330" + [FullWidthSpace] + "台積電" == SampleStock[0];
  }

  /** The cells after the first become the frame row's cells after the category. */
  lemma SampleStockTail()
    ensures Lift(SampleStock[1..]) == SampleRow[3..]
  {
    var tail := Lift(SampleStock[1..]);
    assert |tail| == 6;
    forall k | 0 <= k < 6 ensures tail[k] == SampleRow[3 + k] {
    }
  }

  /** The header's padding is whitespace, and stripping removes exactly that. */
  lemma SampleHeaderText()
    ensures HeaderText(SampleHeader[0], true) == "股票"
  {
    assert SampleHeader[0] == [' '] + "股票" + [' '];
    SpacePadded(SampleHeader[0], "股票");
  }

  /** A header padded with one space on each side is read as the text between them. */
  lemma SpacePadded(text: string, mid: string)
    requires mid != [] && !IsWhitespace(mid[0]) && !IsWhitespace(mid[|mid| - 1])
    requires text == [' '] + mid + [' ']
    ensures HeaderText(text, true) == mid
  {
    StripPadded([' '], mid, [' ']);
  }

  /** The sample page's header and stock parse into the stock's row. */
  lemma SampleRowsParse()
    ensures ParseListed([SampleHeader, SampleStock], true) == Ok([SampleRow])
  {
    SampleHeaderText();
    SampleStockRecord();
    HeaderThenRecord(SampleHeader, SampleStock, "股票", SampleRow);
  }

  /** A header followed by one data row parses into that row's record, under the header's category. */
  lemma HeaderThenRecord(header: seq<string>, data: seq<string>, category: string, record: seq<Cell>)
    requires |header| == 1 && HeaderText(header[0], true) == category
    requires |data| >= 2 && ListedRecord(data, Some(category)) == Ok(record)
    ensures ParseListed([header, data], true) == Ok([record])
  {
    var rows := [header, data];
    ListedPrefixStep(rows, 0, true);
    ListedPrefixStep(rows, 1, true);
    assert rows[..0] == [] && rows[..1] == [header] && rows[..2] == rows;
    var empty: seq<seq<Cell>> := [];
    assert empty + [record] == [record];
  }

  /** One listed page, a heading, a category and one stock: the crawl as written fails on it, the crawl
      with `find_all` turns it into the stock's row. */
  lemma FindAllCounterexample()
    ensures var page := Response(200, Some([Heading, SampleHeader, SampleStock]));
      CrawlAsWritten(page) == Err(TypeError) && Crawl(ListedUrl, page, true) == Ok([SampleRow])
  {
    assert Body([Heading, SampleHeader, SampleStock]) == [SampleHeader, SampleStock];
    SampleRowsParse();
    SingleRowFrame(SampleRow);
  }

  /** A record that is already a nine-cell row makes a one-row frame of itself. */
  lemma SingleRowFrame(row: Row)
    ensures ToFrame([row]) == Ok([row])
  {
    var f := ToFrame([row]);
    assert Widest([row]) == 9;
    assert f.Ok? && |f.value| == 1;
    assert f.value[0][..9] == row;
    assert f.value[0] == f.value[0][..9];
    assert f.value == [f.value[0]] == [row];
  }

  /** `download_codes` as written: the listed page comes first and its crawl already fails, so the
      loop ends at once, nothing is concatenated and the store is never written. */
  method DownloadCodesAsWritten(web: Web) returns (r: Result<Frame>)
    ensures r.Err? && r == CrawlAsWritten(web.listed)
    ensures web.listed.status == 200 && web.listed.table.Some? ==> r == Err(TypeError)
  {
    var url := SourceOrder[0];
    var dfx := CrawlAsWritten(web.Fetch(url));
    return Err(dfx.error);
  }

  // ---------------------------------------------------------------------------------------------
  // download_codes and get, with `find_all`

  /** The part of `get` before any download: an unknown name is a `TypeError` before the store is
      touched, a missing table an `OperationalError`; otherwise the query's rows, possibly none. */
  method QueryStore(store: Store, name: Option<string>) returns (r: Result<Frame>)
    requires store.Valid()
    ensures ParseTarget(name).None? ==> r == Err(TypeError)
    ensures ParseTarget(name).Some? && !store.tableExists ==> r == Err(OperationalError)
    ensures ParseTarget(name).Some? && store.tableExists ==> r == Ok(Query(store.rows, ParseTarget(name).value))
  {
    var target := ParseTarget(name);
    if target.None? {
      return Err(TypeError);
    }
    r := store.Read(target.value);
  }

  /** What `download_codes` returns: the crawl's failure, or the concatenated frame unless the store
      reported writing nothing. */
  function DownloadResult(web: Web): Result<Frame> {
    match Gather(SourceOrder, web, true)
    case Err(e) => Err(e)
    case Ok(df) => if df == [] then Err(ConnectionRefusedError) else Ok(df)
  }

  /** `download_codes(output=True)`: crawls the listed, OTC and futures pages in that order, replaces the
      whole table with their rows concatenated (the `sort_values` call discards its result, so nothing
      is reordered, and nothing is deduplicated), and raises `ConnectionRefusedError` when the store
      reports no rows written. A failing page leaves the store untouched. */
  method DownloadCodes(store: Store, web: Web) returns (r: Result<Frame>)
    requires store.Valid()
    modifies store
    ensures store.Valid()
    ensures r == DownloadResult(web)
    ensures Gather(SourceOrder, web, true).Err? ==> unchanged(store)
    ensures Gather(SourceOrder, web, true).Ok? ==>
      store.tableExists && store.rows == Gather(SourceOrder, web, true).value
  {
    var df := DownloadAll(web, true);
    if df.Err? {
      return Err(df.error);
    }
    var result := store.Replace(df.value);
    if result == 0 {
      return Err(ConnectionRefusedError);
    }
    return Ok(df.value);
  }

  /** `get(category)`: the stored rows of the category, ordered by symbol, and when there are none,
      the whole unfiltered download (whose failure is the call's). It never returns an empty frame. */
  method Get(store: Store, name: Option<string>, web: Web) returns (r: Result<Frame>)
    requires store.Valid()
    modifies store
    ensures store.Valid()
    ensures ParseTarget(name).None? ==> r == Err(TypeError) && unchanged(store)
    ensures ParseTarget(name).Some? && !old(store.tableExists) ==> r == Err(OperationalError) && unchanged(store)
    ensures ParseTarget(name).Some? && old(store.tableExists) && Query(old(store.rows), ParseTarget(name).value) != [] ==>
      r == Ok(Query(old(store.rows), ParseTarget(name).value)) && unchanged(store)
    ensures ParseTarget(name).Some? && old(store.tableExists) && Query(old(store.rows), ParseTarget(name).value) == [] ==>
      r == DownloadResult(web) &&
      (Gather(SourceOrder, web, true).Err? ==> unchanged(store)) &&
      (Gather(SourceOrder, web, true).Ok? ==> store.tableExists && store.rows == Gather(SourceOrder, web, true).value)
    ensures r.Ok? ==> r.value != []
  {
    var codes := QueryStore(store, name);
    if codes.Err? {
      return codes;
    }
    var frame := codes.value;
    if |frame| == 0 {
      var downloaded := DownloadCodes(store, web);
      if downloaded.Err? {
        return downloaded;
      }
      frame := downloaded.value;
    }
    if |frame| == 0 {
      return Err(FileExistsError);
    }
    return Ok(frame);
  }

  /** `get(category)` as written: the same until the download, which as written always fails with the
      listed page's error, so a query that finds nothing ends in that error and the store is never
      changed. */
  method GetAsWritten(store: Store, name: Option<string>, web: Web) returns (r: Result<Frame>)
    requires store.Valid()
    ensures ParseTarget(name).None? ==> r == Err(TypeError)
    ensures ParseTarget(name).Some? && !store.tableExists ==> r == Err(OperationalError)
    ensures ParseTarget(name).Some? && store.tableExists && Query(store.rows, ParseTarget(name).value) != [] ==>
      r == Ok(Query(store.rows, ParseTarget(name).value))
    ensures ParseTarget(name).Some? && store.tableExists && Query(store.rows, ParseTarget(name).value) == [] ==>
      r == CrawlAsWritten(web.listed)
    ensures r.Ok? ==> r.value != []
  {
    var codes := QueryStore(store, name);
    if codes.Err? {
      return codes;
    }
    var frame := codes.value;
    if |frame| == 0 {
      // The download as written always raises, so the `FileExistsError` check after it is never reached.
      r := DownloadCodesAsWritten(web);
      return;
    }
    return Ok(frame);
  }
}
