/** `_crawl_from_url` as codes.py writes it, and the loop of `download_codes` that runs it over the
    three listing pages. twse_codes/codes.py has the same parser with three differences: it strips
    a header row's text, which is the `stripHeaders` parameter here; it calls a `find_ALL` method
    that does not exist (modelled as written in the `TwseCodes` module; with `find_all` it is this
    parser with `stripHeaders` set); and it decodes the page with the charset of the response
    header rather than from its bytes, which this model, working on decoded cell texts, does not
    see. */
module TableParser {
  import opened Outcomes
  import opened Builtins
  import opened Schema

  /** The three pages of the exchange's ISIN service (`strMode` 2, 4 and 11). */
  datatype Url = ListedUrl | OtcUrl | FuturesUrl

  /** What the HTTP request and the table lookup give: the status code and, when the page has a
      table with class "h4", the texts of the `td` cells of each of its `tr` rows. */
  datatype Response = Response(status: int, table: Option<seq<seq<string>>>)

  /** The responses the three pages would give, standing in for the network. */
  datatype Web = Web(listed: Response, otc: Response, futures: Response) {
    function Fetch(url: Url): Response {
      match url
      case ListedUrl => listed
      case OtcUrl => otc
      case FuturesUrl => futures
    }
  }

  /** The category every futures and index row carries. */
  const IndexCategory: string := "指數"

  lemma IndexCategoryIsIndexLabel()
    ensures IndexCategory == Label(Index)
  {
  }

  /** The texts of a row's cells as frame cells. */
  function Lift(texts: seq<string>): (cells: seq<Cell>)
    ensures |cells| == |texts|
    ensures forall i :: 0 <= i < |texts| ==> cells[i] == Some(texts[i])
  {
    seq(|texts|, i requires 0 <= i < |texts| => Some(texts[i]))
  }

  // ---------------------------------------------------------------------------------------------
  // Specification: what one row of each kind of page becomes

  /** A header row's text: taken as it is in codes.py, stripped in twse_codes/codes.py. */
  function HeaderText(text: string, stripHeaders: bool): string {
    if stripHeaders then Strip(text) else text
  }

  /** A listed or OTC data row `[c0, c1, .., ck]` becomes `[symbol, name, category, c1, .., ck]`, where
      symbol is the part of `c0` before the first U+3000 with the ASCII spaces removed and name is the
      part after it up to any second U+3000. Without a U+3000 there is no name and the row fails. */
  function ListedRecord(cells: seq<string>, category: Cell): (r: Result<seq<Cell>>)
    requires |cells| >= 2
    ensures r.Ok? <==> |Split(cells[0], FullWidthSpace)| >= 2
    ensures r.Err? ==> r.error == IndexError
    ensures r.Ok? ==> |r.value| == |cells| + 2 && r.value[2] == category
  {
    var parts := Split(cells[0], FullWidthSpace);
    if |parts| < 2 then Err(IndexError)
    else Ok([Some(RemoveSpaces(parts[0])), Some(parts[1]), category] + Lift(cells[1..]))
  }

  /** A futures row `[c0, c1, .., ck]` becomes `[symbol, name, "指數", c1, c2, "", "", c3, .., ck]`, the
      two empty cells coming right after `c2` or, in a row shorter than three cells, at its end.
      The symbol keeps its spaces. An empty row, or one whose first cell has no U+3000, fails. */
  function FuturesRecord(cells: seq<string>): (r: Result<seq<Cell>>)
    ensures r.Ok? <==> cells != [] && |Split(cells[0], FullWidthSpace)| >= 2
    ensures r.Err? ==> r.error == IndexError
    ensures r.Ok? ==> |r.value| == |cells| + 4 && r.value[2] == Some(IndexCategory)
    ensures r.Ok? && |cells| >= 3 ==> r.value[5] == Some("") && r.value[6] == Some("")
  {
    if cells == [] then Err(IndexError)
    else
      var parts := Split(cells[0], FullWidthSpace);
      if |parts| < 2 then Err(IndexError)
      else
        var k := if |cells| < 3 then |cells| else 3;
        Ok([Some(parts[0]), Some(parts[1]), Some(IndexCategory)] + Lift(cells[1..k]) + [Some(""), Some("")] + Lift(cells[k..]))
  }

  // ---------------------------------------------------------------------------------------------
  // Specification: a whole table, defined on prefixes so that it reads in document order

  /** The category in force after the given rows: the text of the last row with exactly one cell,
      or null when there is none. */
  function CategoryAfter(rows: seq<seq<string>>, stripHeaders: bool): Cell
    decreases |rows|
  {
    if rows == [] then None
    else
      var last := rows[|rows| - 1];
      if |last| == 1 then Some(HeaderText(last[0], stripHeaders))
      else CategoryAfter(rows[..|rows| - 1], stripHeaders)
  }

  /** The records of a listed or OTC table (its first row already skipped): a row with one cell
      changes the category, a row with none fails, every other row is a data row. */
  function ParseListed(rows: seq<seq<string>>, stripHeaders: bool): Result<seq<seq<Cell>>>
    decreases |rows|
  {
    if rows == [] then Ok([])
    else
      var before := rows[..|rows| - 1];
      var last := rows[|rows| - 1];
      match ParseListed(before, stripHeaders)
      case Err(e) => Err(e)
      case Ok(records) =>
        if |last| == 0 then Err(IndexError)
        else if |last| == 1 then Ok(records)
        else
          match ListedRecord(last, CategoryAfter(before, stripHeaders))
          case Err(e) => Err(e)
          case Ok(record) => Ok(records + [record])
  }

  /** The records of the futures table (its first row already skipped): every row is a data row. */
  function ParseFutures(rows: seq<seq<string>>): Result<seq<seq<Cell>>>
    decreases |rows|
  {
    if rows == [] then Ok([])
    else
      match ParseFutures(rows[..|rows| - 1])
      case Err(e) => Err(e)
      case Ok(records) =>
        match FuturesRecord(rows[|rows| - 1])
        case Err(e) => Err(e)
        case Ok(record) => Ok(records + [record])
  }

  /** The length of the longest record. */
  function Widest(records: seq<seq<Cell>>): (w: nat)
    ensures forall i :: 0 <= i < |records| ==> |records[i]| <= w
    ensures records == [] ==> w == 0
    ensures records != [] ==> exists i :: 0 <= i < |records| && |records[i]| == w
    decreases |records|
  {
    if records == [] then 0
    else
      var w := Widest(records[..|records| - 1]);
      var n := |records[|records| - 1]|;
      if n > w then n else w
  }

  /** A record no wider than a row, filled up with nulls. */
  function Pad(record: seq<Cell>): (row: Row)
    requires |record| <= 9
    ensures row[..|record|] == record
    ensures forall k :: |record| <= k < 9 ==> row[k] == None
  {
    record + seq(9 - |record|, _ => None)
  }

  /** `pd.DataFrame(datasets, columns=headings)`: no records give an empty frame; otherwise the widest
      record must have exactly nine cells, and narrower ones are filled up with nulls. */
  function ToFrame(records: seq<seq<Cell>>): (r: Result<Frame>)
    ensures r.Ok? <==> records == [] || Widest(records) == 9
    ensures r.Err? ==> r.error == ValueError
    ensures r.Ok? ==> |r.value| == |records|
    ensures r.Ok? ==> forall i :: 0 <= i < |records| ==>
      (r.value[i][..|records[i]|] == records[i] && forall k :: |records[i]| <= k < 9 ==> r.value[i][k] == None)
  {
    if records != [] && Widest(records) != 9 then Err(ValueError)
    else Ok(seq(|records|, i requires 0 <= i < |records| => Pad(records[i])))
  }

  /** The table's rows after the first: Python's `rows[1:]`, which is empty for an empty table. */
  function Body(rows: seq<seq<string>>): seq<seq<string>> {
    if rows == [] then [] else rows[1..]
  }

  function ParseTable(url: Url, rows: seq<seq<string>>, stripHeaders: bool): Result<seq<seq<Cell>>> {
    if url == FuturesUrl then ParseFutures(rows) else ParseListed(rows, stripHeaders)
  }

  /** What `_crawl_from_url(url)` gives for a page's response. */
  function Crawl(url: Url, response: Response, stripHeaders: bool): Result<Frame> {
    if response.status != 200 then Err(ConnectionError)
    else if response.table.None? then Err(AttributeError)
    else
      match ParseTable(url, Body(response.table.value), stripHeaders)
      case Err(e) => Err(e)
      case Ok(records) => ToFrame(records)
  }

  // ---------------------------------------------------------------------------------------------
  // The parser as the source runs it: one pass over the rows, a category variable carried along,
  // each record built by list inserts and one index assignment

  /** `_crawl_from_url(url)`, the response given in place of `requests.get(url)` and the table lookup. */
  method CrawlFromUrl(url: Url, response: Response, stripHeaders: bool) returns (r: Result<Frame>)
    ensures r == Crawl(url, response, stripHeaders)
  {
    if response.status != 200 {
      return Err(ConnectionError);
    }
    if response.table.None? {
      return Err(AttributeError);
    }
    var rows := Body(response.table.value);
    var datasets;
    if url == FuturesUrl {
      datasets := CrawlFuturesRows(rows);
    } else {
      datasets := CrawlListedRows(rows, stripHeaders);
    }
    if datasets.Err? {
      return Err(datasets.error);
    }
    r := ToFrame(datasets.value);
  }

  /** The futures branch of `_crawl_from_url`: the category is fixed before the loop. */
  method CrawlFuturesRows(rows: seq<seq<string>>) returns (r: Result<seq<seq<Cell>>>)
    ensures r == ParseFutures(rows)
  {
    var datasets: seq<seq<Cell>> := [];
    var category: Cell := Some(IndexCategory);
    var i := 0;
    while i < |rows|
      invariant 0 <= i <= |rows|
      invariant ParseFutures(rows[..i]) == Ok(datasets)
    {
      assert rows[..i + 1][..i] == rows[..i];
      var dataset := Lift(rows[i]);
      dataset := Insert(dataset, 3, Some(""));
      dataset := Insert(dataset, 3, Some(""));
      assert dataset[0] == if rows[i] == [] then Some("") else Some(rows[i][0]);
      var symbolColumn := Split(dataset[0].value, FullWidthSpace);
      dataset := Insert(dataset, 1, category);
      dataset := Insert(dataset, 0, Some(symbolColumn[0]));
      if |symbolColumn| < 2 {
        FuturesFailureSticks(rows, i + 1);
        return Err(IndexError);
      }
      dataset := dataset[1 := Some(symbolColumn[1])];
      FuturesInserts(rows[i], Some(symbolColumn[0]), Some(symbolColumn[1]));
      datasets := datasets + [dataset];
      i := i + 1;
    }
    assert rows[..i] == rows;
    r := Ok(datasets);
  }

  /** The listed and OTC branch of `_crawl_from_url`: a one-cell row replaces the category. */
  method CrawlListedRows(rows: seq<seq<string>>, stripHeaders: bool) returns (r: Result<seq<seq<Cell>>>)
    ensures r == ParseListed(rows, stripHeaders)
  {
    var datasets: seq<seq<Cell>> := [];
    var category: Cell := None;
    var i := 0;
    while i < |rows|
      invariant 0 <= i <= |rows|
      invariant ParseListed(rows[..i], stripHeaders) == Ok(datasets)
      invariant category == CategoryAfter(rows[..i], stripHeaders)
    {
      var tds := rows[i];
      ListedPrefixStep(rows, i, stripHeaders);
      if |tds| <= 1 {
        if |tds| == 0 {
          ListedFailureSticks(rows, i + 1, stripHeaders);
          return Err(IndexError);
        }
        category := Some(HeaderText(tds[0], stripHeaders));
      } else {
        var dataset := Lift(tds);
        var symbolColumn := Split(dataset[0].value, FullWidthSpace);
        dataset := Insert(dataset, 1, category);
        dataset := Insert(dataset, 0, Some(RemoveSpaces(symbolColumn[0])));
        if |symbolColumn| < 2 {
          ListedFailureSticks(rows, i + 1, stripHeaders);
          return Err(IndexError);
        }
        dataset := dataset[1 := Some(symbolColumn[1])];
        ListedInserts(tds, category, Some(RemoveSpaces(symbolColumn[0])), Some(symbolColumn[1]));
        datasets := datasets + [dataset];
      }
      i := i + 1;
    }
    assert rows[..i] == rows;
    r := Ok(datasets);
  }

  /** One more row of a listed table: a row with no cells fails, a header changes the category and
      adds nothing, a data row adds its record. */
  lemma ListedPrefixStep(rows: seq<seq<string>>, i: nat, stripHeaders: bool)
    requires i < |rows|
    ensures var before, row := rows[..i], rows[i];
      CategoryAfter(rows[..i + 1], stripHeaders) ==
        (if |row| == 1 then Some(HeaderText(row[0], stripHeaders)) else CategoryAfter(before, stripHeaders)) &&
      ParseListed(rows[..i + 1], stripHeaders) ==
        if ParseListed(before, stripHeaders).Err? then ParseListed(before, stripHeaders)
        else if |row| == 0 then Err(IndexError)
        else if |row| == 1 then ParseListed(before, stripHeaders)
        else if ListedRecord(row, CategoryAfter(before, stripHeaders)).Err? then Err(IndexError)
        else Ok(ParseListed(before, stripHeaders).value + [ListedRecord(row, CategoryAfter(before, stripHeaders)).value])
  {
    assert rows[..i + 1][..i] == rows[..i];
  }

  /** The two inserts and the assignment of the listed branch give `[symbol, name, category, c1, ..]`. */
  lemma ListedInserts(cells: seq<string>, category: Cell, symbol: Cell, name: Cell)
    requires |cells| >= 2
    ensures Insert(Insert(Lift(cells), 1, category), 0, symbol)[1 := name]
         == [symbol, name, category] + Lift(cells[1..])
  {
    var l := Lift(cells);
    assert Insert(l, 1, category) == l[..1] + [category] + l[1..];
    assert l[1..] == Lift(cells[1..]);
  }

  /** The four inserts and the assignment of the futures branch give
      `[symbol, name, "指數", c1, c2, "", "", c3, ..]`, the empty cells moving to the end of a short row. */
  lemma FuturesInserts(cells: seq<string>, symbol: Cell, name: Cell)
    requires cells != []
    ensures var k := if |cells| < 3 then |cells| else 3;
      Insert(Insert(Insert(Insert(Lift(cells), 3, Some("")), 3, Some("")), 1, Some(IndexCategory)), 0, symbol)[1 := name]
      == [symbol, name, Some(IndexCategory)] + Lift(cells[1..k]) + [Some(""), Some("")] + Lift(cells[k..])
  {
    var k := if |cells| < 3 then |cells| else 3;
    var l := Lift(cells);
    var e: Cell := Some("");
    var c: Cell := Some(IndexCategory);
    var rest := l[1..k] + [e, e] + l[k..];
    var d2 := BlanksInserted(l, e);
    assert d2 == [l[0]] + rest by {
      assert l[..k] == [l[0]] + l[1..k];
    }
    CategoryThenSymbol(l[0], rest, c, symbol, name);
    assert [symbol, name, c] + rest == [symbol, name, c] + l[1..k] + [e, e] + l[k..];
    assert l[1..k] == Lift(cells[1..k]) && l[k..] == Lift(cells[k..]);
  }

  /** `insert(1, category)`, `insert(0, symbol)`, then `[1] = name` on a row `[x] + rest`: the first
      cell gives way to the name, and the rest of the row follows the category untouched. */
  lemma CategoryThenSymbol<T>(x: T, rest: seq<T>, category: T, symbol: T, name: T)
    ensures Insert(Insert([x] + rest, 1, category), 0, symbol)[1 := name] == [symbol, name, category] + rest
  {
    var withCategory := Insert([x] + rest, 1, category);
    assert withCategory == [x, category] + rest by {
      assert ([x] + rest)[..1] == [x] && ([x] + rest)[1..] == rest;
    }
    assert Insert(withCategory, 0, symbol) == [symbol, x, category] + rest;
  }

  /** The two `insert(3, "")` calls: the blanks follow the first three cells, or end a shorter row. */
  lemma BlanksInserted(l: seq<Cell>, e: Cell) returns (d2: seq<Cell>)
    requires l != []
    ensures var k := if |l| < 3 then |l| else 3;
      d2 == Insert(Insert(l, 3, e), 3, e) && d2 == l[..k] + [e, e] + l[k..]
  {
    var d1 := Insert(l, 3, e);
    d2 := Insert(d1, 3, e);
    if |l| < 3 {
      assert d1 == l + [e];
      assert d2 == l + [e, e];
      assert l[..|l|] == l && l[|l|..] == [];
    } else {
      assert d1 == l[..3] + [e] + l[3..];
      assert d1[..3] == l[..3] && d1[3..] == [e] + l[3..];
    }
  }

  /** Once a prefix of the rows fails, the whole table fails with the same error. */
  lemma {:induction false} ListedFailureSticks(rows: seq<seq<string>>, k: nat, stripHeaders: bool)
    requires k <= |rows|
    requires ParseListed(rows[..k], stripHeaders).Err?
    ensures ParseListed(rows, stripHeaders) == ParseListed(rows[..k], stripHeaders)
    decreases |rows| - k
  {
    if k == |rows| {
      assert rows[..k] == rows;
    } else {
      var before := rows[..|rows| - 1];
      assert before[..k] == rows[..k];
      ListedFailureSticks(before, k, stripHeaders);
    }
  }

  lemma {:induction false} FuturesFailureSticks(rows: seq<seq<string>>, k: nat)
    requires k <= |rows|
    requires ParseFutures(rows[..k]).Err?
    ensures ParseFutures(rows) == ParseFutures(rows[..k])
    decreases |rows| - k
  {
    if k == |rows| {
      assert rows[..k] == rows;
    } else {
      var before := rows[..|rows| - 1];
      assert before[..k] == rows[..k];
      FuturesFailureSticks(before, k);
    }
  }

  // ---------------------------------------------------------------------------------------------
  // Properties of the specification

  /** The positions of the data rows (two cells or more), in increasing order, and all of them. */
  function DataRows(rows: seq<seq<string>>): (idx: seq<nat>)
    ensures forall j :: 0 <= j < |idx| ==> idx[j] < |rows| && |rows[idx[j]]| >= 2
    ensures forall j, l :: 0 <= j < l < |idx| ==> idx[j] < idx[l]
    decreases |rows|
  {
    if rows == [] then []
    else
      var before := DataRows(rows[..|rows| - 1]);
      if |rows[|rows| - 1]| >= 2 then before + [|rows| - 1] else before
  }

  /** Listed and OTC pages: one record per data row, in document order, each built from its row and
      the category in force at that row; header rows emit nothing. */
  lemma {:induction false} ListedRecordsInOrder(rows: seq<seq<string>>, stripHeaders: bool)
    requires ParseListed(rows, stripHeaders).Ok?
    ensures var out, idx := ParseListed(rows, stripHeaders).value, DataRows(rows);
      |out| == |idx| &&
      forall j :: 0 <= j < |out| ==>
        ListedRecord(rows[idx[j]], CategoryAfter(rows[..idx[j]], stripHeaders)) == Ok(out[j])
    decreases |rows|
  {
    if rows != [] {
      var before, last := rows[..|rows| - 1], rows[|rows| - 1];
      ListedStep(rows, stripHeaders);
      ListedRecordsInOrder(before, stripHeaders);
      var outBefore, idxBefore := ParseListed(before, stripHeaders).value, DataRows(before);
      assert RecordsMatchRows(before, stripHeaders, outBefore, idxBefore);
      if |last| >= 2 {
        var record := ListedRecord(last, CategoryAfter(before, stripHeaders)).value;
        RecordsExtend(rows, stripHeaders, outBefore, idxBefore, record);
      } else {
        RecordsKept(rows, stripHeaders, outBefore, idxBefore);
      }
    }
  }

  /** `out[j]` is the record of data row `idx[j]`, built with the category in force before it. */
  ghost predicate RecordsMatchRows(rows: seq<seq<string>>, stripHeaders: bool, out: seq<seq<Cell>>, idx: seq<nat>) {
    |out| == |idx| &&
    forall j :: 0 <= j < |out| ==>
      idx[j] < |rows| && |rows[idx[j]]| >= 2 &&
      ListedRecord(rows[idx[j]], CategoryAfter(rows[..idx[j]], stripHeaders)) == Ok(out[j])
  }

  /** A data row at the end adds its record to those of the rows before it. */
  lemma RecordsExtend(rows: seq<seq<string>>, stripHeaders: bool, out: seq<seq<Cell>>, idx: seq<nat>,
                      record: seq<Cell>)
    requires rows != [] && |rows[|rows| - 1]| >= 2
    requires RecordsMatchRows(rows[..|rows| - 1], stripHeaders, out, idx)
    requires ListedRecord(rows[|rows| - 1], CategoryAfter(rows[..|rows| - 1], stripHeaders)) == Ok(record)
    ensures RecordsMatchRows(rows, stripHeaders, out + [record], idx + [|rows| - 1])
  {
    var out', idx' := out + [record], idx + [|rows| - 1];
    forall j | 0 <= j < |out'|
      ensures idx'[j] < |rows| && |rows[idx'[j]]| >= 2
      ensures ListedRecord(rows[idx'[j]], CategoryAfter(rows[..idx'[j]], stripHeaders)) == Ok(out'[j])
    {
      if j < |out| {
        RecordKeptByLongerTable(rows, stripHeaders, idx[j], out[j]);
      }
    }
  }

  /** A header row at the end leaves the records of the rows before it as they are. */
  lemma RecordsKept(rows: seq<seq<string>>, stripHeaders: bool, out: seq<seq<Cell>>, idx: seq<nat>)
    requires rows != []
    requires RecordsMatchRows(rows[..|rows| - 1], stripHeaders, out, idx)
    ensures RecordsMatchRows(rows, stripHeaders, out, idx)
  {
    forall j | 0 <= j < |out|
      ensures idx[j] < |rows| && |rows[idx[j]]| >= 2
      ensures ListedRecord(rows[idx[j]], CategoryAfter(rows[..idx[j]], stripHeaders)) == Ok(out[j])
    {
      RecordKeptByLongerTable(rows, stripHeaders, idx[j], out[j]);
    }
  }

  /** A record built from a row of a table without its last row is built the same in the whole table. */
  lemma RecordKeptByLongerTable(rows: seq<seq<string>>, stripHeaders: bool, i: nat, record: seq<Cell>)
    requires rows != [] && i < |rows| - 1
    requires var before := rows[..|rows| - 1];
      |before[i]| >= 2 && ListedRecord(before[i], CategoryAfter(before[..i], stripHeaders)) == Ok(record)
    ensures |rows[i]| >= 2 && ListedRecord(rows[i], CategoryAfter(rows[..i], stripHeaders)) == Ok(record)
  {
    var before := rows[..|rows| - 1];
    assert before[i] == rows[i] && before[..i] == rows[..i];
  }

  /** One more row adds one record exactly when it is a data row. */
  lemma ListedStep(rows: seq<seq<string>>, stripHeaders: bool)
    requires rows != [] && ParseListed(rows, stripHeaders).Ok?
    ensures var before, last := rows[..|rows| - 1], rows[|rows| - 1];
      ParseListed(before, stripHeaders).Ok? &&
      var out, outBefore := ParseListed(rows, stripHeaders).value, ParseListed(before, stripHeaders).value;
      if |last| >= 2 then
        ListedRecord(last, CategoryAfter(before, stripHeaders)).Ok? &&
        out == outBefore + [ListedRecord(last, CategoryAfter(before, stripHeaders)).value] &&
        DataRows(rows) == DataRows(before) + [|rows| - 1]
      else
        out == outBefore && DataRows(rows) == DataRows(before)
  {
  }

  /** The category in force is null exactly when no header row has been seen. */
  lemma {:induction false} CategoryNullIffNoHeader(rows: seq<seq<string>>, stripHeaders: bool)
    ensures CategoryAfter(rows, stripHeaders) == None <==> forall h :: 0 <= h < |rows| ==> |rows[h]| != 1
    decreases |rows|
  {
    if rows != [] {
      var before := rows[..|rows| - 1];
      CategoryNullIffNoHeader(before, stripHeaders);
      assert forall h :: 0 <= h < |before| ==> before[h] == rows[h];
    }
  }

  /** Otherwise it is the text of the last header row. */
  lemma {:induction false} CategoryFromLastHeader(rows: seq<seq<string>>, stripHeaders: bool, h: nat)
    requires h < |rows| && |rows[h]| == 1
    requires forall g :: h < g < |rows| ==> |rows[g]| != 1
    ensures CategoryAfter(rows, stripHeaders) == Some(HeaderText(rows[h][0], stripHeaders))
    decreases |rows|
  {
    if h < |rows| - 1 {
      var before := rows[..|rows| - 1];
      CategoryFromLastHeader(before, stripHeaders, h);
    }
  }

  /** Category carry-over: the category of the j-th record is null when no header row precedes its row,
      and otherwise the text of the nearest header row above it. */
  lemma RecordCategoryIsLatestHeader(rows: seq<seq<string>>, stripHeaders: bool, j: nat)
    requires ParseListed(rows, stripHeaders).Ok?
    requires j < |DataRows(rows)|
    ensures j < |ParseListed(rows, stripHeaders).value|
    ensures var k, record := DataRows(rows)[j], ParseListed(rows, stripHeaders).value[j];
      |record| > 2 &&
      (record[2] == None <==> forall h :: 0 <= h < k ==> |rows[h]| != 1) &&
      forall h :: 0 <= h < k && |rows[h]| == 1 && (forall g :: h < g < k ==> |rows[g]| != 1) ==>
        record[2] == Some(HeaderText(rows[h][0], stripHeaders))
  {
    ListedRecordsInOrder(rows, stripHeaders);
    var k := DataRows(rows)[j];
    var prefix := rows[..k];
    var record := ParseListed(rows, stripHeaders).value[j];
    assert ListedRecord(rows[k], CategoryAfter(prefix, stripHeaders)) == Ok(record);
    assert record[2] == CategoryAfter(prefix, stripHeaders);
    assert forall h :: 0 <= h < k ==> prefix[h] == rows[h];
    CategoryNullIffNoHeader(prefix, stripHeaders);
    forall h | 0 <= h < k && |rows[h]| == 1 && (forall g :: h < g < k ==> |rows[g]| != 1)
      ensures CategoryAfter(prefix, stripHeaders) == Some(HeaderText(rows[h][0], stripHeaders))
    {
      CategoryFromLastHeader(prefix, stripHeaders, h);
    }
  }

  /** A listed or OTC row that does not stop the parser: a header with exactly one cell, or a data row
      whose first cell holds a U+3000. */
  predicate ListedRowParses(cells: seq<string>) {
    |cells| == 1 || (|cells| >= 2 && FullWidthSpace in cells[0])
  }

  /** A listed or OTC table parses exactly when every row does; a failure is always an `IndexError`. */
  lemma {:induction false} ListedSucceedsIff(rows: seq<seq<string>>, stripHeaders: bool)
    ensures ParseListed(rows, stripHeaders).Ok? <==> forall k :: 0 <= k < |rows| ==> ListedRowParses(rows[k])
    ensures ParseListed(rows, stripHeaders).Err? ==> ParseListed(rows, stripHeaders).error == IndexError
    decreases |rows|
  {
    if rows != [] {
      var before, last := rows[..|rows| - 1], rows[|rows| - 1];
      ListedSucceedsIff(before, stripHeaders);
      if |last| >= 2 {
        SplitFindsSeparator(last[0], FullWidthSpace);
      }
      assert forall k :: 0 <= k < |before| ==> before[k] == rows[k];
    }
  }

  /** Futures page: the table parses exactly when every row is non-empty with a U+3000 in its first
      cell; a failure is always an `IndexError`. */
  lemma {:induction false} FuturesSucceedsIff(rows: seq<seq<string>>)
    ensures ParseFutures(rows).Ok? <==> forall k :: 0 <= k < |rows| ==> rows[k] != [] && FullWidthSpace in rows[k][0]
    ensures ParseFutures(rows).Err? ==> ParseFutures(rows).error == IndexError
    decreases |rows|
  {
    if rows != [] {
      var before, last := rows[..|rows| - 1], rows[|rows| - 1];
      FuturesSucceedsIff(before);
      if last != [] {
        SplitFindsSeparator(last[0], FullWidthSpace);
      }
      assert forall k :: 0 <= k < |before| ==> before[k] == rows[k];
    }
  }

  /** Futures page: one record per row, in document order. */
  lemma {:induction false} FuturesRecordsInOrder(rows: seq<seq<string>>)
    requires ParseFutures(rows).Ok?
    ensures var out := ParseFutures(rows).value;
      |out| == |rows| && forall j :: 0 <= j < |out| ==> FuturesRecord(rows[j]) == Ok(out[j])
    decreases |rows|
  {
    if rows != [] {
      var before := rows[..|rows| - 1];
      FuturesRecordsInOrder(before);
      assert forall k :: 0 <= k < |before| ==> before[k] == rows[k];
    }
  }

  /** A non-empty frame is built exactly when the widest record is nine cells wide. */
  lemma WidestIsNine(records: seq<seq<Cell>>)
    requires records != []
    ensures Widest(records) == 9 <==>
      (forall i :: 0 <= i < |records| ==> |records[i]| <= 9) && exists i :: 0 <= i < |records| && |records[i]| == 9
  {
  }

  /** Every data row has its place in `DataRows`. */
  lemma {:induction false} DataRowIndex(rows: seq<seq<string>>, k: nat) returns (j: nat)
    requires k < |rows| && |rows[k]| >= 2
    ensures j < |DataRows(rows)| && DataRows(rows)[j] == k
    decreases |rows|
  {
    var before := rows[..|rows| - 1];
    if k == |rows| - 1 {
      j := |DataRows(before)|;
    } else {
      j := DataRowIndex(before, k);
    }
  }

  /** The records of a listed or OTC table are two cells wider than their rows. */
  lemma ListedRecordWidths(rows: seq<seq<string>>, stripHeaders: bool)
    requires ParseListed(rows, stripHeaders).Ok?
    ensures var out, idx := ParseListed(rows, stripHeaders).value, DataRows(rows);
      |out| == |idx| && forall j :: 0 <= j < |out| ==> |out[j]| == |rows[idx[j]]| + 2
  {
    ListedRecordsInOrder(rows, stripHeaders);
  }

  /** A row of two cells or more is a data row, so a table without data rows has only headers. */
  lemma DataRowsCoverWideRows(rows: seq<seq<string>>)
    ensures forall k :: 0 <= k < |rows| && |rows[k]| >= 2 ==> DataRows(rows) != []
  {
    forall k | 0 <= k < |rows| && |rows[k]| >= 2 ensures DataRows(rows) != [] {
      var j := DataRowIndex(rows, k);
    }
  }

  /** When the widest record of a parsed listed table is nine cells wide, no row has more than seven
      cells and some row has exactly seven. */
  lemma ListedWidestBounds(rows: seq<seq<string>>, stripHeaders: bool)
    requires ParseListed(rows, stripHeaders).Ok?
    requires var out := ParseListed(rows, stripHeaders).value; out != [] && Widest(out) == 9
    ensures forall k :: 0 <= k < |rows| ==> |rows[k]| <= 7
    ensures exists k :: 0 <= k < |rows| && |rows[k]| == 7
  {
    ListedRecordWidths(rows, stripHeaders);
    var out, idx := ParseListed(rows, stripHeaders).value, DataRows(rows);
    var j :| 0 <= j < |out| && |out[j]| == Widest(out);
    var seven := idx[j];
    assert |rows[seven]| == 7;
    forall k | 0 <= k < |rows| && |rows[k]| >= 2 ensures |rows[k]| <= 7 {
      var j' := DataRowIndex(rows, k);
      assert |out[j']| <= Widest(out);
    }
  }

  /** When no row of a parsed listed table has more than seven cells and row `k` has seven, the widest
      record is nine cells wide. */
  lemma ListedSevenMakesNine(rows: seq<seq<string>>, stripHeaders: bool, k: nat)
    requires ParseListed(rows, stripHeaders).Ok?
    requires forall i :: 0 <= i < |rows| ==> |rows[i]| <= 7
    requires k < |rows| && |rows[k]| == 7
    ensures var out := ParseListed(rows, stripHeaders).value; out != [] && Widest(out) == 9
  {
    ListedRecordWidths(rows, stripHeaders);
    var out, idx := ParseListed(rows, stripHeaders).value, DataRows(rows);
    var j := DataRowIndex(rows, k);
    assert |out[j]| == 9;
    forall i | 0 <= i < |out| ensures |out[i]| <= 9 {
      assert |rows[idx[i]]| <= 7;
    }
    WidestIsNine(out);
  }

  /** The frame of a listed or OTC table that parsed is built exactly when no row has more than seven
      cells and some data row has seven, or there is no data row at all. */
  lemma ListedFrameShape(rows: seq<seq<string>>, stripHeaders: bool)
    requires ParseListed(rows, stripHeaders).Ok?
    ensures ToFrame(ParseListed(rows, stripHeaders).value).Ok? <==>
      (forall k :: 0 <= k < |rows| ==> |rows[k]| <= 7) &&
      (DataRows(rows) == [] || exists k :: 0 <= k < |rows| && |rows[k]| == 7)
  {
    ListedRecordWidths(rows, stripHeaders);
    var out, idx := ParseListed(rows, stripHeaders).value, DataRows(rows);
    assert ToFrame(out).Ok? <==> out == [] || Widest(out) == 9;
    assert |out| == |idx|;
    if out == [] {
      DataRowsCoverWideRows(rows);
      assert forall k :: 0 <= k < |rows| ==> |rows[k]| <= 7;
    } else if Widest(out) == 9 {
      ListedWidestBounds(rows, stripHeaders);
    } else if forall i :: 0 <= i < |rows| ==> |rows[i]| <= 7 {
      if exists i :: 0 <= i < |rows| && |rows[i]| == 7 {
        var k :| 0 <= k < |rows| && |rows[k]| == 7;
        ListedSevenMakesNine(rows, stripHeaders, k);
        assert false;
      }
    }
  }

  /** `_crawl_from_url` on the listed or OTC page: a non-200 status is a `ConnectionError` before anything
      is parsed, a missing table an `AttributeError`; otherwise it succeeds exactly when every row after
      the first parses, no row has more than seven cells, and some data row has seven (or there is no
      data row at all). */
  lemma ListedCrawlOutcome(url: Url, response: Response, stripHeaders: bool)
    requires url != FuturesUrl
    ensures response.status != 200 ==> Crawl(url, response, stripHeaders) == Err(ConnectionError)
    ensures response.status == 200 && response.table.None? ==> Crawl(url, response, stripHeaders) == Err(AttributeError)
    ensures response.status == 200 && response.table.Some? ==>
      var rows := Body(response.table.value);
      (Crawl(url, response, stripHeaders).Ok? <==>
        (forall k :: 0 <= k < |rows| ==> ListedRowParses(rows[k]) && |rows[k]| <= 7) &&
        (DataRows(rows) == [] || exists k :: 0 <= k < |rows| && |rows[k]| == 7))
  {
    if response.status == 200 && response.table.Some? {
      var rows := Body(response.table.value);
      assert ParseTable(url, rows, stripHeaders) == ParseListed(rows, stripHeaders);
      ListedSucceedsIff(rows, stripHeaders);
      if ParseListed(rows, stripHeaders).Ok? {
        ListedFrameShape(rows, stripHeaders);
      }
    }
  }

  /** `_crawl_from_url` on the futures page: every row of the frame is tagged "指數", which is the label of
      `CodesCategory.INDEX`; a row of three cells or more has its two empty cells in the market-type and
      industry columns, and its symbol is the first U+3000 part of its first cell, spaces kept. */
  lemma FuturesCrawlRows(response: Response, stripHeaders: bool)
    requires Crawl(FuturesUrl, response, stripHeaders).Ok?
    ensures var frame, rows := Crawl(FuturesUrl, response, stripHeaders).value, Body(response.table.value);
      |frame| == |rows| &&
      forall j :: 0 <= j < |frame| ==>
        (rows[j] != [] &&
         frame[j][Position(Category)] == Some(Label(Index)) &&
         frame[j][Position(Symbol)] == Some(Split(rows[j][0], FullWidthSpace)[0]) &&
         (|rows[j]| >= 3 ==> frame[j][Position(MarketType)] == Some("") && frame[j][Position(Industry)] == Some("")))
  {
    var rows := Body(response.table.value);
    CrawlBuildsFrame(FuturesUrl, response, stripHeaders);
    assert ParseTable(FuturesUrl, rows, stripHeaders) == ParseFutures(rows);
    FuturesFrameRows(rows, Crawl(FuturesUrl, response, stripHeaders).value);
    IndexCategoryIsIndexLabel();
    assert Position(Symbol) == 0 && Position(Category) == 2;
    assert Position(MarketType) == 5 && Position(Industry) == 6;
  }

  /** The frame of a futures table, by cell position. */
  lemma FuturesFrameRows(rows: seq<seq<string>>, frame: Frame)
    requires ParseFutures(rows).Ok? && ToFrame(ParseFutures(rows).value) == Ok(frame)
    ensures |frame| == |rows|
    ensures forall j :: 0 <= j < |frame| ==>
      rows[j] != [] && frame[j][2] == Some(IndexCategory) &&
      frame[j][0] == Some(Split(rows[j][0], FullWidthSpace)[0]) &&
      (|rows[j]| >= 3 ==> frame[j][5] == Some("") && frame[j][6] == Some(""))
  {
    FuturesRecordsInOrder(rows);
    var out := ParseFutures(rows).value;
    forall j | 0 <= j < |frame|
      ensures rows[j] != [] && frame[j][2] == Some(IndexCategory)
      ensures frame[j][0] == Some(Split(rows[j][0], FullWidthSpace)[0])
      ensures |rows[j]| >= 3 ==> frame[j][5] == Some("") && frame[j][6] == Some("")
    {
      FrameRowKeeps(out, frame, j);
      FuturesRowInFrame(rows[j], out[j], frame[j]);
    }
  }

  /** A frame row starts with the cells of its record. */
  lemma FrameRowKeeps(records: seq<seq<Cell>>, frame: Frame, j: nat)
    requires ToFrame(records) == Ok(frame) && j < |records|
    ensures |records[j]| <= 9 && frame[j][..|records[j]|] == records[j]
  {
  }



  /** A page that crawls successfully had status 200, a table, and records that made the frame. */
  lemma CrawlBuildsFrame(url: Url, response: Response, stripHeaders: bool)
    requires Crawl(url, response, stripHeaders).Ok?
    ensures response.status == 200 && response.table.Some?
    ensures var records := ParseTable(url, Body(response.table.value), stripHeaders);
      records.Ok? && ToFrame(records.value) == Crawl(url, response, stripHeaders)
  {
  }

  /** A futures record keeps its cells when it becomes a frame row. */
  lemma FuturesRowInFrame(cells: seq<string>, record: seq<Cell>, row: Row)
    requires FuturesRecord(cells) == Ok(record)
    requires |record| <= 9 && row[..|record|] == record
    ensures cells != [] && row[2] == Some(IndexCategory)
    ensures row[0] == Some(Split(cells[0], FullWidthSpace)[0])
    ensures |cells| >= 3 ==> row[5] == Some("") && row[6] == Some("")
  {
    assert row[0] == record[0] && row[2] == record[2];
    if |cells| >= 3 {
      assert row[5] == record[5] && row[6] == record[6];
    }
  }

  // ---------------------------------------------------------------------------------------------
  // The three pages together: the loop at the head of `download_codes`

  /** The pages in the order `download_codes` visits them. */
  const SourceOrder: seq<Url> := [ListedUrl, OtcUrl, FuturesUrl]

  /** The frames of the given pages concatenated in order; the first page that fails decides the error. */
  function Gather(urls: seq<Url>, web: Web, stripHeaders: bool): Result<Frame>
    decreases |urls|
  {
    if urls == [] then Ok([])
    else
      match Gather(urls[..|urls| - 1], web, stripHeaders)
      case Err(e) => Err(e)
      case Ok(df) =>
        match Crawl(urls[|urls| - 1], web.Fetch(urls[|urls| - 1]), stripHeaders)
        case Err(e) => Err(e)
        case Ok(dfx) => Ok(df + dfx)
  }

  /** `df = pd.concat([df, dfx], ignore_index=True)` over the three pages. */
  method DownloadAll(web: Web, stripHeaders: bool) returns (r: Result<Frame>)
    ensures r == Gather(SourceOrder, web, stripHeaders)
  {
    var df: Frame := [];
    for i := 0 to |SourceOrder|
      invariant Gather(SourceOrder[..i], web, stripHeaders) == Ok(df)
    {
      var url := SourceOrder[i];
      assert SourceOrder[..i + 1] == SourceOrder[..i] + [url];
      GatherSnoc(SourceOrder[..i], url, web, stripHeaders);
      var dfx := CrawlFromUrl(url, web.Fetch(url), stripHeaders);
      if dfx.Err? {
        GatherFailureSticks(SourceOrder, i + 1, web, stripHeaders);
        return Err(dfx.error);
      }
      df := df + dfx.value;
    }
    assert SourceOrder[..|SourceOrder|] == SourceOrder;
    r := Ok(df);
  }

  lemma {:induction false} GatherFailureSticks(urls: seq<Url>, k: nat, web: Web, stripHeaders: bool)
    requires k <= |urls|
    requires Gather(urls[..k], web, stripHeaders).Err?
    ensures Gather(urls, web, stripHeaders) == Gather(urls[..k], web, stripHeaders)
    decreases |urls| - k
  {
    if k == |urls| {
      assert urls[..k] == urls;
    } else {
      var before := urls[..|urls| - 1];
      assert before[..k] == urls[..k];
      GatherFailureSticks(before, k, web, stripHeaders);
    }
  }

  /** The listed, OTC and futures frames concatenated in that order: nothing reordered, nothing
      merged, so a symbol on two pages stays twice; any page's failure is the whole download's, the
      earliest page deciding which. */
  lemma DownloadConcatenates(web: Web, stripHeaders: bool)
    ensures var listed, otc, futures :=
        Crawl(ListedUrl, web.listed, stripHeaders), Crawl(OtcUrl, web.otc, stripHeaders),
        Crawl(FuturesUrl, web.futures, stripHeaders);
      Gather(SourceOrder, web, stripHeaders) ==
        if listed.Err? then Err(listed.error)
        else if otc.Err? then Err(otc.error)
        else if futures.Err? then Err(futures.error)
        else Ok(listed.value + otc.value + futures.value)
  {
    var listed, otc, futures :=
      Crawl(ListedUrl, web.listed, stripHeaders), Crawl(OtcUrl, web.otc, stripHeaders),
      Crawl(FuturesUrl, web.futures, stripHeaders);
    var g1 := Gather([ListedUrl], web, stripHeaders);
    assert g1 == if listed.Err? then Err(listed.error) else Ok(listed.value) by {
      assert [] + [ListedUrl] == [ListedUrl];
      GatherSnoc([], ListedUrl, web, stripHeaders);
      assert listed.Ok? ==> [] + listed.value == listed.value;
    }
    var g2 := Gather([ListedUrl, OtcUrl], web, stripHeaders);
    assert g2 == if g1.Err? then g1 else if otc.Err? then Err(otc.error) else Ok(g1.value + otc.value) by {
      assert [ListedUrl] + [OtcUrl] == [ListedUrl, OtcUrl];
      GatherSnoc([ListedUrl], OtcUrl, web, stripHeaders);
    }
    assert Gather(SourceOrder, web, stripHeaders) ==
      if g2.Err? then g2 else if futures.Err? then Err(futures.error) else Ok(g2.value + futures.value) by {
      assert [ListedUrl, OtcUrl] + [FuturesUrl] == SourceOrder;
      GatherSnoc([ListedUrl, OtcUrl], FuturesUrl, web, stripHeaders);
    }
  }

  /** One more page: its frame goes after the others, unless something already failed. */
  lemma GatherSnoc(urls: seq<Url>, url: Url, web: Web, stripHeaders: bool)
    ensures Gather(urls + [url], web, stripHeaders) ==
      if Gather(urls, web, stripHeaders).Err? then Gather(urls, web, stripHeaders)
      else if Crawl(url, web.Fetch(url), stripHeaders).Err? then Err(Crawl(url, web.Fetch(url), stripHeaders).error)
      else Ok(Gather(urls, web, stripHeaders).value + Crawl(url, web.Fetch(url), stripHeaders).value)
  {
    assert (urls + [url])[..|urls|] == urls;
  }
}
