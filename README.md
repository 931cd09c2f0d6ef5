# twse-codes in Dafny

This is a model of the twse-codes library, which downloads the security-code tables the Taiwan Stock
Exchange publishes on its ISIN lookup pages. It fetches three pages: listed securities, OTC
securities, and futures indices. It turns each table into rows of nine columns
(`sc, cn, ca, ic, dl, ma, si, cc, no`), stores them, and serves them back by category.

There are two versions of the program, and both are modelled:

- `twse_codes/codes.py` is the packaged version. It stores the rows in a SQLite table `twse`, and its
  `get(category)` reads that table back filtered and ordered by symbol. When the read finds nothing,
  `get` downloads again.
- `codes.py` at the repository root is the earlier version. It writes the rows to a CSV file and/or
  to a table in the `mt_symbols` schema of a MariaDB server. Its `get` reads the table and falls back
  to the CSV file.

The modules:

- `Outcomes` holds `Option`, `Result`, and the Python exceptions as a `Failure` value.
- `Builtins` holds the Python string and list operations the parser relies on: `str.split`,
  `str.replace(" ", "")`, `str.strip` with Python's whitespace set, and `list.insert`.
- `Schema` holds the `DataColumns` and `CodesCategory` enumerations, and the `Row` and `Frame` types.
  A cell is `Option<string>`, because pandas fills missing cells, and a missing category, with `None`.
- `TableParser` models `_crawl_from_url` as codes.py writes it, and the loop over the three pages.
  The packaged copy of the parser differs in three ways:
  - it strips a header row's text, which is the parser's `stripHeaders` parameter;
  - it fetches rows and cells with `find_ALL`, which BeautifulSoup does not have, so as written it
    never reads a row (see "## Findings");
  - it parses `html.text`, the body as requests decodes it, where codes.py parses the raw bytes
    `html.content` (see "## Left out").
- `TwseCodes` models the SQLite `Store` class, the query, the crawl, `download_codes` and `get`. The
  crawl, `download_codes` and `get` each have two versions: as written, and with `find_all`, where
  the crawl is `TableParser`'s with `stripHeaders` set. The store and the query have one version.
- `Codes` models the root file's `verify_database`, `download_codes` and `get`, with the MariaDB
  server and the CSV file as the classes `Database` and `CsvFile`.

Network, database and file-system effects become values or objects:

- A page is a `Response`: a status, plus the text cells of each `<tr>` of the `h4` table, or nothing
  when there is no such table. The three pages together are a `Web` value.
- The SQLite file and the MariaDB server are classes whose fields the methods update.

What the code does, which the model follows:

- A row with at most one cell is a category header. A row with no cells at all fails with
  `IndexError`.
- A data row before any header gets a `None` category, without an error.
- A header's text becomes the category as it is, without a check against the category enumeration.
- A record is laid out as `[symbol, name, category, ...]`. The code inserts the category after the
  first cell, then overwrites that cell with the name.
- The two empty cells of a futures row are inserted at index 3 of the raw row, so they land in the
  `ma` and `si` columns (positions 5 and 6).
- The download concatenates the three pages in order. A symbol listed twice stays twice. The
  packaged code's `df.sort_values(...)` throws away its result, so the stored order is the page
  order.
- Storage errors reach the caller: an unreachable server, or a missing SQLite table, is an
  `OperationalError`. The packaged `get` reads only the SQLite table. The root `get` falls back to
  the CSV file when the schema or the table is missing, and, once its read is corrected (see
  "## Findings"), when the table is empty.
- pandas refuses a table only when its widest row is not nine cells wide (`ValueError`). Shorter
  rows are padded with `None`.

## Model

| member | source | states |
|---|---|---|
| Builtins.Split | codes.py:199 | `str.split` on the full-width space gives at least one part, and no part contains the separator |
| Builtins.SplitFindsSeparator | codes.py:199-202 | there is a second part, which `symbol_column[1]` needs, exactly when the cell contains the separator |
| Builtins.JoinSplit | codes.py:199 | joining the parts with the separator gives the cell back |
| Builtins.SplitJoin | codes.py:199 | splitting a join of separator-free parts gives the parts back |
| Builtins.SplitHead | codes.py:199-202 | the symbol is the text before the first separator; the name is the text up to the next one |
| Builtins.RemoveSpaces | codes.py:201 | no ASCII space survives `replace(" ", "")` |
| Builtins.RemoveSpacesKeepsOthers | codes.py:201 | every other character is kept as often as it occurs, and the text never grows |
| Builtins.RemoveSpacesIdentity | codes.py:201 | text without spaces is returned unchanged |
| Builtins.Strip | twse_codes/codes.py:240 | the result neither starts nor ends with whitespace, and is empty exactly when the text is all whitespace |
| Builtins.StripPadded | twse_codes/codes.py:240 | stripping whitespace padding gives back the text it surrounds |
| Builtins.InsertPlaces | codes.py:184-188 | `list.insert` adds one element at the index, or at the end when the index is past it, and shifts the rest |
| Schema.Position | twse_codes/codes.py:26-35 | each column has exactly one position in the nine-column order |
| Schema.ColumnsShort | twse_codes/codes.py:37-39 | nine distinct short keys, in declaration order |
| Schema.ColumnsLong | twse_codes/codes.py:41-43 | nine distinct display labels, parallel to the short keys |
| Schema.LowerName | twse_codes/codes.py:62-64 | the member name with every upper-case letter lowered and nothing else changed |
| Schema.LowerNamesDistinct | twse_codes/codes.py:62-64 | distinct categories have distinct lower-case names |
| Schema.CategoryNamed | twse_codes/codes.py:169-171 | a name maps to the member of that name, and to nothing when no member has it |
| Schema.CategoryNamedRoundTrip | twse_codes/codes.py:169-171 | looking a member up by its own name finds that member |
| TableParser.IndexCategoryIsIndexLabel | twse_codes/codes.py:225 | the futures category text is the value of `CodesCategory.INDEX` |
| TableParser.ListedRecord | codes.py:197-203 | a data row succeeds exactly when its first cell has a separator, else `IndexError`; the record is two cells wider and carries the current category third |
| TableParser.FuturesRecord | codes.py:183-190 | a futures row succeeds exactly when it is non-empty and its first cell has a separator; four cells wider; category "指數"; blanks at `ma` and `si` |
| TableParser.ListedInserts | codes.py:199-202 | the listed insert/assign sequence equals the closed-form record |
| TableParser.FuturesInserts | codes.py:184-189 | the futures insert/assign sequence equals the closed-form record, including short rows |
| TableParser.ToFrame | codes.py:204 | the frame is built exactly when there are no records or the widest is nine cells wide; otherwise it fails; records are padded with `None` and kept in order |
| TableParser.CrawlFromUrl | codes.py:170-204 | the crawl of one page equals its specification: status, then table, then rows, then frame |
| TableParser.CrawlListedRows | codes.py:191-203 | the listed loop with its running category yields the specified records |
| TableParser.CrawlFuturesRows | codes.py:179-190 | the futures loop yields the specified records |
| TableParser.ListedFailureSticks | codes.py:192-203 | once a row fails, later rows do not change the outcome |
| TableParser.FuturesFailureSticks | codes.py:181-190 | once a futures row fails, later rows do not change the outcome |
| TableParser.ListedRecordsInOrder | codes.py:192-203 | one record per data row, in document order, each built with the category in force before that row |
| TableParser.CategoryNullIffNoHeader | codes.py:178-195 | the category is `None` exactly when no header row has been seen |
| TableParser.CategoryFromLastHeader | codes.py:194-195 | the category is the text of the latest header row, stripped when `stripHeaders` is set as in the packaged copy |
| TableParser.RecordCategoryIsLatestHeader | codes.py:192-203 | each record's category is the latest header before its row, or `None` when there is none |
| TableParser.ListedSucceedsIff | codes.py:192-203 | parsing succeeds exactly when every row has a cell and every data row's first cell has a separator; failure is `IndexError` |
| TableParser.FuturesSucceedsIff | codes.py:181-190 | the futures page parses exactly when every row is non-empty with a separator in its first cell |
| TableParser.FuturesRecordsInOrder | codes.py:181-190 | one futures record per row, in document order |
| TableParser.WidestIsNine | codes.py:204 | the widest record is nine exactly when none is wider and one is nine |
| TableParser.ListedRecordWidths | codes.py:197-203 | each listed record is two cells wider than its row |
| TableParser.ListedFrameShape | codes.py:192-204 | a parsed listed table becomes a frame exactly when no row exceeds seven cells and some data row has seven, or there is no data row |
| TableParser.ListedCrawlOutcome | codes.py:170-204 | non-200 is `ConnectionError`, no table is `AttributeError`; otherwise success exactly when every row parses, none exceeds seven cells, and seven is reached |
| TableParser.FuturesCrawlRows | codes.py:179-190 | every futures frame row is tagged `INDEX`, keeps its raw symbol, and has empty `ma`/`si` when its row has three cells or more |
| TableParser.CrawlBuildsFrame | codes.py:170-204 | a successful crawl had status 200 and a table, and its frame is the parsed records padded |
| TableParser.DownloadAll | codes.py:51-54 | the loop over the three pages equals the ordered aggregation |
| TableParser.GatherFailureSticks | codes.py:51-54 | a failing page ends the download with its failure |
| TableParser.DownloadConcatenates | codes.py:51-54 | the download is listed, then OTC, then futures rows concatenated, or the first page's failure in that order |
| TwseCodes.ParseTarget | twse_codes/codes.py:168-171 | "ALL" selects every row, a member name selects that category, and anything else (including `None`) is refused |
| TwseCodes.Select | twse_codes/codes.py:178-185 | the `WHERE` clause keeps exactly the rows whose `ca` is the category's label, each as often as stored |
| TwseCodes.SortBySymbol | twse_codes/codes.py:185 | `ORDER BY sc` gives a sorted permutation of the rows, with nulls first |
| TwseCodes.QueryMeaning | twse_codes/codes.py:174-186 | the query is sorted, holds every matching stored row with its multiplicity, and only rows of the requested category |
| TwseCodes.QueryAllIsPermutation | twse_codes/codes.py:178-186 | "ALL" returns a sorted permutation of the whole table |
| TwseCodes.Store.Read | twse_codes/codes.py:174-186 | reading gives the query result, or `OperationalError` when the table is missing |
| TwseCodes.Store.Replace | twse_codes/codes.py:121-128 | `to_sql(if_exists="replace")` leaves exactly the new rows and reports their count |
| TwseCodes.DownloadCodes | twse_codes/codes.py:101-132 | with `find_all`: the table becomes the download, unsorted and not deduplicated; a page failure leaves the store untouched; no rows written is `ConnectionRefusedError` |
| TwseCodes.Get | twse_codes/codes.py:168-194 | with `find_all`: a bad name is `TypeError`, a missing table `OperationalError`, stored matches are returned, no matches trigger a download; never an empty result |
| TwseCodes.QueryStore | twse_codes/codes.py:168-188 | the name check comes before the store is touched; then the query result, or `OperationalError` for a missing table |
| TwseCodes.CrawlAsWritten | twse_codes/codes.py:215-227 | as written the crawl always fails: non-200 is `ConnectionError`, no table `AttributeError`, a table `TypeError` from calling `find_ALL` |
| TwseCodes.CrawlAsWrittenVersusCorrected | twse_codes/codes.py:215-238 | the as-written crawl agrees with the `find_all` crawl up to the row loop; on a page with its table it is `TypeError`, where the `find_all` crawl can only fail with `IndexError` or `ValueError` |
| TwseCodes.FindAllCounterexample | twse_codes/codes.py:237-238 | a listed page with a header and one stock: `TypeError` as written, the stock's row with `find_all` |
| TwseCodes.DownloadCodesAsWritten | twse_codes/codes.py:101-104 | as written the download always fails with the listed page's error (`TypeError` whenever it has its table), so the store is never written |
| TwseCodes.GetAsWritten | twse_codes/codes.py:168-194 | as written: stored matches are returned unchanged; a query that finds nothing ends in the listed page's crawl error; never an empty result |
| Codes.Database.VerifyDatabase | codes.py:156-167 | the schema exists afterwards exactly when it did or `create` was set; true exactly when the schema exists and any named table exists in it |
| Codes.Database.ReplaceTable | codes.py:60-66 | the named table is replaced by the frame and loses its key; other tables are untouched |
| Codes.Database.AddPrimaryKey | codes.py:67-74 | a missing table is `ProgrammingError`, an existing key `OperationalError`, a null symbol `DataError`, a repeated symbol `IntegrityError`; only on success is the table keyed |
| Codes.AlterAfterReplace | codes.py:57-74 | after writing under the default name, the key step succeeds exactly when the symbols are present and distinct; after writing under another name, an already keyed `twse` makes it fail |
| Codes.CsvFile.Write | codes.py:55-56 | reading the file afterwards gives exactly the written frame |
| Codes.CsvFile.Read | codes.py:105 | the file's frame, or `FileNotFoundError` |
| Codes.SymbolColumn | codes.py:106-107 | the `sc` column, row for row |
| Codes.Get | codes.py:99-109 | the corrected read: unreachable is `OperationalError`; a table with rows is returned whole; otherwise the CSV file, cut to symbols only when `details` is false |
| Codes.GetAsWritten | codes.py:99-109 | as written: whenever the table exists the call is a `TypeError`; otherwise the CSV file |
| Codes.AsWrittenOnlyReadsCsv | codes.py:101-105 | the as-written `get` never returns a stored table |
| Codes.GetReturnsDownload | codes.py:51-66 | after a download stored in the table, the corrected `get` returns that download, unless it had no rows |
| Codes.GetAsWrittenLosesDownload | codes.py:99-102 | after the same download, the as-written `get` fails with `TypeError` |
| Codes.ReadSqlKeywordsCounterexample | codes.py:102 | a one-row table on which the two versions of `get` differ |
| Codes.DownloadCodes | codes.py:51-77 | crawl (a failure writes nothing), CSV written iff asked, then connect, create the schema, replace the table and key `twse`; the keyed set and the result follow the key step's outcome; the frame is returned iff `output` |

## Left out

- HTTP transport, decoding and HTML parsing are left out. `requests.get` and BeautifulSoup become
  the `Response` value: its status, and the already decoded cell texts of the `h4` table's rows.
  The packaged crawl decodes the body with the charset requests takes from the response header
  (`html.text`); the root crawl hands the bytes to BeautifulSoup, which works out the encoding
  (`html.content`). A page decoded wrongly, whose cells would then hold no U+3000, is not
  modelled.
- `df.astype(str)` and `set_index("sc")` in the packaged `download_codes` are left out. The model
  keeps cells as `Option<string>`, so a `None` cell does not become the text "None". The frame is
  stored with `sc` as an ordinary column.
- TwseCodes.Store.Replace: the count `to_sql` reports is modelled as the number of rows. So with
  `find_all`, `ConnectionRefusedError` happens exactly when the download is empty, and `get` never
  reaches `FileExistsError`.
- TwseCodes.SortBySymbol: rows with equal symbols keep their stored order. SQLite does not promise
  any order among ties.
- Codes.CsvFile.Read: the CSV file holds the frame unchanged. `pd.read_csv` would turn empty and
  `None` cells into NaN, and numeric-looking symbols into numbers; that type inference is not
  modelled.
- Codes.Get: the stored table is read back in the order it was written, so GetReturnsDownload
  gives back the download row for row. A `SELECT` without `ORDER BY` promises no order, and once `sc`
  is the primary key, MariaDB's InnoDB engine returns the rows in `sc` order.
- Codes.Database.AddPrimaryKey: the `VARCHAR(20)` length of the `sc` column is not modelled, so a
  symbol longer than twenty characters is not refused. The error classes follow the MariaDB error
  codes as pymysql maps them.
- `sql_table`, `_verify_database`, `get_stocks_list`, `get_all` and `_get_stocks_details` are left
  out. They are thin wrappers or unused definitions outside the parsing and retrieval core.
- The command-line `main` functions and the `.env` loading are left out.
- The packaged `get`'s `download` parameter is left out, because the code never reads it.
- Printing is left out: the root `download_codes` prints the frame when `output` is false, and
  `verify_database` prints warnings.
- Concurrency and connection lifetimes (`with engine.connect()`) are left out. Every call is one
  sequential step.

## Findings

| source | as written | input that shows it | evidently intended | confidence | as-written member | corrected member |
|---|---|---|---|---|---|---|
| codes.py:102 | `get` passes `schema=` and `table_name=` keywords to `pd.read_sql`, whose signature has neither, so the call raises `TypeError` | a reachable server whose `mt_symbols` schema holds the table, e.g. with one row | read the whole table of the schema, as `pd.read_sql_table(table_name, conn, schema=...)` does, and fall back to the CSV file only when it is empty | high; not executed | Codes.GetAsWritten | Codes.Get |
| twse_codes/codes.py:226-238 | the packaged crawl fetches rows with `table.find_ALL("tr")`; BeautifulSoup reads the unknown attribute as a search for a child tag named `find_ALL`, gets `None`, and calling it raises `TypeError`, so every page with its table fails and `download_codes` never writes | a listed page with status 200, its `h4` table, a header row and one stock row | `find_all`, as codes.py:181 and :192 spell it: the parser of codes.py with header text stripped | high; not executed | TwseCodes.DownloadCodesAsWritten | TwseCodes.DownloadCodes |
