/** codes.py at the repository root: the earlier, MariaDB-backed version. `download_codes` crawls the
    three pages (headers left unstripped) and writes the frame to a CSV file and/or a table of the
    `mt_symbols` schema; `get` reads the table back and falls back to the CSV file. */
module Codes {
  import opened Outcomes
  import opened Schema
  import opened TableParser

  /** The schema every table of this version lives in. */
  const SchemaName: string := "mt_symbols"

  /** The table `download_codes` and `get` use unless told otherwise. */
  const DefaultTable: string := "twse"

  /** The table the `ALTER TABLE` statement names, whatever table was written. */
  const KeyedTable: string := "twse"

  /** No symbol cell of the frame is null, as `NOT NULL` needs. */
  predicate SymbolsPresent(frame: Frame) {
    forall i :: 0 <= i < |frame| ==> frame[i][Position(Symbol)].Some?
  }

  /** The symbol cells of the frame are pairwise different, as a primary key needs. */
  predicate SymbolsUnique(frame: Frame) {
    forall i, j :: 0 <= i < j < |frame| ==> frame[i][Position(Symbol)] != frame[j][Position(Symbol)]
  }

  /** What `ALTER TABLE mt_symbols.twse CHANGE COLUMN sc sc VARCHAR(20) NOT NULL, ADD PRIMARY KEY (sc)`
      gives on the named table, in the order the server meets the problems: a missing table
      (`ProgrammingError`), a table that already has a primary key (MariaDB error 1068, an
      `OperationalError`), a null symbol (`DataError` from `NOT NULL`), a repeated symbol
      (`IntegrityError` from the key). */
  function AlterOutcome(tables: map<string, Frame>, keyed: set<string>, name: string): Result<()> {
    if name !in tables then Err(ProgrammingError)
    else if name in keyed then Err(OperationalError)
    else if !SymbolsPresent(tables[name]) then Err(DataError)
    else if !SymbolsUnique(tables[name]) then Err(IntegrityError)
    else Ok(())
  }

  /** The key step after `to_sql` has replaced a table: under the default name the fresh table gets
      its key exactly when its symbols are present and different; under any other name the `twse`
      table is untouched by the write, and if it already has its key, the step fails. */
  lemma AlterAfterReplace(tables: map<string, Frame>, keyed: set<string>, tableName: string, df: Frame)
    requires keyed <= tables.Keys
    ensures tableName == KeyedTable ==>
      (AlterOutcome(tables[tableName := df], keyed - {tableName}, KeyedTable).Ok? <==>
        SymbolsPresent(df) && SymbolsUnique(df))
    ensures tableName != KeyedTable && KeyedTable in keyed ==>
      AlterOutcome(tables[tableName := df], keyed - {tableName}, KeyedTable) == Err(OperationalError)
  {
  }

  /** The MariaDB server behind `engine`, as far as the `mt_symbols` schema is concerned. */
  class Database {
    var reachable: bool
    var schemaExists: bool
    var tables: map<string, Frame>
    /** The tables whose `sc` column is the primary key. */
    var keyed: set<string>

    ghost predicate Valid()
      reads this
    {
      (!schemaExists ==> tables == map[]) && keyed <= tables.Keys &&
      forall name :: name in keyed ==> SymbolsPresent(tables[name]) && SymbolsUnique(tables[name])
    }

    constructor (reachable: bool, schemaExists: bool, tables: map<string, Frame>)
      requires !schemaExists ==> tables == map[]
      ensures Valid()
      ensures this.reachable == reachable && this.schemaExists == schemaExists && this.tables == tables
      ensures keyed == {}
    {
      this.reachable, this.schemaExists, this.tables := reachable, schemaExists, tables;
      keyed := {};
    }

    /** `verify_database(conn, table_name, create)`: a missing schema is created when `create` is
        set and reported otherwise; a named table must exist in the schema. */
    method VerifyDatabase(tableName: Option<string>, create: bool) returns (ok: bool)
      requires Valid() && reachable
      modifies this
      ensures Valid() && reachable && tables == old(tables) && keyed == old(keyed)
      ensures schemaExists == (old(schemaExists) || create)
      ensures ok == ((old(schemaExists) || create) && (tableName.None? || tableName.value in tables))
      ensures !create ==> unchanged(this)
    {
      if !schemaExists {
        if !create {
          return false;
        }
        schemaExists := true;
      }
      if tableName.Some? && tableName.value !in tables {
        return false;
      }
      return true;
    }

    /** `df.to_sql(name, conn, schema="mt_symbols", index=False, if_exists="replace")`: the table is
        dropped and recreated with the frame's rows, without a key. */
    method ReplaceTable(name: string, frame: Frame)
      requires Valid() && reachable && schemaExists
      modifies this
      ensures Valid() && reachable && schemaExists
      ensures tables == old(tables)[name := frame]
      ensures keyed == old(keyed) - {name}
    {
      tables := tables[name := frame];
      keyed := keyed - {name};
    }

    /** The `ALTER TABLE` statement that makes `sc` the primary key of the named table: the rows stay
        as they are, and the table is keyed afterwards exactly when the statement succeeds. */
    method AddPrimaryKey(name: string) returns (r: Result<()>)
      requires Valid() && reachable && schemaExists
      modifies this
      ensures Valid() && reachable && schemaExists && tables == old(tables)
      ensures r == AlterOutcome(tables, old(keyed), name)
      ensures keyed == if r.Ok? then old(keyed) + {name} else old(keyed)
    {
      if name !in tables {
        return Err(ProgrammingError);
      }
      if name in keyed {
        return Err(OperationalError);
      }
      if !SymbolsPresent(tables[name]) {
        return Err(DataError);
      }
      if !SymbolsUnique(tables[name]) {
        return Err(IntegrityError);
      }
      keyed := keyed + {name};
      return Ok(());
    }
  }

  /** The CSV file at `file_path`, holding a frame written by `to_csv`. */
  class CsvFile {
    var present: bool
    var rows: Frame

    constructor (present: bool, rows: Frame)
      ensures this.present == present && this.rows == rows
    {
      this.present, this.rows := present, rows;
    }

    /** What reading the file gives: its frame, or `FileNotFoundError` when it is missing. */
    function Contents(): Result<Frame>
      reads this
    {
      if present then Ok(rows) else Err(FileNotFoundError)
    }

    /** `df.to_csv(file_path, index=False)`. */
    method Write(frame: Frame)
      modifies this
      ensures Contents() == Ok(frame)
    {
      present, rows := true, frame;
    }

    /** `pd.read_csv(file_path)`. */
    method Read() returns (r: Result<Frame>)
      ensures r == Contents()
    {
      if !present {
        return Err(FileNotFoundError);
      }
      return Ok(rows);
    }
  }

  /** What `get` returns: the whole frame, or only its symbol column. */
  datatype Codes = Table(rows: Frame) | Symbols(symbols: seq<Cell>)

  /** `codes["sc"]`: the symbol column, row for row. */
  function SymbolColumn(frame: Frame): (symbols: seq<Cell>)
    ensures |symbols| == |frame|
    ensures forall i :: 0 <= i < |frame| ==> symbols[i] == frame[i][Position(Symbol)]
  {
    seq(|frame|, i requires 0 <= i < |frame| => frame[i][Position(Symbol)])
  }

  /** What `get` returns when it falls back to the CSV file. */
  function FromCsv(csv: Result<Frame>, details: bool): Result<Codes> {
    match csv
    case Err(e) => Err(e)
    case Ok(frame) => if details then Ok(Table(frame)) else Ok(Symbols(SymbolColumn(frame)))
  }

  /** What `get(file_path, details, table_name)` returns once the table is read as the code evidently
      means it to be (the whole table of the `mt_symbols` schema): an unreachable server is an
      `OperationalError` that nothing catches; a missing schema or table, or an empty one, sends the
      call to the CSV file, and only there does `details=False` cut the frame down to its symbols. */
  function Lookup(reachable: bool, schemaExists: bool, tables: map<string, Frame>, tableName: string,
                  csv: Result<Frame>, details: bool): Result<Codes>
  {
    if !reachable then Err(OperationalError)
    else if schemaExists && tableName in tables && tables[tableName] != [] then Ok(Table(tables[tableName]))
    else FromCsv(csv, details)
  }

  /** What `get` returns as written: the read passes `schema=` and `table_name=` to `pd.read_sql`,
      which accepts neither, so every call that finds the table fails with a `TypeError`. */
  function LookupAsWritten(reachable: bool, schemaExists: bool, tables: map<string, Frame>, tableName: string,
                           csv: Result<Frame>, details: bool): Result<Codes>
  {
    if !reachable then Err(OperationalError)
    else if schemaExists && tableName in tables then Err(TypeError)
    else FromCsv(csv, details)
  }

  /** `get`, with the corrected read. */
  method Get(db: Database, csv: CsvFile, tableName: string, details: bool) returns (r: Result<Codes>)
    requires db.Valid()
    modifies db
    ensures unchanged(db)
    ensures r == Lookup(db.reachable, db.schemaExists, db.tables, tableName, csv.Contents(), details)
  {
    if !db.reachable {
      return Err(OperationalError);
    }
    var codes: Option<Frame> := None;
    var verified := db.VerifyDatabase(Some(tableName), false);
    if verified {
      codes := Some(db.tables[tableName]);
    }
    if codes.None? || codes.value == [] {
      var read := csv.Read();
      return FromCsv(read, details);
    }
    return Ok(Table(codes.value));
  }

  /** `get` as written. */
  method GetAsWritten(db: Database, csv: CsvFile, tableName: string, details: bool) returns (r: Result<Codes>)
    requires db.Valid()
    modifies db
    ensures unchanged(db)
    ensures r == LookupAsWritten(db.reachable, db.schemaExists, db.tables, tableName, csv.Contents(), details)
  {
    if !db.reachable {
      return Err(OperationalError);
    }
    var verified := db.VerifyDatabase(Some(tableName), false);
    if verified {
      return Err(TypeError);
    }
    var read := csv.Read();
    return FromCsv(read, details);
  }

  /** Whatever the as-written `get` returns successfully comes from the CSV file: it never hands back
      a stored table. */
  lemma AsWrittenOnlyReadsCsv(reachable: bool, schemaExists: bool, tables: map<string, Frame>, tableName: string,
                              csv: Result<Frame>, details: bool)
    ensures LookupAsWritten(reachable, schemaExists, tables, tableName, csv, details).Ok? ==>
      LookupAsWritten(reachable, schemaExists, tables, tableName, csv, details) == FromCsv(csv, details) &&
      !(schemaExists && tableName in tables)
  {
  }

  /** A download stored in the table is what `get` then returns, whatever the CSV file holds, as long
      as the crawl found rows; with no rows, `get` serves the CSV file instead. */
  lemma GetReturnsDownload(web: Web, tables: map<string, Frame>, tableName: string, csv: Result<Frame>, details: bool)
    requires Gather(SourceOrder, web, false).Ok?
    ensures var df := Gather(SourceOrder, web, false).value;
      Lookup(true, true, tables[tableName := df], tableName, csv, details) ==
        if df != [] then Ok(Table(df)) else FromCsv(csv, details)
  {
  }

  /** The same sequence breaks as written: once `download_codes(to_sql=True)` has created the table,
      `get` fails with a `TypeError` on every later call, rows or no rows. */
  lemma GetAsWrittenLosesDownload(web: Web, tables: map<string, Frame>, tableName: string, csv: Result<Frame>, details: bool)
    requires Gather(SourceOrder, web, false).Ok?
    ensures var df := Gather(SourceOrder, web, false).value;
      LookupAsWritten(true, true, tables[tableName := df], tableName, csv, details) == Err(TypeError)
  {
  }

  /** One concrete input on which the two versions part ways: a stored one-row table. */
  lemma ReadSqlKeywordsCounterexample(row: Row)
    ensures var tables := map[DefaultTable := [row]];
      LookupAsWritten(true, true, tables, DefaultTable, Err(FileNotFoundError), true) == Err(TypeError) &&
      Lookup(true, true, tables, DefaultTable, Err(FileNotFoundError), true) == Ok(Table([row]))
  {
  }

  /** `download_codes(to_csv, to_sql, file_path, output, table_name)`: crawls the three pages in order
      (a failing page stops everything before any write); writes the CSV file when asked; when asked
      for SQL, connects (an unreachable server fails after the CSV write), creates the schema if
      needed, replaces the table, and puts the primary key on `twse`; returns the frame only when
      `output` is set. */
  method DownloadCodes(db: Database, csv: CsvFile, web: Web, toCsv: bool, toSql: bool, output: bool,
                       tableName: string) returns (r: Result<Option<Frame>>)
    requires db.Valid()
    modifies db, csv
    ensures db.Valid()
    ensures Gather(SourceOrder, web, false).Err? ==>
      r == Err(Gather(SourceOrder, web, false).error) && unchanged(db) && unchanged(csv)
    ensures Gather(SourceOrder, web, false).Ok? ==>
      var df := Gather(SourceOrder, web, false).value;
      (if toCsv then csv.Contents() == Ok(df) else unchanged(csv)) &&
      (!toSql ==> unchanged(db) && r == Ok(if output then Some(df) else None)) &&
      (toSql && !old(db.reachable) ==> unchanged(db) && r == Err(OperationalError)) &&
      (toSql && old(db.reachable) ==>
        var tables, keyed := old(db.tables)[tableName := df], old(db.keyed) - {tableName};
        var altered := AlterOutcome(tables, keyed, KeyedTable);
        db.reachable && db.schemaExists && db.tables == tables &&
        db.keyed == (if altered.Ok? then keyed + {KeyedTable} else keyed) &&
        r == (if altered.Err? then Err(altered.error) else Ok(if output then Some(df) else None)))
  {
    var df := DownloadAll(web, false);
    if df.Err? {
      return Err(df.error);
    }
    if toCsv {
      csv.Write(df.value);
    }
    if toSql {
      if !db.reachable {
        return Err(OperationalError);
      }
      var _ := db.VerifyDatabase(None, true);
      db.ReplaceTable(tableName, df.value);
      var altered := db.AddPrimaryKey(KeyedTable);
      if altered.Err? {
        return Err(altered.error);
      }
    }
    if output {
      return Ok(Some(df.value));
    }
    return Ok(None);
  }
}
