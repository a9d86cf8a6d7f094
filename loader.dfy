/**
 * The loader of loader.go: `convertValue`, the row shaping and BOM strip of `loadCSV`, and the
 * file selection of `loadAllCSVs`. CSV tokenising and number parsing are parameters.
 */
module Loader {
  import opened Wrappers
  import opened Strings
  import opened Schema
  import opened Rows
  import opened Database

  /** `strconv.ParseFloat(s, 64)`: a number, or a failure. */
  type FloatParser = string -> Option<real>

  /**
   * What `encoding/csv` reads from a stream: the records before the first error, and whether
   * an error (rather than the end of the stream) stopped it.
   */
  datatype CsvRead = CsvRead(records: seq<Record>, failed: bool)

  type CsvReader = seq<byte> -> CsvRead

  // Values

  /**
   * `convertValue`: an empty field of a nullable column is NULL; a non-empty field of a REAL
   * column is its number when it parses; every other field is kept as its text.
   */
  function ConvertValue(val: string, col: ColumnDef, parseFloat: FloatParser): (v: Value)
    ensures v == Null <==> val == "" && col.nullable
    ensures v.Num? <==> val != "" && col.dataType == "REAL" && parseFloat(val).Some?
    ensures v.Num? ==> parseFloat(val) == Some(v.r)
    ensures v.Str? ==> v.s == val
  {
    if val == "" && col.nullable then Null
    else if col.dataType == "REAL" && val != "" then
      match parseFloat(val)
      case Some(f) => Num(f)
      case None => Str(val)
    else Str(val)
  }

  // Rows

  /** The values bound for one record: one per schema column, NULL past the record's end. */
  function ShapedRow(rec: Record, cols: seq<ColumnDef>, parseFloat: FloatParser): seq<Value> {
    seq(|cols|, i requires 0 <= i < |cols| => if i < |rec| then ConvertValue(rec[i], cols[i], parseFloat) else Null)
  }

  /** The per-record loop of `loadCSV`, filling a buffer of the schema's width. */
  method BuildRow(rec: Record, cols: seq<ColumnDef>, parseFloat: FloatParser) returns (vals: seq<Value>)
    ensures |vals| == |cols|
    ensures forall i | 0 <= i < |cols| ::
      vals[i] == if i < |rec| then ConvertValue(rec[i], cols[i], parseFloat) else Null
    ensures vals == ShapedRow(rec, cols, parseFloat)
  {
    var buf := new Value[|cols|];
    for i := 0 to |cols|
      invariant forall j | 0 <= j < i :: buf[j] == if j < |rec| then ConvertValue(rec[j], cols[j], parseFloat) else Null
    {
      if i < |rec| {
        buf[i] := ConvertValue(rec[i], cols[i], parseFloat);
      } else {
        buf[i] := Null;
      }
    }
    vals := buf[..];
  }

  /** Fields past the schema's width are ignored. */
  lemma ShapedRowIgnoresExtra(rec: Record, extra: Record, cols: seq<ColumnDef>, parseFloat: FloatParser)
    requires |rec| >= |cols|
    ensures ShapedRow(rec + extra, cols, parseFloat) == ShapedRow(rec, cols, parseFloat)
  {
    var a, b := ShapedRow(rec + extra, cols, parseFloat), ShapedRow(rec, cols, parseFloat);
    forall i | 0 <= i < |cols| ensures a[i] == b[i] {
      assert (rec + extra)[i] == rec[i];
    }
  }

  /** A bound value is NULL exactly when the field is missing, or empty in a nullable column. */
  lemma ShapedRowNulls(rec: Record, cols: seq<ColumnDef>, parseFloat: FloatParser, i: int)
    requires 0 <= i < |cols|
    ensures ShapedRow(rec, cols, parseFloat)[i] == Null <==> i >= |rec| || (rec[i] == "" && cols[i].nullable)
  {
  }

  /**
   * A record too short for a NOT NULL column is padded with NULL there, so its `INSERT` fails
   * and the load of that file stops.
   */
  lemma PaddedNullRejected(defs: map<string, TableDef>, rows: map<string, seq<Row>>, indexes: set<Index>,
                           t: string, rec: Record, parseFloat: FloatParser, j: int)
    requires t in defs && t in rows
    requires |rec| <= j < |defs[t].columns| && !defs[t].columns[j].nullable
    ensures InsertOutcome(defs, rows, indexes, t, ShapedRow(rec, defs[t].columns, parseFloat)) == Err(NotNullFailed(t))
  {
    var vals := ShapedRow(rec, defs[t].columns, parseFloat);
    assert vals[j] == Null;
  }

  // The insert statement

  /** `INSERT INTO "<name>" VALUES (?, ?, ...)` with one placeholder per column. */
  function InsertStatement(name: string, placeholders: seq<string>): string {
    "INSERT INTO \"" + name + "\" VALUES (" + Join(placeholders, ", ") + ")"
  }

  /** The statement `loadCSV` prepares, its placeholder list filled in a loop. */
  method InsertQuery(s: TableSchema) returns (q: string)
    ensures q == InsertStatement(s.name, seq(|s.columns|, _ => "?"))
  {
    var placeholders := new string[|s.columns|];
    for i := 0 to |s.columns|
      invariant forall j | 0 <= j < i :: placeholders[j] == "?"
    {
      placeholders[i] := "?";
    }
    assert placeholders[..] == seq(|s.columns|, _ => "?");
    q := InsertStatement(s.name, placeholders[..]);
  }

  /** The statement has exactly one `?` per column, for a table name with none. */
  lemma InsertQueryPlaceholders(name: string, n: nat)
    requires '?' !in name
    ensures Count(InsertStatement(name, seq(n, _ => "?")), '?') == n
  {
    JoinedPlaceholders(n);
    CountFive("INSERT INTO \"", name, "\" VALUES (", Join(seq(n, _ => "?"), ", "), ")", '?');
  }

  lemma CountFive(a: string, b: string, c: string, d: string, e: string, x: char)
    ensures Count(a + b + c + d + e, x) == Count(a, x) + Count(b, x) + Count(c, x) + Count(d, x) + Count(e, x)
  {
    CountAppend(a, b, x);
    CountAppend(a + b, c, x);
    CountAppend(a + b + c, d, x);
    CountAppend(a + b + c + d, e, x);
  }

  lemma {:induction false} JoinedPlaceholders(n: nat)
    ensures Count(Join(seq(n, _ => "?"), ", "), '?') == n
  {
    var xs: seq<string> := seq(n, _ => "?");
    if n >= 2 {
      JoinedPlaceholders(n - 1);
      assert xs[1..] == seq(n - 1, _ => "?");
      CountAppend("?", ", ", '?');
      CountAppend("?" + ", ", Join(xs[1..], ", "), '?');
    } else if n == 1 {
      assert Join(xs, ", ") == "?";
    }
  }

  // The byte-order mark

  const BOM: seq<byte> := [0xEF, 0xBB, 0xBF]

  predicate StartsWithBOM(data: seq<byte>) {
    |data| >= 3 && data[..3] == BOM
  }

  /** The stream after the check that peeks at its first three bytes. */
  function StripBOM(data: seq<byte>): seq<byte> {
    if StartsWithBOM(data) then data[3..] else data
  }

  /** Only a leading EF BB BF is removed, and only one of them; any other start is kept. */
  lemma StripBOMMeaning(data: seq<byte>)
    ensures StartsWithBOM(data) ==> BOM + StripBOM(data) == data
    ensures !StartsWithBOM(data) ==> StripBOM(data) == data
    ensures StartsWithBOM(data) ==> StripBOM(BOM + data) == data
  {
    if StartsWithBOM(data) {
      assert data == data[..3] + data[3..];
      assert (BOM + data)[..3] == BOM;
      assert (BOM + data)[3..] == data;
    }
  }

  // Loading one file

  datatype LoadError =
    | PrepareFailed(table: string)
    | ReadFailed(table: string)
    | InsertFailed(table: string, cause: DbError)

  /** The tables after inserting the shaped `recs` into `t` one by one, or the first failure. */
  function InsertRecords(defs: map<string, TableDef>, rows: map<string, seq<Row>>, indexes: set<Index>,
                         t: string, cols: seq<ColumnDef>, recs: seq<Record>, parseFloat: FloatParser)
    : Result<map<string, seq<Row>>, DbError>
    decreases |recs|
  {
    if recs == [] then Ok(rows)
    else
      match InsertRecords(defs, rows, indexes, t, cols, recs[..|recs| - 1], parseFloat)
      case Err(e) => Err(e)
      case Ok(m) =>
        match InsertOutcome(defs, m, indexes, t, ShapedRow(recs[|recs| - 1], cols, parseFloat))
        case Err(e) => Err(e)
        case Ok(rs) => Ok(m[t := rs])
  }

  /**
   * What `loadCSV` leaves: the statement needs the table at the schema's width; the header must
   * read; each later record is inserted; any failure rolls the table back.
   */
  function LoadOutcome(defs: map<string, TableDef>, rows: map<string, seq<Row>>, indexes: set<Index>,
                       s: TableSchema, data: seq<byte>, readCsv: CsvReader, parseFloat: FloatParser)
    : Result<map<string, seq<Row>>, LoadError>
  {
    if s.name !in defs || |defs[s.name].columns| != |s.columns| then Err(PrepareFailed(s.name))
    else
      var read := readCsv(StripBOM(data));
      if read.records == [] then Err(ReadFailed(s.name))
      else match InsertRecords(defs, rows, indexes, s.name, s.columns, read.records[1..], parseFloat)
        case Err(e) => Err(InsertFailed(s.name, e))
        case Ok(m) => if read.failed then Err(ReadFailed(s.name)) else Ok(m)
  }

  /** Once an insert fails, the records after it change nothing. */
  lemma {:induction false} InsertRecordsFailurePersists(defs: map<string, TableDef>, rows: map<string, seq<Row>>, indexes: set<Index>,
                                                        t: string, cols: seq<ColumnDef>, recs: seq<Record>,
                                                        parseFloat: FloatParser, k: nat)
    requires k <= |recs|
    requires InsertRecords(defs, rows, indexes, t, cols, recs[..k], parseFloat).Err?
    ensures InsertRecords(defs, rows, indexes, t, cols, recs, parseFloat) == InsertRecords(defs, rows, indexes, t, cols, recs[..k], parseFloat)
    decreases |recs|
  {
    if k < |recs| {
      var init := recs[..|recs| - 1];
      assert init[..k] == recs[..k];
      InsertRecordsFailurePersists(defs, rows, indexes, t, cols, init, parseFloat, k);
    } else {
      assert recs[..k] == recs;
    }
  }

  /**
   * A successful run appends one row per record, holding that record's shaped values, and
   * changes no other table.
   */
  lemma {:induction false} InsertRecordsAppend(defs: map<string, TableDef>, rows: map<string, seq<Row>>, indexes: set<Index>,
                                               t: string, cols: seq<ColumnDef>, recs: seq<Record>, parseFloat: FloatParser)
    requires t in rows
    requires InsertRecords(defs, rows, indexes, t, cols, recs, parseFloat).Ok?
    ensures var m := InsertRecords(defs, rows, indexes, t, cols, recs, parseFloat).value;
      && m.Keys == rows.Keys
      && (forall u | u in rows && u != t :: m[u] == rows[u])
      && |m[t]| == |rows[t]| + |recs|
      && m[t][..|rows[t]|] == rows[t]
      && forall i | 0 <= i < |recs| :: m[t][|rows[t]| + i].vals == ShapedRow(recs[i], cols, parseFloat)
    decreases |recs|
  {
    if recs != [] {
      var init := recs[..|recs| - 1];
      InsertRecordsAppend(defs, rows, indexes, t, cols, init, parseFloat);
      var m0 := InsertRecords(defs, rows, indexes, t, cols, init, parseFloat).value;
      var m := InsertRecords(defs, rows, indexes, t, cols, recs, parseFloat).value;
      var last := recs[|recs| - 1];
      assert m[t] == m0[t] + [Row(NextRowid(m0[t]), ShapedRow(last, cols, parseFloat))];
      assert m[t][..|m0[t]|] == m0[t];
      forall i | 0 <= i < |recs| ensures m[t][|rows[t]| + i].vals == ShapedRow(recs[i], cols, parseFloat) {
        if i < |init| {
          assert m[t][|rows[t]| + i] == m0[t][|rows[t]| + i];
          assert init[i] == recs[i];
        }
      }
    }
  }

  /** `loadCSV`: one transaction over the file's records, rolled back on any failure. */
  method LoadCSV(db: Db, s: TableSchema, data: seq<byte>, readCsv: CsvReader, parseFloat: FloatParser)
    returns (r: Outcome<LoadError>)
    requires db.Valid()
    modifies db
    ensures db.Valid() && db.defs == old(db.defs) && db.indexes == old(db.indexes)
    ensures match LoadOutcome(old(db.defs), old(db.rows), old(db.indexes), s, data, readCsv, parseFloat)
      case Ok(m) => r == Pass && db.rows == m
      case Err(e) => r == Fail(e) && db.rows == old(db.rows)
  {
    if s.name !in db.defs || |db.defs[s.name].columns| != |s.columns| {
      return Fail(PrepareFailed(s.name));
    }
    var stream := StripBOM(data);
    var read := readCsv(stream);
    if read.records == [] {
      return Fail(ReadFailed(s.name));
    }
    var recs := read.records[1..];
    var saved := db.rows;
    var k := 0;
    while k < |recs|
      invariant 0 <= k <= |recs|
      invariant db.Valid() && db.defs == old(db.defs) && db.indexes == old(db.indexes)
      invariant ValidState(db.defs, saved, db.indexes)
      invariant InsertRecords(db.defs, saved, db.indexes, s.name, s.columns, recs[..k], parseFloat) == Ok(db.rows)
    {
      var vals := BuildRow(recs[k], s.columns, parseFloat);
      assert recs[..k + 1][..k] == recs[..k];
      var res := db.Insert(s.name, vals);
      if res.Fail? {
        InsertRecordsFailurePersists(db.defs, saved, db.indexes, s.name, s.columns, recs, parseFloat, k + 1);
        db.Rollback(saved);
        return Fail(InsertFailed(s.name, res.error));
      }
      k := k + 1;
    }
    assert recs[..k] == recs;
    if read.failed {
      db.Rollback(saved);
      return Fail(ReadFailed(s.name));
    }
    r := Pass;
  }

  // Loading the archive

  /** A file of the inner archive: its path and its bytes. */
  datatype ArchiveFile = ArchiveFile(name: string, data: seq<byte>)

  /** The part of a path after its last `/`. */
  function BaseName(path: string): string {
    match LastIndexOf(path, '/')
    case Some(i) => path[i + 1..]
    case None => path
  }

  /**
   * The table a file of the archive loads into: a `.csv` file that is not a structure file,
   * named by its base name without `.csv`, and only when a schema of that name exists.
   */
  function TableNameFor(path: string, tables: Schemas): Option<string> {
    if !HasSuffix(path, ".csv") || IsStructureFile(path) then None
    else
      var t := TrimSuffix(BaseName(path), ".csv");
      if t in tables then Some(t) else None
  }

  /** A file is loaded exactly when the three conditions hold, into the table its base name names. */
  lemma TableNameForMeaning(path: string, tables: Schemas)
    ensures TableNameFor(path, tables).Some? <==>
      HasSuffix(path, ".csv") && !IsStructureFile(path) && TrimSuffix(BaseName(path), ".csv") in tables
    ensures TableNameFor(path, tables).Some? ==>
      var t := TableNameFor(path, tables).value;
      && t in tables && '/' !in t && BaseName(path) == t + ".csv"
  {
    if HasSuffix(path, ".csv") {
      var b := BaseName(path);
      match LastIndexOf(path, '/')
      case Some(i) =>
        assert path[i] == '/';
        assert b == path[i + 1..];
        assert i < |path| - 4 by {
          assert path[|path| - 4..] == ".csv";
        }
        assert b[|b| - 4..] == path[|path| - 4..];
      case None =>
    }
  }

  datatype LoadAllError = LoadFailed(table: string, cause: LoadError)

  /** The tables after `loadAllCSVs` has gone through the files, and the error that stopped it. */
  datatype LoadState = LoadState(rows: map<string, seq<Row>>, error: Option<LoadAllError>)

  /** One file of the archive: skipped unless it names a schema, otherwise loaded into its table. */
  function LoadStep(defs: map<string, TableDef>, rows: map<string, seq<Row>>, indexes: set<Index>,
                    f: ArchiveFile, tables: Schemas, readCsv: CsvReader, parseFloat: FloatParser): LoadState
  {
    match TableNameFor(f.name, tables)
    case None => LoadState(rows, None)
    case Some(t) =>
      match LoadOutcome(defs, rows, indexes, tables[t], f.data, readCsv, parseFloat)
      case Err(e) => LoadState(rows, Some(LoadFailed(t, e)))
      case Ok(m) => LoadState(m, None)
  }

  /**
   * `loadAllCSVs` over the files in archive order: each file is loaded by `LoadStep`; the
   * first failing file stops the run, keeping what the files before it loaded.
   */
  function LoadAllOutcome(defs: map<string, TableDef>, rows: map<string, seq<Row>>, indexes: set<Index>,
                          files: seq<ArchiveFile>, tables: Schemas, readCsv: CsvReader, parseFloat: FloatParser): LoadState
    decreases |files|
  {
    if files == [] then LoadState(rows, None)
    else
      var st := LoadAllOutcome(defs, rows, indexes, files[..|files| - 1], tables, readCsv, parseFloat);
      if st.error.Some? then st
      else LoadStep(defs, st.rows, indexes, files[|files| - 1], tables, readCsv, parseFloat)
  }

  /** The files of `files` that load into table `t`. */
  ghost predicate LoadsInto(files: seq<ArchiveFile>, tables: Schemas, t: string) {
    exists i | 0 <= i < |files| :: TableNameFor(files[i].name, tables) == Some(t) && tables[t].name == t
  }

  /**
   * Loading keeps the set of tables, and a table that no file loads into comes through
   * unchanged: a file only ever writes to the table its schema names.
   */
  lemma {:induction false} LoadAllTouchesOnlyLoaded(defs: map<string, TableDef>, rows: map<string, seq<Row>>, indexes: set<Index>,
                                                    files: seq<ArchiveFile>, tables: Schemas, readCsv: CsvReader,
                                                    parseFloat: FloatParser, u: string)
    requires rows.Keys == defs.Keys
    requires WellKeyed(tables)
    requires u in rows && !LoadsInto(files, tables, u)
    ensures LoadAllOutcome(defs, rows, indexes, files, tables, readCsv, parseFloat).rows.Keys == rows.Keys
    ensures LoadAllOutcome(defs, rows, indexes, files, tables, readCsv, parseFloat).rows[u] == rows[u]
    decreases |files|
  {
    if files != [] {
      var init := files[..|files| - 1];
      assert !LoadsInto(init, tables, u) by {
        forall i | 0 <= i < |init| ensures !(TableNameFor(init[i].name, tables) == Some(u) && tables[u].name == u) {
          assert init[i] == files[i];
        }
      }
      LoadAllTouchesOnlyLoaded(defs, rows, indexes, init, tables, readCsv, parseFloat, u);
      var st := LoadAllOutcome(defs, rows, indexes, init, tables, readCsv, parseFloat);
      var f := files[|files| - 1];
      if st.error.None? && TableNameFor(f.name, tables).Some? {
        var t := TableNameFor(f.name, tables).value;
        assert tables[t].name == t;
        assert t != u;
        var lo := LoadOutcome(defs, st.rows, indexes, tables[t], f.data, readCsv, parseFloat);
        if lo.Ok? {
          var read := readCsv(StripBOM(f.data));
          InsertRecordsAppend(defs, st.rows, indexes, t, tables[t].columns, read.records[1..], parseFloat);
        }
      }
    }
  }

  /** The loop body of `loadAllCSVs`: the name filter, then `loadCSV` for a file that passes it. */
  method LoadFile(db: Db, f: ArchiveFile, tables: Schemas, readCsv: CsvReader, parseFloat: FloatParser)
    returns (r: Outcome<LoadAllError>)
    requires db.Valid()
    modifies db
    ensures db.Valid() && db.defs == old(db.defs) && db.indexes == old(db.indexes)
    ensures var st := LoadStep(old(db.defs), old(db.rows), old(db.indexes), f, tables, readCsv, parseFloat);
      && db.rows == st.rows
      && (st.error.None? ==> r == Pass)
      && (st.error.Some? ==> r == Fail(st.error.value))
  {
    var t := TableNameFor(f.name, tables);
    if t.None? {
      return Pass;
    }
    var res := LoadCSV(db, tables[t.value], f.data, readCsv, parseFloat);
    if res.Fail? {
      return Fail(LoadFailed(t.value, res.error));
    }
    r := Pass;
  }

  /** `loadAllCSVs`: the files in archive order, stopping at the first that fails to load. */
  method LoadAllCSVs(db: Db, files: seq<ArchiveFile>, tables: Schemas, readCsv: CsvReader, parseFloat: FloatParser)
    returns (r: Outcome<LoadAllError>)
    requires db.Valid()
    modifies db
    ensures db.Valid() && db.defs == old(db.defs) && db.indexes == old(db.indexes)
    ensures var st := LoadAllOutcome(old(db.defs), old(db.rows), old(db.indexes), files, tables, readCsv, parseFloat);
      && db.rows == st.rows
      && (st.error.None? ==> r == Pass)
      && (st.error.Some? ==> r == Fail(st.error.value))
  {
    ghost var defs, rows, indexes := db.defs, db.rows, db.indexes;
    var i := 0;
    while i < |files|
      invariant 0 <= i <= |files|
      invariant db.Valid() && db.defs == defs && db.indexes == indexes
      invariant LoadAllOutcome(defs, rows, indexes, files[..i], tables, readCsv, parseFloat) == LoadState(db.rows, None)
    {
      LoadAllNext(defs, rows, indexes, files, tables, readCsv, parseFloat, i, db.rows);
      r := LoadFile(db, files[i], tables, readCsv, parseFloat);
      if r.Fail? {
        LoadAllFailurePersists(defs, rows, indexes, files, tables, readCsv, parseFloat, i + 1);
        return;
      }
      i := i + 1;
    }
    assert files[..i] == files;
    r := Pass;
  }

  /** One more file, after files that all loaded. */
  lemma LoadAllNext(defs: map<string, TableDef>, rows: map<string, seq<Row>>, indexes: set<Index>,
                    files: seq<ArchiveFile>, tables: Schemas, readCsv: CsvReader, parseFloat: FloatParser,
                    i: nat, cur: map<string, seq<Row>>)
    requires i < |files|
    requires LoadAllOutcome(defs, rows, indexes, files[..i], tables, readCsv, parseFloat) == LoadState(cur, None)
    ensures LoadAllOutcome(defs, rows, indexes, files[..i + 1], tables, readCsv, parseFloat)
         == LoadStep(defs, cur, indexes, files[i], tables, readCsv, parseFloat)
  {
    assert files[..i + 1][..i] == files[..i];
  }

  /** Once a file fails, the files after it are not read. */
  lemma {:induction false} LoadAllFailurePersists(defs: map<string, TableDef>, rows: map<string, seq<Row>>, indexes: set<Index>,
                                                  files: seq<ArchiveFile>, tables: Schemas, readCsv: CsvReader,
                                                  parseFloat: FloatParser, k: nat)
    requires k <= |files|
    requires LoadAllOutcome(defs, rows, indexes, files[..k], tables, readCsv, parseFloat).error.Some?
    ensures LoadAllOutcome(defs, rows, indexes, files, tables, readCsv, parseFloat)
         == LoadAllOutcome(defs, rows, indexes, files[..k], tables, readCsv, parseFloat)
    decreases |files|
  {
    if k < |files| {
      var init := files[..|files| - 1];
      assert init[..k] == files[..k];
      LoadAllFailurePersists(defs, rows, indexes, init, tables, readCsv, parseFloat, k);
    } else {
      assert files[..k] == files;
    }
  }
}
