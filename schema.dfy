/**
 * The schema builder of schema.go: the `*_CSV_DATA_STRUCTURE.csv` metadata records of an
 * archive are folded into one ordered column list per table, a fixed set of sentinel columns
 * is then forced nullable, and bare carriage returns are rewritten before CSV parsing.
 *
 * The archive is given as its entries in order, each already split into CSV records.
 */
module Schema {
  import opened Wrappers
  import opened Strings

  type Record = seq<string>

  /** One entry of the archive: its path and its CSV records, header included. */
  datatype ArchiveEntry = ArchiveEntry(name: string, records: seq<Record>)

  datatype ColumnDef = ColumnDef(name: string, dataType: string, nullable: bool)

  datatype TableSchema = TableSchema(name: string, columns: seq<ColumnDef>)

  type Schemas = map<string, TableSchema>

  datatype SchemaError = MissingHeader(file: string)

  const StructureSuffix := "_CSV_DATA_STRUCTURE.csv"

  predicate IsStructureFile(name: string) {
    HasSuffix(name, StructureSuffix)
  }

  /** A metadata record names a table, a column, a length, a type and a nullability flag. */
  predicate DescribesColumn(rec: Record) {
    |rec| >= 5
  }

  /** The SQLite type for a metadata type token. */
  function SqlType(token: string): (t: string)
    ensures token == "VARCHAR" ==> t == "TEXT"
    ensures token == "NUMBER" ==> t == "REAL"
    ensures token != "VARCHAR" && token != "NUMBER" ==> t == token
  {
    if token == "VARCHAR" then "TEXT" else if token == "NUMBER" then "REAL" else token
  }

  /** Mapping a type token twice changes nothing more than mapping it once. */
  lemma SqlTypeIdempotent(token: string)
    ensures SqlType(SqlType(token)) == SqlType(token)
  {
  }

  function TableOf(rec: Record): string
    requires DescribesColumn(rec)
  {
    TrimSpace(rec[0])
  }

  /** The column a metadata record describes. */
  function ColumnOf(rec: Record): ColumnDef
    requires DescribesColumn(rec)
  {
    ColumnDef(ReplaceChar(TrimSpace(rec[1]), ' ', '_'), SqlType(TrimSpace(rec[3])), TrimSpace(rec[4]) == "Yes")
  }

  /**
   * A column is named by its trimmed name with spaces turned into underscores, typed by its
   * mapped type token, and nullable iff its flag is "Yes".
   */
  lemma ColumnOfFields(rec: Record)
    requires DescribesColumn(rec)
    ensures var c := ColumnOf(rec);
      && ' ' !in c.name && |c.name| == |TrimSpace(rec[1])|
      && (forall k | 0 <= k < |c.name| ::
        c.name[k] == (if TrimSpace(rec[1])[k] == ' ' then '_' else TrimSpace(rec[1])[k]))
      && c.dataType == SqlType(TrimSpace(rec[3]))
      && (c.nullable <==> TrimSpace(rec[4]) == "Yes")
  {
  }

  /** Every schema is stored under its own name. */
  ghost predicate WellKeyed(tables: Schemas) {
    forall t | t in tables :: tables[t].name == t
  }

  /** Appends `c` to table `t`, creating the table when it is new. */
  function AddColumn(tables: Schemas, t: string, c: ColumnDef): (r: Schemas)
    ensures r.Keys == tables.Keys + {t}
    ensures r[t].name == (if t in tables then tables[t].name else t)
    ensures r[t].columns == (if t in tables then tables[t].columns else []) + [c]
    ensures forall u | u in tables && u != t :: r[u] == tables[u]
  {
    if t in tables then tables[t := TableSchema(tables[t].name, tables[t].columns + [c])]
    else tables[t := TableSchema(t, [c])]
  }

  /** Folds data records into `tables` in order; short records contribute nothing. */
  function AddRecords(tables: Schemas, recs: seq<Record>): Schemas
    decreases |recs|
  {
    if recs == [] then tables
    else
      var before := AddRecords(tables, recs[..|recs| - 1]);
      var rec := recs[|recs| - 1];
      if DescribesColumn(rec) then AddColumn(before, TableOf(rec), ColumnOf(rec)) else before
  }

  /** The records of `recs` that describe a column of table `t`, in order. */
  function RecordsNaming(recs: seq<Record>, t: string): (rs: seq<Record>)
    ensures forall k | 0 <= k < |rs| :: DescribesColumn(rs[k]) && TableOf(rs[k]) == t
    ensures |rs| <= |recs|
    decreases |recs|
  {
    if recs == [] then []
    else
      var rec := recs[|recs| - 1];
      RecordsNaming(recs[..|recs| - 1], t) + (if DescribesColumn(rec) && TableOf(rec) == t then [rec] else [])
  }

  /** The columns that records describing a column define, in order. */
  function ColumnsOf(rs: seq<Record>): (cs: seq<ColumnDef>)
    requires forall k | 0 <= k < |rs| :: DescribesColumn(rs[k])
    ensures |cs| == |rs|
  {
    seq(|rs|, k requires 0 <= k < |rs| => ColumnOf(rs[k]))
  }

  /** Folding records adds exactly the tables they name. */
  lemma {:induction false} AddRecordsTables(tables: Schemas, recs: seq<Record>, t: string)
    ensures t in AddRecords(tables, recs) <==> t in tables || |RecordsNaming(recs, t)| > 0
    decreases |recs|
  {
    if recs != [] {
      var init := recs[..|recs| - 1];
      var rec := recs[|recs| - 1];
      AddRecordsTables(tables, init, t);
      if DescribesColumn(rec) && TableOf(rec) == t {
        assert |RecordsNaming(recs, t)| == |RecordsNaming(init, t)| + 1;
      } else {
        assert RecordsNaming(recs, t) == RecordsNaming(init, t);
      }
    }
  }

  /** The columns of table `t`, none when there is no such table. */
  function ColumnsFor(tables: Schemas, t: string): seq<ColumnDef> {
    if t in tables then tables[t].columns else []
  }

  lemma ColumnsOfAppend(rs: seq<Record>, rec: Record)
    requires forall k | 0 <= k < |rs| :: DescribesColumn(rs[k])
    requires DescribesColumn(rec)
    ensures ColumnsOf(rs + [rec]) == ColumnsOf(rs) + [ColumnOf(rec)]
  {
  }

  /**
   * Folding records appends to each table the columns of the records naming it, in record
   * order.
   */
  lemma {:induction false} AddRecordsColumns(tables: Schemas, recs: seq<Record>, t: string)
    ensures ColumnsFor(AddRecords(tables, recs), t) == ColumnsFor(tables, t) + ColumnsOf(RecordsNaming(recs, t))
    decreases |recs|
  {
    if recs == [] {
      assert ColumnsOf([]) == [];
    } else {
      var init := recs[..|recs| - 1];
      AddRecordsColumns(tables, init, t);
      AddRecordsStep(tables, recs, t);
      NamedColumnsStep(recs, t);
      var before, named, more := ColumnsFor(tables, t), ColumnsOf(RecordsNaming(init, t)), Contribution(recs[|recs| - 1], t);
      assert before + (named + more) == (before + named) + more;
    }
  }

  /** The column `rec` adds to table `t`: its own if it describes one of `t`, else none. */
  function Contribution(rec: Record, t: string): seq<ColumnDef> {
    if DescribesColumn(rec) && TableOf(rec) == t then [ColumnOf(rec)] else []
  }

  /** One more record adds its column to its own table and to no other. */
  lemma AddRecordsStep(tables: Schemas, recs: seq<Record>, t: string)
    requires recs != []
    ensures ColumnsFor(AddRecords(tables, recs), t)
      == ColumnsFor(AddRecords(tables, recs[..|recs| - 1]), t) + Contribution(recs[|recs| - 1], t)
  {
    var before := AddRecords(tables, recs[..|recs| - 1]);
    var rec := recs[|recs| - 1];
    if DescribesColumn(rec) {
      var after := AddColumn(before, TableOf(rec), ColumnOf(rec));
      assert AddRecords(tables, recs) == after;
      if TableOf(rec) != t {
        assert t in after <==> t in before;
      }
    } else {
      assert AddRecords(tables, recs) == before;
    }
  }

  lemma NamedColumnsStep(recs: seq<Record>, t: string)
    requires recs != []
    ensures ColumnsOf(RecordsNaming(recs, t))
      == ColumnsOf(RecordsNaming(recs[..|recs| - 1], t)) + Contribution(recs[|recs| - 1], t)
  {
    var rec := recs[|recs| - 1];
    var rs := RecordsNaming(recs[..|recs| - 1], t);
    if DescribesColumn(rec) && TableOf(rec) == t {
      ColumnsOfAppend(rs, rec);
    } else {
      assert RecordsNaming(recs, t) == rs;
    }
  }

  /** A table keeps its name; a new table is named by its key. */
  lemma {:induction false} AddRecordsNames(tables: Schemas, recs: seq<Record>, t: string)
    requires t in AddRecords(tables, recs)
    ensures AddRecords(tables, recs)[t].name == (if t in tables then tables[t].name else t)
    decreases |recs|
  {
    if recs != [] {
      var init := recs[..|recs| - 1];
      if t in AddRecords(tables, init) {
        AddRecordsNames(tables, init, t);
      } else {
        AddRecordsTables(tables, init, t);
      }
    }
  }

  lemma {:induction false} AddRecordsAppend(tables: Schemas, a: seq<Record>, b: seq<Record>)
    ensures AddRecords(AddRecords(tables, a), b) == AddRecords(tables, a + b)
    decreases |b|
  {
    if b != [] {
      var init := b[..|b| - 1];
      assert (a + b)[..|a + b| - 1] == a + init;
      assert (a + b)[|a + b| - 1] == b[|b| - 1];
      AddRecordsAppend(tables, a, init);
    } else {
      assert a + b == a;
    }
  }

  /** Every structure file has a header record. */
  ghost predicate HeadersPresent(entries: seq<ArchiveEntry>) {
    forall i | 0 <= i < |entries| :: IsStructureFile(entries[i].name) ==> entries[i].records != []
  }

  /** The data records of all structure files, in archive order, headers dropped. */
  function DataRecords(entries: seq<ArchiveEntry>): seq<Record>
    decreases |entries|
  {
    if entries == [] then []
    else
      var e := entries[|entries| - 1];
      DataRecords(entries[..|entries| - 1]) +
        (if IsStructureFile(e.name) && e.records != [] then e.records[1..] else [])
  }

  /** The metadata fold over the archive: the first structure file without a header is an error. */
  function Fold(entries: seq<ArchiveEntry>): Result<Schemas, SchemaError>
    decreases |entries|
  {
    if entries == [] then Ok(map[])
    else
      var e := entries[|entries| - 1];
      match Fold(entries[..|entries| - 1])
      case Err(err) => Err(err)
      case Ok(tables) =>
        if !IsStructureFile(e.name) then Ok(tables)
        else if e.records == [] then Err(MissingHeader(e.name))
        else Ok(AddRecords(tables, e.records[1..]))
  }

  /** Once a prefix of the archive fails, the whole archive fails with the same error. */
  lemma {:induction false} FoldFailurePersists(entries: seq<ArchiveEntry>, i: nat)
    requires i <= |entries| && Fold(entries[..i]).Err?
    ensures Fold(entries) == Fold(entries[..i])
    decreases |entries|
  {
    if i < |entries| {
      var init := entries[..|entries| - 1];
      assert init[..i] == entries[..i];
      FoldFailurePersists(init, i);
    } else {
      assert entries[..i] == entries;
    }
  }

  /**
   * The fold succeeds iff every structure file has a header; it then holds the data records of
   * all structure files, folded in archive order. A failure names a headerless structure file
   * all of whose predecessors have headers.
   */
  lemma {:induction false} FoldCharacterised(entries: seq<ArchiveEntry>)
    ensures Fold(entries).Ok? <==> HeadersPresent(entries)
    ensures Fold(entries).Ok? ==> Fold(entries).value == AddRecords(map[], DataRecords(entries))
    ensures Fold(entries).Err? ==> exists i | 0 <= i < |entries| ::
      && Fold(entries).error == MissingHeader(entries[i].name)
      && IsStructureFile(entries[i].name) && entries[i].records == []
      && HeadersPresent(entries[..i])
    decreases |entries|
  {
    if entries != [] {
      var init := entries[..|entries| - 1];
      var e := entries[|entries| - 1];
      FoldCharacterised(init);
      assert forall i | 0 <= i < |init| :: init[i] == entries[i];
      assert HeadersPresent(entries) <==> HeadersPresent(init) && (IsStructureFile(e.name) ==> e.records != []);
      if Fold(init).Err? {
        var i :| 0 <= i < |init| && Fold(init).error == MissingHeader(init[i].name)
          && IsStructureFile(init[i].name) && init[i].records == [] && HeadersPresent(init[..i]);
        assert init[..i] == entries[..i];
      } else if IsStructureFile(e.name) && e.records == [] {
        assert entries[..|entries| - 1] == init;
      } else if IsStructureFile(e.name) {
        assert DataRecords(entries) == DataRecords(init) + e.records[1..];
        AddRecordsAppend(map[], DataRecords(init), e.records[1..]);
      } else {
        assert DataRecords(entries) == DataRecords(init);
      }
    }
  }

  /** Forces nullable the columns of table `t` whose (table, column) pair is a sentinel. */
  function MarkColumns(cols: seq<ColumnDef>, t: string, sentinels: set<(string, string)>): (r: seq<ColumnDef>)
    ensures |r| == |cols|
  {
    seq(|cols|, k requires 0 <= k < |cols| => cols[k].(nullable := cols[k].nullable || (t, cols[k].name) in sentinels))
  }

  /** The sentinel override applied to every table. */
  function WithSentinelNulls(tables: Schemas, sentinels: set<(string, string)>): Schemas {
    map t | t in tables :: tables[t].(columns := MarkColumns(tables[t].columns, t, sentinels))
  }

  /**
   * The override sets `nullable` exactly on the sentinel columns and changes nothing else:
   * no table, column name, type or order, and no column that is not a sentinel.
   */
  lemma SentinelOverrideExact(tables: Schemas, sentinels: set<(string, string)>)
    ensures WithSentinelNulls(tables, sentinels).Keys == tables.Keys
    ensures forall t | t in tables ::
      && WithSentinelNulls(tables, sentinels)[t].name == tables[t].name
      && |WithSentinelNulls(tables, sentinels)[t].columns| == |tables[t].columns|
    ensures forall t, k | t in tables && 0 <= k < |tables[t].columns| ::
      var c, c' := tables[t].columns[k], WithSentinelNulls(tables, sentinels)[t].columns[k];
      c'.name == c.name && c'.dataType == c.dataType && (c'.nullable <==> c.nullable || (t, c.name) in sentinels)
  {
  }

  /** Applying sentinel sets one after the other is applying their union, so the order does not matter. */
  lemma SentinelOverrideComposes(tables: Schemas, a: set<(string, string)>, b: set<(string, string)>)
    ensures WithSentinelNulls(WithSentinelNulls(tables, a), b) == WithSentinelNulls(tables, a + b)
  {
    var lhs, rhs := WithSentinelNulls(WithSentinelNulls(tables, a), b), WithSentinelNulls(tables, a + b);
    forall t | t in tables ensures lhs[t] == rhs[t] {
      assert lhs[t].columns == rhs[t].columns;
    }
  }

  lemma NoSentinels(tables: Schemas)
    ensures WithSentinelNulls(tables, {}) == tables
  {
    forall t | t in tables ensures WithSentinelNulls(tables, {})[t] == tables[t] {
      assert WithSentinelNulls(tables, {})[t].columns == tables[t].columns;
    }
  }

  /** One sentinel pair touches only its own table, and only when that table exists. */
  lemma OneSentinel(tables: Schemas, t: string, name: string)
    ensures t in tables ==>
      WithSentinelNulls(tables, {(t, name)}) == tables[t := tables[t].(columns := MarkColumns(tables[t].columns, t, {(t, name)}))]
    ensures t !in tables ==> WithSentinelNulls(tables, {(t, name)}) == tables
  {
    var r := WithSentinelNulls(tables, {(t, name)});
    forall u | u in tables && u != t ensures r[u] == tables[u] {
      assert r[u].columns == tables[u].columns;
    }
  }

  /** Marks nullable every column of `cols` called `name`. */
  method MarkNamed(cols: seq<ColumnDef>, t: string, name: string) returns (out: seq<ColumnDef>)
    ensures out == MarkColumns(cols, t, {(t, name)})
  {
    out := cols;
    var i := 0;
    while i < |out|
      invariant 0 <= i <= |out| == |cols|
      invariant forall k | 0 <= k < |cols| ::
        out[k] == (if k < i then MarkColumns(cols, t, {(t, name)})[k] else cols[k])
    {
      if out[i].name == name {
        out := out[i := out[i].(nullable := true)];
      }
      i := i + 1;
    }
  }

  /**
   * The override loop: for each sentinel pair, in any order, every column of that name in that
   * table becomes nullable.
   */
  method OverrideSentinelColumns(tables: Schemas, sentinels: set<(string, string)>) returns (r: Schemas)
    ensures r == WithSentinelNulls(tables, sentinels)
  {
    r := tables;
    NoSentinels(tables);
    var done: set<(string, string)> := {};
    var todo := sentinels;
    while todo != {}
      invariant done + todo == sentinels
      invariant r == WithSentinelNulls(tables, done)
      decreases |todo|
    {
      var key :| key in todo;
      var (t, name) := key;
      SentinelOverrideComposes(tables, done, {key});
      OneSentinel(r, t, name);
      if t in r {
        var cols := MarkNamed(r[t].columns, t, name);
        r := r[t := r[t].(columns := cols)];
      }
      done := done + {key};
      todo := todo - {key};
    }
  }

  /** The whole of `parseSchemas`: the fold, then the sentinel override. */
  function ParsedSchemas(entries: seq<ArchiveEntry>, sentinels: set<(string, string)>): Result<Schemas, SchemaError> {
    match Fold(entries)
    case Err(e) => Err(e)
    case Ok(tables) => Ok(WithSentinelNulls(tables, sentinels))
  }

  /** The data records of one structure file, folded in order. */
  method AddDataRecords(tables: Schemas, records: seq<Record>) returns (r: Schemas)
    requires records != []
    ensures r == AddRecords(tables, records[1..])
  {
    r := tables;
    var j := 1;
    while j < |records|
      invariant 1 <= j <= |records|
      invariant r == AddRecords(tables, records[1..j])
    {
      var rec := records[j];
      assert records[1..j + 1][..j - 1] == records[1..j] && records[1..j + 1][j - 1] == rec;
      if DescribesColumn(rec) {
        r := AddColumn(r, TableOf(rec), ColumnOf(rec));
      }
      j := j + 1;
    }
    assert records[1..j] == records[1..];
  }

  /** `parseSchemas`: structure files in archive order, their data records in order. */
  method ParseSchemas(entries: seq<ArchiveEntry>, sentinels: set<(string, string)>) returns (r: Result<Schemas, SchemaError>)
    ensures r == ParsedSchemas(entries, sentinels)
  {
    var tables: Schemas := map[];
    var i := 0;
    while i < |entries|
      invariant 0 <= i <= |entries|
      invariant Fold(entries[..i]) == Ok(tables)
    {
      var e := entries[i];
      assert entries[..i + 1][..i] == entries[..i] && entries[..i + 1][i] == e;
      if IsStructureFile(e.name) {
        if e.records == [] {
          FoldFailurePersists(entries, i + 1);
          return Err(MissingHeader(e.name));
        }
        tables := AddDataRecords(tables, e.records);
      }
      i := i + 1;
    }
    assert entries[..i] == entries;
    tables := OverrideSentinelColumns(tables, sentinels);
    r := Ok(tables);
  }

  /**
   * What `parseSchemas` returns, table by table. It succeeds iff every structure file has a
   * header. Its tables are those that some data record of a structure file names, each stored
   * under its own name. A table's columns are those records' columns in archive order, one per
   * record. Each column is nullable iff its record says "Yes" or it is a sentinel.
   */
  lemma ParsedSchemasColumns(entries: seq<ArchiveEntry>, sentinels: set<(string, string)>, t: string)
    ensures ParsedSchemas(entries, sentinels).Ok? <==> HeadersPresent(entries)
    ensures ParsedSchemas(entries, sentinels).Ok? ==>
      var tables, rs := ParsedSchemas(entries, sentinels).value, RecordsNaming(DataRecords(entries), t);
      && (t in tables <==> |rs| > 0)
      && (t in tables ==>
        && tables[t].name == t
        && |tables[t].columns| == |rs|
        && forall k | 0 <= k < |rs| ::
          var c := tables[t].columns[k];
          && c.name == ColumnOf(rs[k]).name && ' ' !in c.name
          && c.dataType == ColumnOf(rs[k]).dataType
          && (c.nullable <==> TrimSpace(rs[k][4]) == "Yes" || (t, c.name) in sentinels))
  {
    FoldCharacterised(entries);
    if HeadersPresent(entries) {
      var rs := RecordsNaming(DataRecords(entries), t);
      forall k | 0 <= k < |rs| ensures ' ' !in ColumnOf(rs[k]).name {
        ColumnOfFields(rs[k]);
      }
      AddRecordsTables(map[], DataRecords(entries), t);
      AddRecordsColumns(map[], DataRecords(entries), t);
      if t in Fold(entries).value {
        AddRecordsNames(map[], DataRecords(entries), t);
      }
      SentinelOverrideExact(Fold(entries).value, sentinels);
    }
  }

  /** The schemas `parseSchemas` returns are each stored under their own name. */
  lemma ParsedSchemasWellKeyed(entries: seq<ArchiveEntry>, sentinels: set<(string, string)>)
    ensures ParsedSchemas(entries, sentinels).Ok? ==> WellKeyed(ParsedSchemas(entries, sentinels).value)
  {
    if ParsedSchemas(entries, sentinels).Ok? {
      forall t | t in ParsedSchemas(entries, sentinels).value ensures ParsedSchemas(entries, sentinels).value[t].name == t {
        ParsedSchemasColumns(entries, sentinels, t);
      }
    }
  }

  // normalizeCR

  newtype byte = b: int | 0 <= b < 256

  const CR: byte := 13
  const LF: byte := 10

  /** Position `i` holds a carriage return that no line feed follows. */
  predicate BareCR(data: seq<byte>, i: nat)
    requires i < |data|
  {
    data[i] == CR && !(i + 1 < |data| && data[i + 1] == LF)
  }

  /** The data with every bare carriage return turned into a line feed. */
  function NormalizedCR(data: seq<byte>): (out: seq<byte>)
    ensures |out| == |data|
  {
    seq(|data|, i requires 0 <= i < |data| => if BareCR(data, i) then LF else data[i])
  }

  /** `normalizeCR`: copies byte by byte, passing CRLF pairs through whole. */
  method NormalizeCR(data: seq<byte>) returns (out: seq<byte>)
    ensures out == NormalizedCR(data)
  {
    out := [];
    var i := 0;
    while i < |data|
      invariant 0 <= i <= |data|
      invariant out == NormalizedCR(data)[..i]
    {
      if data[i] == CR {
        if i + 1 < |data| && data[i + 1] == LF {
          out := out + [CR, LF];
          i := i + 1;
        } else {
          out := out + [LF];
        }
      } else {
        out := out + [data[i]];
      }
      i := i + 1;
    }
  }

  /**
   * Normalising keeps the length and every byte that is not a carriage return, keeps every CRLF
   * pair, and leaves no bare carriage return behind.
   */
  lemma NormalizedCRProperties(data: seq<byte>)
    ensures |NormalizedCR(data)| == |data|
    ensures forall i | 0 <= i < |data| && data[i] != CR :: NormalizedCR(data)[i] == data[i]
    ensures forall i | 0 <= i && i + 1 < |data| && data[i] == CR && data[i + 1] == LF ::
      NormalizedCR(data)[i] == CR && NormalizedCR(data)[i + 1] == LF
    ensures forall i | 0 <= i < |data| :: !BareCR(NormalizedCR(data), i)
  {
    var out := NormalizedCR(data);
    forall i | 0 <= i < |data| ensures !BareCR(out, i) {
      if out[i] == CR {
        assert data[i] == CR && !BareCR(data, i);
        assert out[i + 1] == data[i + 1];
      }
    }
  }

  /** Normalising twice is normalising once. */
  lemma NormalizedCRIdempotent(data: seq<byte>)
    ensures NormalizedCR(NormalizedCR(data)) == NormalizedCR(data)
  {
    NormalizedCRProperties(data);
  }
}
