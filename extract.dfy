/**
 * The body of `Extract` in nasr.go once the schemas are parsed: the DDL is generated and its
 * tables created, the CSV files are loaded, parent tables are de-duplicated behind their unique
 * indexes, orphans are deleted once, and a last foreign key check fails the run when any
 * violation remains. The statements of `generateDDL` are executed by the database model: a
 * `CREATE TABLE` statement as the definition it was generated from, a `CREATE UNIQUE INDEX`
 * statement as the index it names.
 */
module Extract {
  import opened Wrappers
  import opened Schema
  import opened ForeignKeys
  import opened Rows
  import opened Database
  import Ddl
  import Sorting
  import Loader
  import Repair
  import Orphans
  import IndexRoundTrip
  import UniqueIndex
  import Strings

  datatype ExtractError =
    | CreateTableFailed(table: string, tableError: DbError)
    | LoadFailed(loadError: Loader.LoadAllError)
    | DeduplicateFailed(repairError: Repair.RepairError)
    | DeleteOrphansFailed(orphanError: Orphans.OrphanError)
    | FinalCheckFailed(checkError: DbError)
    | ViolationsRemain(count: nat)

  /** The definition a generated `CREATE TABLE` statement gives table `n`. */
  function DefFor(tables: Schemas, fks: seq<ForeignKey>, n: string): TableDef
    requires n in tables
  {
    TableDef(tables[n].columns, Ddl.ChildForeignKeys(fks, n))
  }

  /** The tables the statements for `names` create, when all of them succeed. */
  function DefsFor(tables: Schemas, fks: seq<ForeignKey>, names: seq<string>): (defs: map<string, TableDef>)
    requires forall i | 0 <= i < |names| :: names[i] in tables
    ensures defs.Keys == set i | 0 <= i < |names| :: names[i]
  {
    map n | n in names :: DefFor(tables, fks, n)
  }

  /** One empty table per name. */
  function EmptyTables(names: seq<string>): (rows: map<string, seq<Row>>)
    ensures rows.Keys == set i | 0 <= i < |names| :: names[i]
  {
    map n | n in names :: []
  }

  /** What the database answers to the statement for `names[i]`, after those before it succeeded. */
  function Attempt(tables: Schemas, fks: seq<ForeignKey>, names: seq<string>, i: nat): Outcome<DbError>
    requires i < |names| && forall j | 0 <= j < |names| :: names[j] in tables
  {
    CreateTableOutcome(DefsFor(tables, fks, names[..i]), names[i], DefFor(tables, fks, names[i]))
  }

  /**
   * The `CREATE TABLE` loop of `Extract` over the sorted schema names, on a database with no
   * tables: every statement in order, each for the table its schema names, stopping at the first
   * that fails. Since each statement meets no table of its own name, the database answers it as
   * it answers that table's definition on its own: the loop fails exactly when some definition is
   * rejected, and then with the first such name and the database's error. On success the
   * database holds exactly the generated tables, all empty.
   */
  method CreateTables(db: Db, tables: Schemas, fks: seq<ForeignKey>, names: seq<string>)
    returns (r: Outcome<ExtractError>)
    requires db.Valid() && db.defs == map[] && db.rows == map[]
    requires WellKeyed(tables)
    requires Ddl.SortedEnumeration(names, tables.Keys) && forall i | 0 <= i < |names| :: names[i] in tables
    modifies db
    ensures db.Valid() && db.indexes == old(db.indexes)
    ensures r.Pass? <==> forall i | 0 <= i < |names| :: Creation(tables, fks, names[i]).Pass?
    ensures r.Pass? ==> db.defs == DefsFor(tables, fks, names) && db.rows == EmptyTables(names)
    ensures r.Fail? ==> exists i | 0 <= i < |names| ::
      && (forall j | 0 <= j < i :: Creation(tables, fks, names[j]).Pass?)
      && Creation(tables, fks, names[i]).Fail?
      && r == Fail(CreateTableFailed(names[i], Creation(tables, fks, names[i]).error))
  {
    var i := 0;
    while i < |names|
      invariant 0 <= i <= |names|
      invariant db.Valid() && db.indexes == old(db.indexes)
      invariant db.defs == DefsFor(tables, fks, names[..i]) && db.rows == EmptyTables(names[..i])
      invariant forall j | 0 <= j < i :: Creation(tables, fks, names[j]).Pass?
    {
      var ts := tables[names[i]];
      AttemptOnItsOwn(tables, fks, names, i);
      var res := db.CreateTable(ts.name, DefFor(tables, fks, names[i]));
      if res.Fail? {
        return Fail(CreateTableFailed(ts.name, res.error));
      }
      CreatedSnoc(tables, fks, names, i);
      i := i + 1;
    }
    assert names[..i] == names;
    r := Pass;
  }

  /** One more statement of the `CREATE TABLE` loop adds its table, empty. */
  lemma CreatedSnoc(tables: Schemas, fks: seq<ForeignKey>, names: seq<string>, i: nat)
    requires i < |names| && forall j | 0 <= j < |names| :: names[j] in tables
    ensures DefsFor(tables, fks, names[..i + 1]) == DefsFor(tables, fks, names[..i])[names[i] := DefFor(tables, fks, names[i])]
    ensures EmptyTables(names[..i + 1]) == EmptyTables(names[..i])[names[i] := []]
  {
    assert names[..i + 1] == names[..i] + [names[i]];
  }

  /** The tables of a successful run: one per schema, with the catalog's keys whose child it is. */
  function TableDefs(tables: Schemas, fks: seq<ForeignKey>): (defs: map<string, TableDef>)
    ensures defs.Keys == tables.Keys
  {
    map n | n in tables :: DefFor(tables, fks, n)
  }

  /** The schemas' tables, all empty. */
  function NoRows(tables: Schemas): (rows: map<string, seq<Row>>)
    ensures rows.Keys == tables.Keys
  {
    map n | n in tables :: []
  }

  /** Creating the tables of a sorted enumeration of the schemas creates one empty table per schema. */
  lemma DefsForEnumeration(tables: Schemas, fks: seq<ForeignKey>, names: seq<string>)
    requires Ddl.SortedEnumeration(names, tables.Keys)
    ensures forall i | 0 <= i < |names| :: names[i] in tables
    ensures DefsFor(tables, fks, names) == TableDefs(tables, fks)
    ensures EmptyTables(names) == NoRows(tables)
  {
    forall n ensures n in names <==> n in tables {
      assert n in names <==> n in multiset(names);
    }
  }

  /** Every distinct parent key of `fks` has its unique index: on its parent table and its columns. */
  ghost predicate KeysIndexed(fks: seq<ForeignKey>, indexes: set<Index>) {
    forall k | 0 <= k < |Ddl.FirstOccurrences(fks)| ::
      Index(Ddl.FirstOccurrences(fks)[k].parentTable, Ddl.FirstOccurrences(fks)[k].columns) in indexes
  }

  /** The final `PRAGMA foreign_key_check`: any reported row fails the run, and says how many. */
  method FinalCheck(db: Db) returns (r: Outcome<ExtractError>)
    requires db.Valid()
    ensures r.Pass? <==> ForeignKeyCheckOutcome(db.defs, db.rows, db.indexes) == Ok({})
    ensures r.Pass? ==> ViolationSet(db.defs, db.rows) == {}
    ensures r.Fail? && r.error.ViolationsRemain? ==>
      && !Mismatch(db.defs, db.indexes)
      && r.error.count == |ViolationSet(db.defs, db.rows)| > 0
    ensures r.Fail? && !r.error.ViolationsRemain? ==> r.error == FinalCheckFailed(ForeignKeyMismatch) && Mismatch(db.defs, db.indexes)
  {
    var check := db.ForeignKeyCheck();
    if check.Err? {
      return Fail(FinalCheckFailed(check.error));
    }
    var remaining := |check.value|;
    if remaining > 0 {
      return Fail(ViolationsRemain(remaining));
    }
    r := Pass;
  }

  /** The tables once the orphans that the check reports on `rows` are deleted. */
  ghost function WithoutOrphans(defs: map<string, TableDef>, rows: map<string, seq<Row>>): map<string, seq<Row>> {
    Orphans.OrphansRemoved(rows, ViolationSet(defs, rows))
  }

  /**
   * Lines 71-98 of `Extract`: the repair steps, then the final check. De-duplication leaves what
   * `DedupOutcome` says; when it succeeds and every foreign key has its parent index, one orphan
   * pass follows, and the final check passes exactly when that pass left no violation.
   */
  method RepairAndCheck(db: Db, createIndexes: seq<string>) returns (r: Outcome<ExtractError>)
    requires db.Valid()
    modifies db
    ensures db.Valid() && db.defs == old(db.defs)
    ensures var d := Repair.DedupOutcome(old(db.defs), old(db.rows), old(db.indexes), createIndexes);
      && db.indexes == d.indexes
      && (d.outcome.Fail? ==> r == Fail(DeduplicateFailed(d.outcome.error)) && db.rows == d.rows)
      && (d.outcome.Pass? && Mismatch(db.defs, d.indexes) ==> r == Fail(DeleteOrphansFailed(Orphans.CheckFailed)) && db.rows == d.rows)
      && (d.outcome.Pass? && !Mismatch(db.defs, d.indexes) ==>
            && db.rows == WithoutOrphans(db.defs, d.rows)
            && (r.Pass? <==> ViolationSet(db.defs, db.rows) == {})
            && (r.Fail? ==> r == Fail(ViolationsRemain(|ViolationSet(db.defs, db.rows)|))))
    ensures r.Pass? ==> forall i | 0 <= i < |createIndexes| :: Repair.Installed(createIndexes[i], db.indexes)
    ensures r.Fail? && r.error.DeduplicateFailed? ==> !r.error.repairError.CreateIndexAfterDedupFailed?
  {
    ghost var defs, rows, indexes := db.defs, db.rows, db.indexes;
    var dedup := Repair.DeduplicateParents(db, createIndexes);
    Repair.DedupInstalls(defs, rows, indexes, createIndexes);
    Repair.DedupFails(defs, rows, indexes, createIndexes);
    if dedup.Fail? {
      return Fail(DeduplicateFailed(dedup.error));
    }
    var orphans := Orphans.DeleteOrphans(db);
    if orphans.Fail? {
      return Fail(DeleteOrphansFailed(orphans.error));
    }
    r := FinalCheck(db);
  }

  /** The tables `loadAllCSVs` leaves when it starts from the schemas' empty tables. */
  ghost function Loaded(tables: Schemas, fks: seq<ForeignKey>, files: seq<Loader.ArchiveFile>,
                        readCsv: Loader.CsvReader, parseFloat: Loader.FloatParser): Loader.LoadState
  {
    Loader.LoadAllOutcome(TableDefs(tables, fks), NoRows(tables), {}, files, tables, readCsv, parseFloat)
  }

  /** What the database answers to the generated `CREATE TABLE` statement for table `n` on its own. */
  function Creation(tables: Schemas, fks: seq<ForeignKey>, n: string): Outcome<DbError>
    requires n in tables
  {
    CreateTableOutcome(map[], n, DefFor(tables, fks, n))
  }

  /** The database accepts the definition of every table of the schemas. */
  predicate SchemaAccepted(tables: Schemas, fks: seq<ForeignKey>) {
    forall n | n in tables :: Creation(tables, fks, n).Pass?
  }

  /** `t` is the first table, in name order, whose definition the database rejects. */
  predicate FirstRejected(tables: Schemas, fks: seq<ForeignKey>, t: string) {
    && t in tables && Creation(tables, fks, t).Fail?
    && forall n | n in tables && Strings.Less(n, t) :: Creation(tables, fks, n).Pass?
  }

  /** A run stopped by the `CREATE TABLE` loop names the first rejected table and the database's error. */
  predicate CreationFailed(tables: Schemas, fks: seq<ForeignKey>, e: ExtractError) {
    && e.CreateTableFailed? && FirstRejected(tables, fks, e.table)
    && e.tableError == Creation(tables, fks, e.table).error
  }

  /** Over the sorted names of the schemas, every definition is accepted iff every table's is. */
  lemma AcceptedInNameOrder(tables: Schemas, fks: seq<ForeignKey>, names: seq<string>)
    requires Ddl.SortedEnumeration(names, tables.Keys) && forall i | 0 <= i < |names| :: names[i] in tables
    ensures (forall i | 0 <= i < |names| :: Creation(tables, fks, names[i]).Pass?) <==> SchemaAccepted(tables, fks)
  {
    forall n | n in tables ensures exists i | 0 <= i < |names| :: names[i] == n {
      assert n in multiset(names);
    }
  }

  /** The first rejected definition over the sorted names is the first rejected table in name order. */
  lemma FirstFailingAttempt(tables: Schemas, fks: seq<ForeignKey>, names: seq<string>, i: nat)
    requires Ddl.SortedEnumeration(names, tables.Keys) && forall j | 0 <= j < |names| :: names[j] in tables
    requires i < |names| && forall j | 0 <= j < i :: Creation(tables, fks, names[j]).Pass?
    requires Creation(tables, fks, names[i]).Fail?
    ensures FirstRejected(tables, fks, names[i])
  {
    forall n | n in tables && Strings.Less(n, names[i]) ensures Creation(tables, fks, n).Pass? {
      assert n in multiset(names);
      var j :| 0 <= j < |names| && names[j] == n;
      EarlierInOrder(names, i, j);
    }
  }

  /** What the `CREATE TABLE` loop over the sorted names returns, stated over the schemas. */
  lemma CreationInNameOrder(tables: Schemas, fks: seq<ForeignKey>, names: seq<string>, r: Outcome<ExtractError>)
    requires Ddl.SortedEnumeration(names, tables.Keys) && forall i | 0 <= i < |names| :: names[i] in tables
    requires r.Pass? <==> forall i | 0 <= i < |names| :: Creation(tables, fks, names[i]).Pass?
    requires r.Fail? ==> exists i | 0 <= i < |names| ::
      && (forall j | 0 <= j < i :: Creation(tables, fks, names[j]).Pass?)
      && Creation(tables, fks, names[i]).Fail?
      && r == Fail(CreateTableFailed(names[i], Creation(tables, fks, names[i]).error))
    ensures r.Pass? <==> SchemaAccepted(tables, fks)
    ensures r.Fail? ==> CreationFailed(tables, fks, r.error)
  {
    AcceptedInNameOrder(tables, fks, names);
    if r.Fail? {
      var i :| 0 <= i < |names| && (forall j | 0 <= j < i :: Creation(tables, fks, names[j]).Pass?)
        && Creation(tables, fks, names[i]).Fail? && r == Fail(CreateTableFailed(names[i], Creation(tables, fks, names[i]).error));
      FirstFailingAttempt(tables, fks, names, i);
    }
  }

  /** A statement of the sorted names meets no table of its own name. */
  lemma AttemptOnItsOwn(tables: Schemas, fks: seq<ForeignKey>, names: seq<string>, i: nat)
    requires Ddl.SortedEnumeration(names, tables.Keys) && forall j | 0 <= j < |names| :: names[j] in tables
    requires i < |names|
    ensures Attempt(tables, fks, names, i) == Creation(tables, fks, names[i])
  {
    forall j | 0 <= j < i ensures names[j] != names[i] {
      if names[j] == names[i] {
        Strings.LessIrreflexive(names[i]);
      }
    }
    assert names[i] !in DefsFor(tables, fks, names[..i]);
  }

  /** In a strictly ascending list, a smaller name comes earlier. */
  lemma EarlierInOrder(names: seq<string>, i: nat, j: nat)
    requires forall a, b | 0 <= a < b < |names| :: Strings.Less(names[a], names[b])
    requires i < |names| && j < |names| && Strings.Less(names[j], names[i])
    ensures j < i
  {
    if j == i {
      Strings.LessIrreflexive(names[i]);
    } else if j > i {
      Strings.LessAsymmetric(names[i], names[j]);
    }
  }

  /**
   * Line 50 of `Extract`: `generateDDL` yields one `CREATE TABLE` statement per schema, in name
   * order, each executed as the definition it was generated from, and the index list.
   */
  method Statements(tables: Schemas, fks: seq<ForeignKey>) returns (names: seq<string>, createIndexes: seq<string>)
    ensures Ddl.SortedEnumeration(names, tables.Keys) && forall i | 0 <= i < |names| :: names[i] in tables
    ensures DefsFor(tables, fks, names) == TableDefs(tables, fks) && EmptyTables(names) == NoRows(tables)
    ensures IndexStatements(fks, createIndexes)
  {
    var createTables;
    names, createTables, createIndexes := Ddl.GenerateDDL(tables, fks);
    DefsForEnumeration(tables, fks, names);
  }

  /**
   * Lines 50-56 of `Extract`: the DDL is generated and its tables created in a new database. The
   * step fails exactly when the database rejects some table's definition, and then at the first
   * such table in name order. Success leaves exactly the schemas' tables, all empty, and no index.
   */
  method CreateSchema(tables: Schemas, fks: seq<ForeignKey>) returns (r: Outcome<ExtractError>, db: Db, createIndexes: seq<string>)
    requires WellKeyed(tables)
    ensures fresh(db) && db.Valid()
    ensures IndexStatements(fks, createIndexes)
    ensures r.Pass? <==> SchemaAccepted(tables, fks)
    ensures r.Pass? ==> db.defs == TableDefs(tables, fks) && db.rows == NoRows(tables) && db.indexes == {}
    ensures r.Fail? ==> CreationFailed(tables, fks, r.error)
  {
    var names;
    names, createIndexes := Statements(tables, fks);
    db := new Db();
    r := CreateTables(db, tables, fks, names);
    CreationInNameOrder(tables, fks, names, r);
  }

  /**
   * Lines 50-66 of `Extract`: the schema is created and the CSV files loaded. A run that gets past
   * the tables fails exactly when the load fold does, with its error; success leaves exactly the
   * schemas' tables, holding what the files load into them, and no index yet.
   */
  method BuildTables(tables: Schemas, fks: seq<ForeignKey>, files: seq<Loader.ArchiveFile>,
                     readCsv: Loader.CsvReader, parseFloat: Loader.FloatParser)
    returns (r: Outcome<ExtractError>, db: Db, createIndexes: seq<string>)
    requires WellKeyed(tables)
    ensures fresh(db) && db.Valid()
    ensures IndexStatements(fks, createIndexes)
    ensures r.Pass? || r.error.LoadFailed? ==> SchemaAccepted(tables, fks) && db.defs == TableDefs(tables, fks)
    ensures r.Pass? ==> db.indexes == {} && Loaded(tables, fks, files, readCsv, parseFloat) == Loader.LoadState(db.rows, None)
    ensures r.Fail? ==> CreationFailed(tables, fks, r.error) || r.error.LoadFailed?
    ensures r.Fail? && r.error.LoadFailed? ==> Loaded(tables, fks, files, readCsv, parseFloat).error == Some(r.error.loadError)
  {
    r, db, createIndexes := CreateSchema(tables, fks);
    if r.Fail? {
      return;
    }
    var loaded := Loader.LoadAllCSVs(db, files, tables, readCsv, parseFloat);
    if loaded.Fail? {
      r := Fail(LoadFailed(loaded.error));
    }
  }

  /** `createIndexes` is the index list `generateDDL` emits for `fks`. */
  ghost predicate IndexStatements(fks: seq<ForeignKey>, createIndexes: seq<string>) {
    exists ordered: seq<ForeignKey> | Sorting.SortedBy(ordered, Ddl.ParentOf) && multiset(ordered) == multiset(Ddl.FirstOccurrences(fks)) ::
      && |createIndexes| == |ordered|
      && forall i | 0 <= i < |ordered| :: createIndexes[i] == Ddl.IndexStatement(ordered[i])
  }

  /** No two distinct parent keys of `fks` share a parent table. */
  ghost predicate ParentsDistinct(fks: seq<ForeignKey>) {
    forall x, y | 0 <= x < |Ddl.FirstOccurrences(fks)| && 0 <= y < |Ddl.FirstOccurrences(fks)| ::
      Ddl.FirstOccurrences(fks)[x].parentTable == Ddl.FirstOccurrences(fks)[y].parentTable ==> x == y
  }

  /** When no two parent keys share a parent, there is one index list. */
  lemma IndexStatementsDetermined(fks: seq<ForeignKey>, a: seq<string>, b: seq<string>)
    requires ParentsDistinct(fks)
    requires IndexStatements(fks, a) && IndexStatements(fks, b)
    ensures a == b
  {
    var oa := OrderOf(fks, a);
    var ob := OrderOf(fks, b);
    Ddl.OrderDetermined(Ddl.FirstOccurrences(fks), oa, ob);
    SameStatements(oa, a, b);
  }

  /** The parent-sorted arrangement of the kept keys that an index list is written from. */
  lemma OrderOf(fks: seq<ForeignKey>, createIndexes: seq<string>) returns (ordered: seq<ForeignKey>)
    requires IndexStatements(fks, createIndexes)
    ensures Sorting.SortedBy(ordered, Ddl.ParentOf) && multiset(ordered) == multiset(Ddl.FirstOccurrences(fks))
    ensures |createIndexes| == |ordered| && forall i | 0 <= i < |ordered| :: createIndexes[i] == Ddl.IndexStatement(ordered[i])
  {
    ordered :| Sorting.SortedBy(ordered, Ddl.ParentOf) && multiset(ordered) == multiset(Ddl.FirstOccurrences(fks))
      && |createIndexes| == |ordered| && forall i | 0 <= i < |ordered| :: createIndexes[i] == Ddl.IndexStatement(ordered[i]);
  }

  /** Two lists of the statements of the same keys, in the same order, are equal. */
  lemma SameStatements(o: seq<ForeignKey>, a: seq<string>, b: seq<string>)
    requires |a| == |o| && |b| == |o|
    requires forall i | 0 <= i < |o| :: a[i] == Ddl.IndexStatement(o[i])
    requires forall i | 0 <= i < |o| :: b[i] == Ddl.IndexStatement(o[i])
    ensures a == b
  {
    assert forall i | 0 <= i < |a| :: a[i] == b[i];
  }

  /** For the catalog there is one such list: the index statements are deterministic. */
  lemma CatalogIndexStatementsDetermined(a: seq<string>, b: seq<string>)
    requires IndexStatements(Catalog(), a) && IndexStatements(Catalog(), b)
    ensures a == b
  {
    Ddl.CatalogIndexParentsDistinct();
    IndexStatementsDetermined(Catalog(), a, b);
  }

  /**
   * How a run with index statements `createIndexes` ends, with `r` and the database it leaves. It
   * stops at the first step that fails:
   *  - at the `CREATE TABLE` loop when some table is rejected, naming the first one;
   *  - at the load when the load fold fails, with its error;
   *  - at de-duplication when the fold of the index statements fails, with its error, which is
   *    never the retry after deduplication;
   *  - at the final check, with the number of violations the one orphan pass left.
   * Past the tables the database holds exactly the schemas' tables. Past de-duplication it holds
   * the loaded rows, de-duplicated and with the reported orphans deleted, and every parent key is
   * indexed. A successful run leaves no violation.
   */
  ghost predicate RunEnded(tables: Schemas, fks: seq<ForeignKey>, files: seq<Loader.ArchiveFile>,
                           readCsv: Loader.CsvReader, parseFloat: Loader.FloatParser, createIndexes: seq<string>,
                           r: Outcome<ExtractError>, defs: map<string, TableDef>, rows: map<string, seq<Row>>, indexes: set<Index>)
  {
    var loaded := Loaded(tables, fks, files, readCsv, parseFloat);
    var d := Repair.DedupOutcome(TableDefs(tables, fks), loaded.rows, {}, createIndexes);
    && (r.Fail? ==> CreationFailed(tables, fks, r.error) || r.error.LoadFailed? || r.error.DeduplicateFailed? || r.error.ViolationsRemain?)
    && (r.Pass? || !r.error.CreateTableFailed? ==> SchemaAccepted(tables, fks) && defs == TableDefs(tables, fks))
    && (r.Fail? && r.error.LoadFailed? ==> loaded.error == Some(r.error.loadError))
    && (r.Pass? || r.error.DeduplicateFailed? || r.error.ViolationsRemain? ==> loaded.error.None?)
    && (r.Fail? && r.error.DeduplicateFailed? ==>
          d.outcome == Fail(r.error.repairError) && !r.error.repairError.CreateIndexAfterDedupFailed?)
    && (r.Pass? || r.error.ViolationsRemain? ==>
          && d.outcome.Pass? && rows == WithoutOrphans(TableDefs(tables, fks), d.rows) && KeysIndexed(fks, indexes))
    && (r.Pass? ==> ViolationSet(defs, rows) == {})
    && (r.Fail? && r.error.ViolationsRemain? ==> r.error.count == |ViolationSet(defs, rows)| > 0)
  }

  /** Every index statement written for `fks` reads back as its key's parent table and columns. */
  ghost predicate StatementsReadBack(fks: seq<ForeignKey>) {
    forall k | 0 <= k < |Ddl.FirstOccurrences(fks)| ::
      UniqueIndex.ParsedIndex(Ddl.IndexStatement(Ddl.FirstOccurrences(fks)[k]))
        == Ok((Ddl.FirstOccurrences(fks)[k].parentTable, Ddl.FirstOccurrences(fks)[k].columns))
  }

  /**
   * The steps of `Extract` after the schemas are parsed, for well-keyed schemas and a list of
   * foreign keys whose index statements read back and whose parents each have one key. The run
   * ends as `RunEnded` states. A run that passes de-duplication has every parent key indexed, so
   * the orphan pass and the final check cannot fail for a missing index.
   */
  method ExtractWith(tables: Schemas, fks: seq<ForeignKey>, files: seq<Loader.ArchiveFile>,
                     readCsv: Loader.CsvReader, parseFloat: Loader.FloatParser)
    returns (r: Outcome<ExtractError>, db: Db, ghost createIndexes: seq<string>)
    requires WellKeyed(tables) && StatementsReadBack(fks) && OneKeyPerParent(fks)
    ensures fresh(db) && db.Valid()
    ensures IndexStatements(fks, createIndexes)
    ensures RunEnded(tables, fks, files, readCsv, parseFloat, createIndexes, r, db.defs, db.rows, db.indexes)
  {
    var stmts;
    r, db, stmts := BuildTables(tables, fks, files, readCsv, parseFloat);
    createIndexes := stmts;
    if r.Fail? {
      return;
    }
    ghost var defs, loaded := db.defs, db.rows;
    ghost var d := Repair.DedupOutcome(defs, loaded, {}, stmts);
    Repair.DedupInstalls(defs, loaded, {}, stmts);
    if d.outcome.Pass? {
      GeneratedIndexesInstalled(fks, stmts, d.indexes);
      NoMismatchWhenIndexed(tables, fks, d.indexes);
    }
    r := RepairAndCheck(db, stmts);
  }

  /**
   * `Extract` from the parsed schemas on, with the catalog's foreign keys: `ExtractWith` for the
   * catalog, whose index list is the only one `generateDDL` can write.
   */
  method Extract(tables: Schemas, files: seq<Loader.ArchiveFile>, readCsv: Loader.CsvReader, parseFloat: Loader.FloatParser)
    returns (r: Outcome<ExtractError>, db: Db)
    requires WellKeyed(tables)
    ensures fresh(db) && db.Valid()
    ensures exists createIndexes | IndexStatements(Catalog(), createIndexes) ::
      RunEnded(tables, Catalog(), files, readCsv, parseFloat, createIndexes, r, db.defs, db.rows, db.indexes)
  {
    CatalogStatementsReadBack();
    CatalogOneKeyPerParent();
    ghost var createIndexes;
    r, db, createIndexes := ExtractWith(tables, Catalog(), files, readCsv, parseFloat);
  }

  /** The catalog has one column list per parent. */
  lemma CatalogOneKeyPerParent()
    ensures OneKeyPerParent(Catalog())
  {
    ForeignKeys.CatalogOneKeyPerParent();
  }

  /** The catalog's index statements read back. */
  lemma CatalogStatementsReadBack()
    ensures StatementsReadBack(Catalog())
  {
    IndexRoundTrip.CatalogIndexStatementsParse();
  }

  /** Installing every statement of an index list that reads back installs every parent key's index. */
  lemma GeneratedIndexesInstalled(fks: seq<ForeignKey>, createIndexes: seq<string>, indexes: set<Index>)
    requires StatementsReadBack(fks) && IndexStatements(fks, createIndexes)
    requires forall i | 0 <= i < |createIndexes| :: Repair.Installed(createIndexes[i], indexes)
    ensures KeysIndexed(fks, indexes)
  {
    var first := Ddl.FirstOccurrences(fks);
    var ordered := OrderOf(fks, createIndexes);
    forall k | 0 <= k < |first| ensures Index(first[k].parentTable, first[k].columns) in indexes {
      assert first[k] in multiset(ordered);
      var i :| 0 <= i < |ordered| && ordered[i] == first[k];
      assert createIndexes[i] == Ddl.IndexStatement(first[k]);
      assert Repair.IndexOf(createIndexes[i]) == Some(Index(first[k].parentTable, first[k].columns));
    }
  }

  /** Every parent of `fks` is referenced through one column list only. */
  ghost predicate OneKeyPerParent(fks: seq<ForeignKey>) {
    forall i, j | 0 <= i < |fks| && 0 <= j < |fks| :: fks[i].parentTable == fks[j].parentTable ==> fks[i].columns == fks[j].columns
  }

  /**
   * With one column list per parent and every parent key indexed, every foreign key of the
   * schemas' tables has a unique index on its parent's key, so `PRAGMA foreign_key_check`
   * reports no mismatch.
   */
  lemma NoMismatchWhenIndexed(tables: Schemas, fks: seq<ForeignKey>, indexes: set<Index>)
    requires OneKeyPerParent(fks) && KeysIndexed(fks, indexes)
    ensures !Mismatch(TableDefs(tables, fks), indexes)
  {
    var first := Ddl.FirstOccurrences(fks);
    var defs := TableDefs(tables, fks);
    forall t, k | t in defs && 0 <= k < |defs[t].foreignKeys|
      ensures Index(defs[t].foreignKeys[k].parentTable, defs[t].foreignKeys[k].columns) in indexes
    {
      var fk := defs[t].foreignKeys[k];
      assert fk in fks;
      var i :| 0 <= i < |fks| && fks[i] == fk;
      assert Ddl.KeyOf(fk) in Ddl.KeySet(first);
      var j :| 0 <= j < |first| && Ddl.KeyOf(first[j]) == Ddl.KeyOf(fk);
      Ddl.FirstOccurrencesAreFirst(fks, j);
      var m :| Ddl.FirstWithKey(fks, m, first[j]);
      assert fks[m].parentTable == fks[i].parentTable;
    }
  }
}
