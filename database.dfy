/**
 * The SQLite database that Extract fills, reduced to what the repair engine of nasr.go
 * relies on: tables created from their column definitions and foreign keys, rows with
 * rowids, `UNIQUE` indexes, `DELETE` by rowid, the two queries of `deduplicateParents`
 * and `PRAGMA foreign_key_check`. Foreign keys are not enforced on insert, as SQLite
 * does not enforce them unless asked to.
 *
 * Each statement's effect is a function of the state it runs on; the class `Db` holds the
 * state and its methods apply those functions.
 */
module Database {
  import opened Wrappers
  import opened Schema
  import opened ForeignKeys
  import opened Rows
  import opened UniqueIndex

  /** What `CREATE TABLE` records of a table: its columns and its `FOREIGN KEY` clauses. */
  datatype TableDef = TableDef(columns: seq<ColumnDef>, foreignKeys: seq<ForeignKey>)

  /** A unique index: its table and its columns. */
  datatype Index = Index(table: string, columns: seq<string>)

  datatype DbError =
    | TableExists(table: string)
    | DuplicateColumn(table: string)
    | UnknownForeignKeyColumn(table: string)
    | NoSuchTable(table: string)
    | WrongValueCount(table: string)
    | NotNullFailed(table: string)
    | UniqueFailed(table: string)
    | NoSuchColumn(table: string)
    | Unparsable(message: string)
    | ForeignKeyMismatch

  /** One row of `PRAGMA foreign_key_check`. */
  datatype Violation = Violation(table: string, rowid: int, parent: string, fkid: nat)

  // Columns

  function Names(cols: seq<ColumnDef>): (names: seq<string>)
    ensures |names| == |cols|
  {
    seq(|cols|, i requires 0 <= i < |cols| => cols[i].name)
  }

  /** The first column called `c`, or -1. */
  function PositionOf(names: seq<string>, c: string): (p: int)
    ensures -1 <= p < |names|
    ensures p == -1 <==> c !in names
    ensures p >= 0 ==> names[p] == c && c !in names[..p]
    decreases |names|
  {
    if names == [] then -1
    else if names[0] == c then 0
    else
      var p := PositionOf(names[1..], c);
      assert names == [names[0]] + names[1..];
      if p == -1 then -1 else p + 1
  }

  function PositionsOf(cols: seq<ColumnDef>, key: seq<string>): (pos: Positions)
    ensures |pos| == |key|
  {
    seq(|key|, j requires 0 <= j < |key| => PositionOf(Names(cols), key[j]))
  }

  predicate AllColumns(cols: seq<ColumnDef>, key: seq<string>) {
    forall j | 0 <= j < |key| :: key[j] in Names(cols)
  }

  predicate DistinctNames(names: seq<string>) {
    forall i, j | 0 <= i < j < |names| :: names[i] != names[j]
  }

  // The state and what each statement does to it

  /** Every table has rows in rowid order, and every unique index holds on its table. */
  ghost predicate ValidState(defs: map<string, TableDef>, rows: map<string, seq<Row>>, indexes: set<Index>) {
    && rows.Keys == defs.Keys
    && (forall t | t in rows :: Increasing(rows[t]))
    && (forall ix | ix in indexes ::
          && ix.table in defs
          && AllColumns(defs[ix.table].columns, ix.columns)
          && UniqueOn(rows[ix.table], PositionsOf(defs[ix.table].columns, ix.columns)))
  }

  /** `CREATE TABLE`: a new name, distinct column names, and key columns among them. */
  function CreateTableOutcome(defs: map<string, TableDef>, t: string, td: TableDef): Outcome<DbError> {
    if t in defs then Fail(TableExists(t))
    else if !DistinctNames(Names(td.columns)) then Fail(DuplicateColumn(t))
    else if exists k | 0 <= k < |td.foreignKeys| :: !AllColumns(td.columns, td.foreignKeys[k].columns) then
      Fail(UnknownForeignKeyColumn(t))
    else Pass
  }

  /** The key positions of the unique indexes on `t`. */
  function IndexKeys(defs: map<string, TableDef>, indexes: set<Index>, t: string): set<Positions>
    requires t in defs
  {
    set ix | ix in indexes && ix.table == t :: PositionsOf(defs[t].columns, ix.columns)
  }

  /** Row `vals` would repeat the NULL-free key of a stored row under one of `keys`. */
  predicate Collides(rs: seq<Row>, keys: set<Positions>, vals: seq<Value>) {
    exists pos, i | pos in keys && 0 <= i < |rs| ::
      !HasNull(Key(Row(0, vals), pos)) && Key(rs[i], pos) == Key(Row(0, vals), pos)
  }

  /**
   * `INSERT INTO t VALUES (...)`: one value per column, no NULL in a NOT NULL column and no
   * repeated key under a unique index; the new row gets the next rowid.
   */
  function InsertOutcome(defs: map<string, TableDef>, rows: map<string, seq<Row>>, indexes: set<Index>,
                         t: string, vals: seq<Value>): (r: Result<seq<Row>, DbError>)
    ensures r.Ok? ==> t in rows && r.value == rows[t] + [Row(NextRowid(rows[t]), vals)]
  {
    if t !in defs || t !in rows then Err(NoSuchTable(t))
    else
      var cols := defs[t].columns;
      if |vals| != |cols| then Err(WrongValueCount(t))
      else if exists i | 0 <= i < |cols| :: !cols[i].nullable && vals[i] == Null then Err(NotNullFailed(t))
      else if Collides(rows[t], IndexKeys(defs, indexes, t), vals) then Err(UniqueFailed(t))
      else Ok(rows[t] + [Row(NextRowid(rows[t]), vals)])
  }

  /**
   * `CREATE UNIQUE INDEX`: its table and columns must exist and the stored rows must not
   * repeat a NULL-free key. The statement is read with the pattern of `parseUniqueIndex`.
   */
  function IndexOutcome(defs: map<string, TableDef>, rows: map<string, seq<Row>>, stmt: string): Result<Index, DbError> {
    match ParsedIndex(stmt)
    case Err(msg) => Err(Unparsable(msg))
    case Ok((t, cols)) =>
      if t !in defs || t !in rows then Err(NoSuchTable(t))
      else if !AllColumns(defs[t].columns, cols) then Err(NoSuchColumn(t))
      else if !Distinct(rows[t], PositionsOf(defs[t].columns, cols)) then Err(UniqueFailed(t))
      else Ok(Index(t, cols))
  }

  /** The test a unique index makes of the rows already stored. */
  predicate Distinct(rs: seq<Row>, pos: Positions) {
    forall i, j | 0 <= i < j < |rs| :: Key(rs[i], pos) == Key(rs[j], pos) ==> HasNull(Key(rs[i], pos))
  }

  lemma DistinctIsUnique(rs: seq<Row>, pos: Positions)
    ensures Distinct(rs, pos) <==> UniqueOn(rs, pos)
  {
  }

  // Foreign key check

  /** Foreign key `fk` of table `t` finds no parent row for row `r`, and its key has no NULL. */
  predicate Orphan(defs: map<string, TableDef>, rows: map<string, seq<Row>>, t: string, r: Row, fk: ForeignKey)
    requires t in defs
  {
    var ck := Key(r, PositionsOf(defs[t].columns, fk.columns));
    var p := fk.parentTable;
    !HasNull(ck) && (p !in defs || p !in rows || ck !in Keys(rows[p], PositionsOf(defs[p].columns, fk.columns)))
  }

  /**
   * The rows `PRAGMA foreign_key_check` reports. SQLite numbers a table's foreign keys from
   * the last declared, so the key at position `k` has id `|fks| - 1 - k`.
   */
  function ViolationSet(defs: map<string, TableDef>, rows: map<string, seq<Row>>): set<Violation> {
    set t, i, k | t in defs && t in rows && 0 <= i < |rows[t]| && 0 <= k < |defs[t].foreignKeys|
                  && Orphan(defs, rows, t, rows[t][i], defs[t].foreignKeys[k]) ::
      Violation(t, rows[t][i].rowid, defs[t].foreignKeys[k].parentTable, |defs[t].foreignKeys| - 1 - k)
  }

  /** A foreign key whose parent table exists but has no unique index on the key. */
  predicate Mismatch(defs: map<string, TableDef>, indexes: set<Index>) {
    exists t, k | t in defs && 0 <= k < |defs[t].foreignKeys| ::
      defs[t].foreignKeys[k].parentTable in defs &&
      Index(defs[t].foreignKeys[k].parentTable, defs[t].foreignKeys[k].columns) !in indexes
  }

  function ForeignKeyCheckOutcome(defs: map<string, TableDef>, rows: map<string, seq<Row>>, indexes: set<Index>)
    : Result<set<Violation>, DbError>
  {
    if Mismatch(defs, indexes) then Err(ForeignKeyMismatch) else Ok(ViolationSet(defs, rows))
  }

  // Each statement keeps the state valid

  lemma CreateTableValid(defs: map<string, TableDef>, rows: map<string, seq<Row>>, indexes: set<Index>, t: string, td: TableDef)
    requires ValidState(defs, rows, indexes)
    requires CreateTableOutcome(defs, t, td).Pass?
    ensures ValidState(defs[t := td], rows[t := []], indexes)
  {
  }

  /** A new row whose key repeats no stored NULL-free key keeps the index. */
  lemma AppendUnique(rs: seq<Row>, pos: Positions, x: Row)
    requires UniqueOn(rs, pos)
    requires forall i | 0 <= i < |rs| :: HasNull(Key(x, pos)) || Key(rs[i], pos) != Key(x, pos)
    ensures UniqueOn(rs + [x], pos)
  {
    var s := rs + [x];
    forall i, j | 0 <= i < j < |s| && Key(s[i], pos) == Key(s[j], pos) ensures HasNull(Key(s[i], pos)) {
      if j < |rs| {
        assert s[i] == rs[i] && s[j] == rs[j];
      } else {
        assert s[i] == rs[i] && s[j] == x;
      }
    }
  }

  lemma InsertValid(defs: map<string, TableDef>, rows: map<string, seq<Row>>, indexes: set<Index>, t: string, vals: seq<Value>)
    requires ValidState(defs, rows, indexes)
    requires InsertOutcome(defs, rows, indexes, t, vals).Ok?
    ensures ValidState(defs, rows[t := InsertOutcome(defs, rows, indexes, t, vals).value], indexes)
  {
    var x := Row(NextRowid(rows[t]), vals);
    AppendIncreasing(rows[t], vals);
    forall ix | ix in indexes && ix.table == t
      ensures UniqueOn(rows[t] + [x], PositionsOf(defs[t].columns, ix.columns))
    {
      var pos := PositionsOf(defs[t].columns, ix.columns);
      assert pos in IndexKeys(defs, indexes, t);
      assert Key(x, pos) == Key(Row(0, vals), pos);
      AppendUnique(rows[t], pos, x);
    }
  }

  /** Deleting rows keeps a unique index: the survivors are some of the rows, in order. */
  lemma WithoutUnique(rs: seq<Row>, pos: Positions, ids: set<int>)
    requires Increasing(rs) && UniqueOn(rs, pos)
    ensures UniqueOn(Without(rs, ids), pos)
  {
    var w := Without(rs, ids);
    WithoutMembers(rs, ids);
    WithoutIncreasing(rs, ids);
    forall i, j | 0 <= i < j < |w| && Key(w[i], pos) == Key(w[j], pos) ensures HasNull(Key(w[i], pos)) {
      assert w[i] in w && w[j] in w;
      var p :| 0 <= p < |rs| && rs[p] == w[i];
      var q :| 0 <= q < |rs| && rs[q] == w[j];
      assert w[i].rowid < w[j].rowid;
      if q < p {
        assert Key(rs[q], pos) == Key(rs[p], pos);
      }
    }
  }

  lemma DeleteValid(defs: map<string, TableDef>, rows: map<string, seq<Row>>, indexes: set<Index>, t: string, ids: set<int>)
    requires ValidState(defs, rows, indexes) && t in rows
    ensures ValidState(defs, rows[t := Without(rows[t], ids)], indexes)
  {
    WithoutIncreasing(rows[t], ids);
    forall ix | ix in indexes && ix.table == t
      ensures UniqueOn(Without(rows[t], ids), PositionsOf(defs[t].columns, ix.columns))
    {
      WithoutUnique(rows[t], PositionsOf(defs[t].columns, ix.columns), ids);
    }
  }

  lemma IndexValid(defs: map<string, TableDef>, rows: map<string, seq<Row>>, indexes: set<Index>, stmt: string)
    requires ValidState(defs, rows, indexes)
    requires IndexOutcome(defs, rows, stmt).Ok?
    ensures ValidState(defs, rows, indexes + {IndexOutcome(defs, rows, stmt).value})
  {
    var ix := IndexOutcome(defs, rows, stmt).value;
    DistinctIsUnique(rows[ix.table], PositionsOf(defs[ix.table].columns, ix.columns));
  }

  /** The database: its tables' definitions, their rows, and the unique indexes made so far. */
  class Db {
    var defs: map<string, TableDef>
    var rows: map<string, seq<Row>>
    var indexes: set<Index>

    ghost predicate Valid()
      reads this
    {
      ValidState(defs, rows, indexes)
    }

    constructor ()
      ensures Valid() && defs == map[] && rows == map[] && indexes == {}
    {
      defs, rows, indexes := map[], map[], {};
    }

    method CreateTable(t: string, td: TableDef) returns (r: Outcome<DbError>)
      requires Valid()
      modifies this
      ensures Valid()
      ensures r == CreateTableOutcome(old(defs), t, td)
      ensures r.Pass? ==> defs == old(defs)[t := td] && rows == old(rows)[t := []]
      ensures r.Fail? ==> defs == old(defs) && rows == old(rows)
      ensures indexes == old(indexes)
    {
      r := CreateTableOutcome(defs, t, td);
      if r.Pass? {
        CreateTableValid(defs, rows, indexes, t, td);
        defs := defs[t := td];
        rows := rows[t := []];
      }
    }

    method Insert(t: string, vals: seq<Value>) returns (r: Outcome<DbError>)
      requires Valid()
      modifies this
      ensures Valid()
      ensures defs == old(defs) && indexes == old(indexes)
      ensures match InsertOutcome(old(defs), old(rows), old(indexes), t, vals)
        case Ok(rs) => r == Pass && rows == old(rows)[t := rs]
        case Err(e) => r == Fail(e) && rows == old(rows)
    {
      var res := InsertOutcome(defs, rows, indexes, t, vals);
      match res
      case Err(e) => r := Fail(e);
      case Ok(rs) =>
        InsertValid(defs, rows, indexes, t, vals);
        rows := rows[t := rs];
        r := Pass;
    }

    /** `DELETE FROM t WHERE rowid = ?`: deleting a rowid that is not there changes nothing. */
    method Delete(t: string, rowid: int) returns (r: Outcome<DbError>)
      requires Valid()
      modifies this
      ensures Valid()
      ensures defs == old(defs) && indexes == old(indexes)
      ensures r.Pass? <==> t in old(rows)
      ensures r.Pass? ==> rows == old(rows)[t := Without(old(rows)[t], {rowid})]
      ensures r.Fail? ==> r.error == NoSuchTable(t) && rows == old(rows)
    {
      if t !in rows {
        return Fail(NoSuchTable(t));
      }
      DeleteValid(defs, rows, indexes, t, {rowid});
      rows := rows[t := Without(rows[t], {rowid})];
      r := Pass;
    }

    method CreateIndex(stmt: string) returns (r: Outcome<DbError>)
      requires Valid()
      modifies this
      ensures Valid()
      ensures defs == old(defs) && rows == old(rows)
      ensures match IndexOutcome(old(defs), old(rows), stmt)
        case Ok(ix) => r == Pass && indexes == old(indexes) + {ix}
        case Err(e) => r == Fail(e) && indexes == old(indexes)
    {
      var res := IndexOutcome(defs, rows, stmt);
      match res
      case Err(e) => r := Fail(e);
      case Ok(ix) =>
        IndexValid(defs, rows, indexes, stmt);
        indexes := indexes + {ix};
        r := Pass;
    }

    /** Puts back the rows a transaction started from. */
    method Rollback(saved: map<string, seq<Row>>)
      requires Valid() && ValidState(defs, saved, indexes)
      modifies this
      ensures Valid()
      ensures defs == old(defs) && indexes == old(indexes) && rows == saved
    {
      rows := saved;
    }

    /** `SELECT key FROM t GROUP BY key HAVING count(*) > 1`. */
    method DuplicateGroups(t: string, key: seq<string>) returns (r: Result<set<seq<Value>>, DbError>)
      requires Valid()
      ensures r.Ok? <==> t in defs && AllColumns(defs[t].columns, key)
      ensures r.Ok? ==> r.value == DuplicateKeys(rows[t], PositionsOf(defs[t].columns, key))
      ensures !(t in defs) ==> r == Err(NoSuchTable(t))
    {
      if t !in defs {
        return Err(NoSuchTable(t));
      }
      if !AllColumns(defs[t].columns, key) {
        return Err(NoSuchColumn(t));
      }
      r := Ok(DuplicateKeys(rows[t], PositionsOf(defs[t].columns, key)));
    }

    /** `SELECT rowid FROM t WHERE c1 = ? AND ... ORDER BY rowid` with `vals` bound. */
    method RowidsMatching(t: string, key: seq<string>, vals: seq<Value>) returns (r: Result<seq<int>, DbError>)
      requires Valid()
      ensures r.Ok? <==> t in defs && AllColumns(defs[t].columns, key)
      ensures r.Ok? ==> r.value == RowidsWithKey(rows[t], PositionsOf(defs[t].columns, key), vals)
    {
      if t !in defs {
        return Err(NoSuchTable(t));
      }
      if !AllColumns(defs[t].columns, key) {
        return Err(NoSuchColumn(t));
      }
      r := Ok(RowidsWithKey(rows[t], PositionsOf(defs[t].columns, key), vals));
    }

    /** `PRAGMA foreign_key_check`. */
    method ForeignKeyCheck() returns (r: Result<set<Violation>, DbError>)
      requires Valid()
      ensures r == ForeignKeyCheckOutcome(defs, rows, indexes)
    {
      r := ForeignKeyCheckOutcome(defs, rows, indexes);
    }
  }
}
