/**
 * The repair engine of nasr.go: `deduplicateParents` makes every unique index, thinning a
 * table's duplicate keys to their lowest rowid when the index will not go on, and
 * `deleteOrphans` deletes every child row the foreign key check reports.
 */
module Repair {
  import opened Wrappers
  import opened Sets
  import opened Schema
  import opened ForeignKeys
  import opened Rows
  import opened UniqueIndex
  import opened Database

  datatype RepairError =
    | CreateIndexFailed(stmt: string)
    | FindDuplicatesFailed(table: string)
    | FindRowidsFailed(table: string)
    | DeleteDuplicateFailed(table: string, rowid: int)
    | CreateIndexAfterDedupFailed(stmt: string)

  // Deduplication

  /** The loop over `rowids[1:]`: one `DELETE` per rowid. */
  method DeleteRowids(db: Db, t: string, rowids: seq<int>) returns (r: Outcome<RepairError>)
    requires db.Valid() && t in db.rows
    modifies db
    ensures db.Valid()
    ensures db.defs == old(db.defs) && db.indexes == old(db.indexes)
    ensures r == Pass && db.rows == old(db.rows)[t := Without(old(db.rows)[t], Elements(rowids))]
  {
    ghost var start := db.rows[t];
    ghost var deleted: set<int> := {};
    WithoutNone(start, {});
    assert old(db.rows)[t := start] == old(db.rows);
    var k := 0;
    while k < |rowids|
      invariant 0 <= k <= |rowids|
      invariant db.Valid() && db.defs == old(db.defs) && db.indexes == old(db.indexes)
      invariant deleted == Elements(rowids[..k])
      invariant db.rows == old(db.rows)[t := Without(start, deleted)]
    {
      var res := db.Delete(t, rowids[k]);
      WithoutWithout(start, deleted, {rowids[k]});
      ElementsSnoc(rowids, k);
      deleted := deleted + {rowids[k]};
      k := k + 1;
    }
    assert rowids[..k] == rowids;
    r := Pass;
  }

  lemma ElementsSnoc(xs: seq<int>, k: nat)
    requires k < |xs|
    ensures Elements(xs[..k + 1]) == Elements(xs[..k]) + {xs[k]}
  {
    var a, b := xs[..k + 1], xs[..k];
    assert forall i | 0 <= i < k :: a[i] == b[i];
    assert a[k] == xs[k];
  }

  /**
   * The loop over the duplicate groups of one index. The groups come from one `GROUP BY`
   * query, in an order the model leaves open; before each group, the table is the original
   * with the groups done so far thinned.
   */
  method ThinGroups(db: Db, t: string, key: seq<string>, groups: set<seq<Value>>) returns (r: Outcome<RepairError>)
    requires db.Valid() && t in db.defs && AllColumns(db.defs[t].columns, key)
    modifies db
    ensures db.Valid()
    ensures db.defs == old(db.defs) && db.indexes == old(db.indexes)
    ensures r == Pass
    ensures db.rows == old(db.rows)[t := Without(old(db.rows)[t],
      LaterDuplicates(old(db.rows)[t], PositionsOf(old(db.defs)[t].columns, key), groups))]
  {
    ghost var start := db.rows;
    ghost var orig := db.rows[t];
    ghost var pos := PositionsOf(db.defs[t].columns, key);
    ghost var done: set<seq<Value>> := {};
    var todo := groups;
    assert LaterDuplicates(orig, pos, done) == {};
    WithoutNone(orig, {});
    assert start[t := orig] == start;
    while todo != {}
      invariant todo <= groups && done == groups - todo
      invariant db.Valid() && db.defs == old(db.defs) && db.indexes == old(db.indexes)
      invariant db.rows == start[t := Without(orig, LaterDuplicates(orig, pos, done))]
      decreases |todo|
    {
      var g :| g in todo;
      ghost var next := Without(orig, LaterDuplicates(orig, pos, done + {g}));
      DedupStep(orig, pos, done, g);
      ThinGroup(db, t, key, g);
      UpdateTwice(start, t, Without(orig, LaterDuplicates(orig, pos, done)), next);
      todo := todo - {g};
      done := done + {g};
    }
    assert done == groups;
    r := Pass;
  }

  /** One duplicate group: its rowids in ascending order, then all but the first deleted. */
  method ThinGroup(db: Db, t: string, key: seq<string>, g: seq<Value>)
    requires db.Valid() && t in db.defs && AllColumns(db.defs[t].columns, key)
    modifies db
    ensures db.Valid()
    ensures db.defs == old(db.defs) && db.indexes == old(db.indexes)
    ensures db.rows == old(db.rows)[t := Without(old(db.rows)[t],
      Tail(RowidsWithKey(old(db.rows)[t], PositionsOf(old(db.defs)[t].columns, key), g)))]
  {
    var found := db.RowidsMatching(t, key, g);
    var rowids := found.value;
    if |rowids| >= 2 {
      var _ := DeleteRowids(db, t, rowids[1..]);
      TailElements(rowids);
    } else {
      assert Tail(rowids) == {};
      WithoutNone(db.rows[t], {});
      assert db.rows[t := db.rows[t]] == db.rows;
    }
  }

  lemma TailElements(ids: seq<int>)
    requires ids != []
    ensures Elements(ids[1..]) == Tail(ids)
  {
    var s := ids[1..];
    assert forall k | 0 <= k < |s| :: s[k] == ids[k + 1];
    forall x | x in Tail(ids) ensures x in Elements(s) {
      var k :| 1 <= k < |ids| && ids[k] == x;
      assert s[k - 1] == x;
    }
  }

  lemma UpdateTwice(m: map<string, seq<Row>>, t: string, a: seq<Row>, b: seq<Row>)
    ensures m[t := a][t := b] == m[t := b]
  {
  }

  /** The tables and indexes after statements of `deduplicateParents`, and how the last one ended. */
  datatype RepairState = RepairState(rows: map<string, seq<Row>>, indexes: set<Index>, outcome: Outcome<RepairError>)

  /**
   * What one statement of `deduplicateParents` does to the database. The statement is read
   * as `CREATE UNIQUE INDEX` reads it; one that cannot be read fails. On a missing table or
   * column the index and then the duplicate query fail. Otherwise the index goes on at once
   * when the stored keys are distinct, and goes on at the retry after the table has been
   * deduplicated on its columns when they are not.
   */
  ghost function EnsureIndexStep(defs: map<string, TableDef>, rows: map<string, seq<Row>>, indexes: set<Index>,
                                 stmt: string): RepairState
  {
    match ParsedIndex(stmt)
    case Err(_) => RepairState(rows, indexes, Fail(CreateIndexFailed(stmt)))
    case Ok((t, key)) =>
      if t !in defs || t !in rows || !AllColumns(defs[t].columns, key) then
        RepairState(rows, indexes, Fail(FindDuplicatesFailed(t)))
      else if Distinct(rows[t], PositionsOf(defs[t].columns, key)) then
        RepairState(rows, indexes + {Index(t, key)}, Pass)
      else
        RepairState(rows[t := Deduplicated(rows[t], PositionsOf(defs[t].columns, key))], indexes + {Index(t, key)}, Pass)
  }

  method EnsureIndex(db: Db, stmt: string) returns (r: Outcome<RepairError>)
    requires db.Valid()
    modifies db
    ensures db.Valid() && db.defs == old(db.defs)
    ensures RepairState(db.rows, db.indexes, r) == EnsureIndexStep(old(db.defs), old(db.rows), old(db.indexes), stmt)
  {
    var first := db.CreateIndex(stmt);
    if first.Pass? {
      return Pass;
    }
    var parsed := ParseUniqueIndex(stmt);
    if parsed.Err? {
      return Fail(CreateIndexFailed(stmt));
    }
    var (t, key) := parsed.value;
    var groups := db.DuplicateGroups(t, key);
    if groups.Err? {
      return Fail(FindDuplicatesFailed(t));
    }
    ghost var orig := db.rows[t];
    ghost var pos := PositionsOf(db.defs[t].columns, key);
    var _ := ThinGroups(db, t, key, groups.value);
    assert db.rows[t] == Deduplicated(orig, pos);
    DeduplicatedUnique(orig, pos);
    DistinctIsUnique(db.rows[t], pos);
    var retry := db.CreateIndex(stmt);
    if retry.Fail? {
      return Fail(CreateIndexAfterDedupFailed(stmt));
    }
    r := Pass;
  }

  /** The unique index a generated statement asks for, when it can be read. */
  function IndexOf(stmt: string): Option<Index> {
    match ParsedIndex(stmt)
    case Ok((t, key)) => Some(Index(t, key))
    case Err(_) => None
  }

  /** The index `stmt` asks for is one of `indexes`. */
  ghost predicate Installed(stmt: string, indexes: set<Index>) {
    IndexOf(stmt).Some? && IndexOf(stmt).value in indexes
  }

  lemma InstalledMono(stmt: string, small: set<Index>, large: set<Index>)
    requires Installed(stmt, small) && small <= large
    ensures Installed(stmt, large)
  {
  }

  /** The same tables, each holding some of the rows it held before. */
  ghost predicate Shrunk(before: map<string, seq<Row>>, after: map<string, seq<Row>>) {
    && after.Keys == before.Keys
    && forall t | t in after :: forall x | x in after[t] :: x in before[t]
  }

  lemma ShrunkTrans(a: map<string, seq<Row>>, b: map<string, seq<Row>>, c: map<string, seq<Row>>)
    requires Shrunk(a, b) && Shrunk(b, c)
    ensures Shrunk(a, c)
  {
  }

  /** Every table in rowid order. */
  ghost predicate Ordered(rows: map<string, seq<Row>>) {
    forall t | t in rows :: Increasing(rows[t])
  }

  /** One statement: tables only lose rows and keep their order, and no index is dropped. */
  lemma EnsureIndexShrinks(defs: map<string, TableDef>, rows: map<string, seq<Row>>, indexes: set<Index>, stmt: string)
    requires Ordered(rows)
    ensures var st := EnsureIndexStep(defs, rows, indexes, stmt);
      Shrunk(rows, st.rows) && Ordered(st.rows) && indexes <= st.indexes
  {
    match ParsedIndex(stmt)
    case Err(_) =>
    case Ok((t, key)) =>
      if t in defs && t in rows && AllColumns(defs[t].columns, key) {
        var pos := PositionsOf(defs[t].columns, key);
        DeduplicatedMembers(rows[t], pos);
        DeduplicatedUnique(rows[t], pos);
        ShrunkByUpdate(rows, t, Deduplicated(rows[t], pos));
      }
  }

  lemma ShrunkByUpdate(rows: map<string, seq<Row>>, t: string, rs: seq<Row>)
    requires t in rows && forall x | x in rs :: x in rows[t]
    ensures Shrunk(rows, rows[t := rs])
  {
  }

  /** One statement that succeeds has exactly the index it names in place. */
  lemma EnsureIndexInstalls(defs: map<string, TableDef>, rows: map<string, seq<Row>>, indexes: set<Index>, stmt: string)
    ensures var st := EnsureIndexStep(defs, rows, indexes, stmt);
      indexes <= st.indexes && (st.outcome.Pass? ==> Installed(stmt, st.indexes))
  {
  }

  /** One statement that fails changes nothing, and the retry after deduplication is never the error. */
  lemma EnsureIndexFails(defs: map<string, TableDef>, rows: map<string, seq<Row>>, indexes: set<Index>, stmt: string)
    ensures var st := EnsureIndexStep(defs, rows, indexes, stmt);
      st.outcome.Fail? ==> !st.outcome.error.CreateIndexAfterDedupFailed? && st.rows == rows && st.indexes == indexes
  {
  }

  /** One statement changes at most the table of the index it names. */
  lemma EnsureIndexTouchesOnlyIndexed(defs: map<string, TableDef>, rows: map<string, seq<Row>>, indexes: set<Index>,
                                      stmt: string, u: string)
    requires u in rows && (IndexOf(stmt).Some? ==> IndexOf(stmt).value.table != u)
    ensures var st := EnsureIndexStep(defs, rows, indexes, stmt);
      u in st.rows && st.rows[u] == rows[u]
  {
  }

  /**
   * `deduplicateParents` over its statements in order: each statement is one `EnsureIndexStep`
   * on what the statements before it left, and the first failing statement ends the run.
   */
  ghost function DedupOutcome(defs: map<string, TableDef>, rows: map<string, seq<Row>>, indexes: set<Index>,
                              stmts: seq<string>): RepairState
    decreases |stmts|
  {
    if stmts == [] then RepairState(rows, indexes, Pass)
    else
      var st := DedupOutcome(defs, rows, indexes, stmts[..|stmts| - 1]);
      if st.outcome.Fail? then st
      else EnsureIndexStep(defs, st.rows, st.indexes, stmts[|stmts| - 1])
  }

  /** One more statement, after statements that all succeeded. */
  lemma DedupNext(defs: map<string, TableDef>, rows: map<string, seq<Row>>, indexes: set<Index>,
                  stmts: seq<string>, i: nat, cur: map<string, seq<Row>>, curIndexes: set<Index>)
    requires i < |stmts|
    requires DedupOutcome(defs, rows, indexes, stmts[..i]) == RepairState(cur, curIndexes, Pass)
    ensures DedupOutcome(defs, rows, indexes, stmts[..i + 1]) == EnsureIndexStep(defs, cur, curIndexes, stmts[i])
  {
    assert stmts[..i + 1][..i] == stmts[..i];
  }

  /** Once a statement fails, the statements after it are not run. */
  lemma {:induction false} DedupFailurePersists(defs: map<string, TableDef>, rows: map<string, seq<Row>>, indexes: set<Index>,
                                                stmts: seq<string>, k: nat)
    requires k <= |stmts|
    requires DedupOutcome(defs, rows, indexes, stmts[..k]).outcome.Fail?
    ensures DedupOutcome(defs, rows, indexes, stmts) == DedupOutcome(defs, rows, indexes, stmts[..k])
    decreases |stmts|
  {
    if k < |stmts| {
      var init := stmts[..|stmts| - 1];
      assert init[..k] == stmts[..k];
      DedupFailurePersists(defs, rows, indexes, init, k);
    } else {
      assert stmts[..k] == stmts;
    }
  }

  /** The whole run: tables only lose rows and keep their order, and no index is dropped. */
  lemma {:induction false} DedupShrinks(defs: map<string, TableDef>, rows: map<string, seq<Row>>, indexes: set<Index>,
                                        stmts: seq<string>)
    requires Ordered(rows)
    ensures var st := DedupOutcome(defs, rows, indexes, stmts);
      Shrunk(rows, st.rows) && Ordered(st.rows) && indexes <= st.indexes
    decreases |stmts|
  {
    if stmts != [] {
      var init := stmts[..|stmts| - 1];
      DedupShrinks(defs, rows, indexes, init);
      var st := DedupOutcome(defs, rows, indexes, init);
      if st.outcome.Pass? {
        EnsureIndexShrinks(defs, st.rows, st.indexes, stmts[|stmts| - 1]);
        ShrunkTrans(rows, st.rows, EnsureIndexStep(defs, st.rows, st.indexes, stmts[|stmts| - 1]).rows);
      }
    }
  }

  /** A run that succeeds has the index of every statement in place. */
  lemma {:induction false} DedupInstalls(defs: map<string, TableDef>, rows: map<string, seq<Row>>, indexes: set<Index>,
                                         stmts: seq<string>)
    ensures var st := DedupOutcome(defs, rows, indexes, stmts);
      st.outcome.Pass? ==> forall i | 0 <= i < |stmts| :: Installed(stmts[i], st.indexes)
    decreases |stmts|
  {
    if stmts != [] {
      var init, last := stmts[..|stmts| - 1], stmts[|stmts| - 1];
      DedupInstalls(defs, rows, indexes, init);
      var st := DedupOutcome(defs, rows, indexes, init);
      if st.outcome.Pass? {
        var next := EnsureIndexStep(defs, st.rows, st.indexes, last);
        assert DedupOutcome(defs, rows, indexes, stmts) == next;
        EnsureIndexInstalls(defs, st.rows, st.indexes, last);
        if next.outcome.Pass? {
          assert forall i | 0 <= i < |init| :: init[i] == stmts[i];
          InstalledSnoc(stmts, st.indexes, next.indexes);
        }
      }
    }
  }

  /** Statements installed before a step stay installed after it, since indexes only grow. */
  lemma InstalledSnoc(stmts: seq<string>, small: set<Index>, large: set<Index>)
    requires stmts != [] && small <= large
    requires forall i | 0 <= i < |stmts| - 1 :: Installed(stmts[i], small)
    requires Installed(stmts[|stmts| - 1], large)
    ensures forall i | 0 <= i < |stmts| :: Installed(stmts[i], large)
  {
    forall i | 0 <= i < |stmts| ensures Installed(stmts[i], large) {
      if i < |stmts| - 1 {
        InstalledMono(stmts[i], small, large);
      }
    }
  }

  /** A run that fails stops at an error the first attempt or the queries raise, never at the retry. */
  lemma {:induction false} DedupFails(defs: map<string, TableDef>, rows: map<string, seq<Row>>, indexes: set<Index>,
                                      stmts: seq<string>)
    ensures var st := DedupOutcome(defs, rows, indexes, stmts);
      st.outcome.Fail? ==> !st.outcome.error.CreateIndexAfterDedupFailed?
    decreases |stmts|
  {
    if stmts != [] {
      DedupFails(defs, rows, indexes, stmts[..|stmts| - 1]);
      var st := DedupOutcome(defs, rows, indexes, stmts[..|stmts| - 1]);
      if st.outcome.Pass? {
        EnsureIndexFails(defs, st.rows, st.indexes, stmts[|stmts| - 1]);
      }
    }
  }

  /** A table that no statement names comes through the whole run unchanged. */
  lemma {:induction false} DedupTouchesOnlyIndexed(defs: map<string, TableDef>, rows: map<string, seq<Row>>, indexes: set<Index>,
                                                   stmts: seq<string>, u: string)
    requires u in rows
    requires forall i | 0 <= i < |stmts| :: IndexOf(stmts[i]).Some? ==> IndexOf(stmts[i]).value.table != u
    ensures var st := DedupOutcome(defs, rows, indexes, stmts);
      u in st.rows && st.rows[u] == rows[u]
    decreases |stmts|
  {
    if stmts != [] {
      var init := stmts[..|stmts| - 1];
      assert forall i | 0 <= i < |init| :: init[i] == stmts[i];
      DedupTouchesOnlyIndexed(defs, rows, indexes, init, u);
      var st := DedupOutcome(defs, rows, indexes, init);
      if st.outcome.Pass? {
        EnsureIndexTouchesOnlyIndexed(defs, st.rows, st.indexes, stmts[|stmts| - 1], u);
      }
    }
  }

  /**
   * `deduplicateParents`: the statements in order, stopping at the first error. The resulting
   * tables, indexes and outcome are those of `DedupOutcome`.
   */
  method DeduplicateParents(db: Db, createIndexes: seq<string>) returns (r: Outcome<RepairError>)
    requires db.Valid()
    modifies db
    ensures db.Valid() && db.defs == old(db.defs)
    ensures RepairState(db.rows, db.indexes, r) == DedupOutcome(old(db.defs), old(db.rows), old(db.indexes), createIndexes)
  {
    ghost var defs, rows, indexes := db.defs, db.rows, db.indexes;
    var i := 0;
    while i < |createIndexes|
      invariant 0 <= i <= |createIndexes|
      invariant db.Valid() && db.defs == defs
      invariant DedupOutcome(defs, rows, indexes, createIndexes[..i]) == RepairState(db.rows, db.indexes, Pass)
    {
      DedupNext(defs, rows, indexes, createIndexes, i, db.rows, db.indexes);
      r := EnsureIndex(db, createIndexes[i]);
      if r.Fail? {
        DedupFailurePersists(defs, rows, indexes, createIndexes, i + 1);
        return;
      }
      i := i + 1;
    }
    assert createIndexes[..i] == createIndexes;
    r := Pass;
  }
}
