/**
 * `deleteOrphans` of nasr.go: one `PRAGMA foreign_key_check`, read in full, and then one
 * `DELETE ... WHERE rowid = ?` per reported violation.
 */
module Orphans {
  import opened Wrappers
  import opened Schema
  import opened ForeignKeys
  import opened Rows
  import opened Database

  datatype OrphanError = CheckFailed

  /** The rowids of table `t` that the violations name. */
  function RowidsIn(vs: set<Violation>, t: string): set<int> {
    set v | v in vs && v.table == t :: v.rowid
  }

  /** Every table with the rows the violations name deleted, and nothing else changed. */
  function OrphansRemoved(rows: map<string, seq<Row>>, vs: set<Violation>): map<string, seq<Row>> {
    map t | t in rows :: Without(rows[t], RowidsIn(vs, t))
  }

  /**
   * `deleteOrphans`: the violations are collected before anything is deleted, then each one
   * deletes its row from its child table, in whatever order the check reports them.
   */
  method DeleteOrphans(db: Db) returns (r: Outcome<OrphanError>)
    requires db.Valid()
    modifies db
    ensures db.Valid() && db.defs == old(db.defs) && db.indexes == old(db.indexes)
    ensures r.Fail? <==> Mismatch(old(db.defs), old(db.indexes))
    ensures r.Fail? ==> r.error == CheckFailed && db.rows == old(db.rows)
    ensures r.Pass? ==> db.rows == OrphansRemoved(old(db.rows), ViolationSet(old(db.defs), old(db.rows)))
  {
    var check := db.ForeignKeyCheck();
    if check.Err? {
      return Fail(CheckFailed);
    }
    DeleteViolations(db, check.value);
    r := Pass;
  }

  /** The deletion loop of `deleteOrphans`, over the violations already collected. */
  method DeleteViolations(db: Db, vs: set<Violation>)
    requires db.Valid()
    modifies db
    ensures db.Valid() && db.defs == old(db.defs) && db.indexes == old(db.indexes)
    ensures db.rows == OrphansRemoved(old(db.rows), vs)
  {
    ghost var start := db.rows;
    OrphansRemovedNone(start);
    var done: set<Violation> := {};
    while done != vs
      invariant done <= vs
      invariant db.Valid() && db.defs == old(db.defs) && db.indexes == old(db.indexes)
      invariant db.rows == OrphansRemoved(start, done)
      decreases |vs - done|
    {
      var v :| v in vs - done;
      ghost var before := db.rows;
      var _ := db.Delete(v.table, v.rowid);
      OrphansRemovedStep(start, done, v, before, db.rows);
      assert vs - (done + {v}) < vs - done;
      done := done + {v};
    }
  }

  lemma OrphansRemovedNone(rows: map<string, seq<Row>>)
    ensures OrphansRemoved(rows, {}) == rows
  {
    forall t | t in rows ensures Without(rows[t], RowidsIn({}, t)) == rows[t] {
      assert RowidsIn({}, t) == {};
      WithoutNone(rows[t], {});
    }
  }

  /** One more violation deletes one more rowid from its own table. */
  lemma OrphansRemovedStep(rows: map<string, seq<Row>>, done: set<Violation>, v: Violation,
                           before: map<string, seq<Row>>, after: map<string, seq<Row>>)
    requires before == OrphansRemoved(rows, done)
    requires v.table in before ==> after == before[v.table := Without(before[v.table], {v.rowid})]
    requires v.table !in before ==> after == before
    ensures after == OrphansRemoved(rows, done + {v})
  {
    var a := OrphansRemoved(rows, done + {v});
    forall t | t in rows ensures a[t] == after[t] {
      if t == v.table {
        assert RowidsIn(done + {v}, t) == RowidsIn(done, t) + {v.rowid};
        WithoutWithout(rows[t], RowidsIn(done, t), {v.rowid});
      } else {
        assert RowidsIn(done + {v}, t) == RowidsIn(done, t);
      }
    }
  }

  /** Row `x` of table `t` is an orphan under one of the table's foreign keys. */
  predicate OrphanRow(defs: map<string, TableDef>, rows: map<string, seq<Row>>, t: string, x: Row)
    requires t in defs
  {
    exists k | 0 <= k < |defs[t].foreignKeys| :: Orphan(defs, rows, t, x, defs[t].foreignKeys[k])
  }

  /**
   * One pass deletes exactly the orphans: a row of a table survives if and only if no foreign
   * key of its table finds it orphaned, and the table keeps its order.
   */
  lemma OrphansRemovedMembers(defs: map<string, TableDef>, rows: map<string, seq<Row>>, indexes: set<Index>, t: string)
    requires ValidState(defs, rows, indexes) && t in rows
    ensures t in OrphansRemoved(rows, ViolationSet(defs, rows))
    ensures forall x :: x in OrphansRemoved(rows, ViolationSet(defs, rows))[t] <==> x in rows[t] && !OrphanRow(defs, rows, t, x)
  {
    var vs := ViolationSet(defs, rows);
    var rs := rows[t];
    WithoutMembers(rs, RowidsIn(vs, t));
    forall x | x in rs ensures x.rowid in RowidsIn(vs, t) <==> OrphanRow(defs, rows, t, x) {
      var i :| 0 <= i < |rs| && rs[i] == x;
      if OrphanRow(defs, rows, t, x) {
        var k :| 0 <= k < |defs[t].foreignKeys| && Orphan(defs, rows, t, x, defs[t].foreignKeys[k]);
        ViolationOf(defs, rows, t, i, k);
      }
      if x.rowid in RowidsIn(vs, t) {
        var v :| v in vs && v.table == t && v.rowid == x.rowid;
        var j, k := ViolationFrom(defs, rows, v);
        RowidsDetermine(rs, i, j);
      }
    }
  }

  /** An orphan under the key at position `k` is reported. */
  lemma ViolationOf(defs: map<string, TableDef>, rows: map<string, seq<Row>>, t: string, i: int, k: int)
    requires t in defs && t in rows && 0 <= i < |rows[t]| && 0 <= k < |defs[t].foreignKeys|
    requires Orphan(defs, rows, t, rows[t][i], defs[t].foreignKeys[k])
    ensures Violation(t, rows[t][i].rowid, defs[t].foreignKeys[k].parentTable, |defs[t].foreignKeys| - 1 - k)
            in ViolationSet(defs, rows)
  {
  }

  /** A reported violation comes from an orphan row of its table. */
  lemma ViolationFrom(defs: map<string, TableDef>, rows: map<string, seq<Row>>, v: Violation) returns (i: int, k: int)
    requires v in ViolationSet(defs, rows)
    ensures v.table in defs && v.table in rows && 0 <= i < |rows[v.table]| && 0 <= k < |defs[v.table].foreignKeys|
    ensures Orphan(defs, rows, v.table, rows[v.table][i], defs[v.table].foreignKeys[k])
    ensures rows[v.table][i].rowid == v.rowid && defs[v.table].foreignKeys[k].parentTable == v.parent
    ensures v.fkid == |defs[v.table].foreignKeys| - 1 - k
  {
    var t, i', k' :| t in defs && t in rows && 0 <= i' < |rows[t]| && 0 <= k' < |defs[t].foreignKeys|
      && Orphan(defs, rows, t, rows[t][i'], defs[t].foreignKeys[k'])
      && v == Violation(t, rows[t][i'].rowid, defs[t].foreignKeys[k'].parentTable, |defs[t].foreignKeys| - 1 - k');
    i, k := i', k';
  }

  /** In a table whose rowids increase, a rowid names one row. */
  lemma RowidsDetermine(rs: seq<Row>, i: int, j: int)
    requires Increasing(rs) && 0 <= i < |rs| && 0 <= j < |rs|
    requires rs[i].rowid == rs[j].rowid
    ensures i == j
  {
  }

  /** A table no violation names comes through unchanged. */
  lemma OrphansRemovedUntouched(rows: map<string, seq<Row>>, vs: set<Violation>, t: string)
    requires t in rows
    requires forall v | v in vs :: v.table != t
    ensures OrphansRemoved(rows, vs)[t] == rows[t]
  {
    assert RowidsIn(vs, t) == {};
    WithoutNone(rows[t], {});
  }

  // When one pass is enough

  /** Table `p` is the parent of some foreign key. */
  predicate Referenced(defs: map<string, TableDef>, p: string) {
    exists u, k | u in defs && 0 <= k < |defs[u].foreignKeys| :: defs[u].foreignKeys[k].parentTable == p
  }

  /**
   * When no reported row lives in a table that some foreign key references, the parents keep
   * every row, every survivor was no orphan, and so the check after one pass reports nothing.
   */
  lemma OnePassSuffices(defs: map<string, TableDef>, rows: map<string, seq<Row>>, indexes: set<Index>)
    requires ValidState(defs, rows, indexes)
    requires forall v | v in ViolationSet(defs, rows) :: !Referenced(defs, v.table)
    ensures ViolationSet(defs, OrphansRemoved(rows, ViolationSet(defs, rows))) == {}
  {
    var vs := ViolationSet(defs, rows);
    var after := OrphansRemoved(rows, vs);
    forall t, i, k | t in defs && t in after && 0 <= i < |after[t]| && 0 <= k < |defs[t].foreignKeys|
      ensures !Orphan(defs, after, t, after[t][i], defs[t].foreignKeys[k])
    {
      var x := after[t][i];
      var p := defs[t].foreignKeys[k].parentTable;
      OrphansRemovedMembers(defs, rows, indexes, t);
      assert x in after[t];
      if p in rows {
        assert Referenced(defs, p);
        OrphansRemovedUntouched(rows, vs, p);
      }
    }
  }

  /**
   * The same stated over a relationship list: when every foreign key comes from `fks`, and no
   * reported row lives in a table that is both a child and a parent there, one pass is enough.
   */
  lemma OnePassByIntermediates(defs: map<string, TableDef>, rows: map<string, seq<Row>>, indexes: set<Index>,
                               fks: seq<ForeignKey>, both: set<string>)
    requires ValidState(defs, rows, indexes)
    requires forall u, k | u in defs && 0 <= k < |defs[u].foreignKeys| ::
      defs[u].foreignKeys[k] in fks && defs[u].foreignKeys[k].childTable == u
    requires Children(fks) * Parents(fks) <= both
    requires forall v | v in ViolationSet(defs, rows) :: v.table !in both
    ensures ViolationSet(defs, OrphansRemoved(rows, ViolationSet(defs, rows))) == {}
  {
    forall v | v in ViolationSet(defs, rows) ensures !Referenced(defs, v.table) {
      var i, k := ViolationFrom(defs, rows, v);
      ListedChild(fks, defs[v.table].foreignKeys[k]);
      forall u, k' | u in defs && 0 <= k' < |defs[u].foreignKeys| ensures defs[u].foreignKeys[k'].parentTable != v.table {
        ListedParent(fks, defs[u].foreignKeys[k']);
      }
    }
    OnePassSuffices(defs, rows, indexes);
  }

  /**
   * For the catalog: when no reported row is a runway or a runway end, the only tables that are
   * both child and parent, one pass leaves no violation.
   */
  lemma CatalogOnePassSuffices(defs: map<string, TableDef>, rows: map<string, seq<Row>>, indexes: set<Index>)
    requires ValidState(defs, rows, indexes)
    requires forall u, k | u in defs && 0 <= k < |defs[u].foreignKeys| ::
      defs[u].foreignKeys[k] in Catalog() && defs[u].foreignKeys[k].childTable == u
    requires forall v | v in ViolationSet(defs, rows) :: v.table != "APT_RWY" && v.table != "APT_RWY_END"
    ensures ViolationSet(defs, OrphansRemoved(rows, ViolationSet(defs, rows))) == {}
  {
    CatalogIntermediateTables();
    OnePassByIntermediates(defs, rows, indexes, Catalog(), {"APT_RWY", "APT_RWY_END"});
  }

  lemma ListedChild(fks: seq<ForeignKey>, fk: ForeignKey)
    requires fk in fks
    ensures fk.childTable in Children(fks)
  {
    var i :| 0 <= i < |fks| && fks[i] == fk;
  }

  lemma ListedParent(fks: seq<ForeignKey>, fk: ForeignKey)
    requires fk in fks
    ensures fk.parentTable in Parents(fks)
  {
    var i :| 0 <= i < |fks| && fks[i] == fk;
  }

  // The runway cascade

  function Text(name: string): ColumnDef {
    ColumnDef(name, "TEXT", false)
  }

  /** Three tables of the runway chain, with the catalog's first two relationships. */
  function RunwayDefs(): map<string, TableDef> {
    map[
      "APT_BASE" := TableDef([Text("SITE_NO")], []),
      "APT_RWY" := TableDef([Text("SITE_NO"), Text("RWY_ID")], [Relationship(0)]),
      "APT_RWY_END" := TableDef([Text("SITE_NO"), Text("RWY_ID"), Text("RWY_END_ID")], [Relationship(1)])]
  }

  /** A runway whose airport is missing, and an end of that runway. */
  function RunwayRows(): map<string, seq<Row>> {
    map[
      "APT_BASE" := [],
      "APT_RWY" := [Row(1, [Str("A"), Str("18")])],
      "APT_RWY_END" := [Row(1, [Str("A"), Str("18"), Str("N")])]]
  }

  lemma RunwayValid()
    ensures ValidState(RunwayDefs(), RunwayRows(), {})
  {
  }

  /** The runway's airport is missing, so the runway is reported. */
  lemma RunwayReported()
    ensures Violation("APT_RWY", 1, "APT_BASE", 0) in ViolationSet(RunwayDefs(), RunwayRows())
  {
    var defs, rows := RunwayDefs(), RunwayRows();
    assert PositionsOf(defs["APT_RWY"].columns, ["SITE_NO"]) == [0];
    assert Key(rows["APT_RWY"][0], [0]) == [Str("A")];
    ViolationOf(defs, rows, "APT_RWY", 0, 0);
  }

  /** The runway end finds its runway, so it is not reported. */
  lemma RunwayEndFound()
    ensures !OrphanRow(RunwayDefs(), RunwayRows(), "APT_RWY_END", RunwayRows()["APT_RWY_END"][0])
  {
    var defs, rows := RunwayDefs(), RunwayRows();
    assert PositionsOf(defs["APT_RWY_END"].columns, ["SITE_NO", "RWY_ID"]) == [0, 1];
    assert PositionsOf(defs["APT_RWY"].columns, ["SITE_NO", "RWY_ID"]) == [0, 1];
    assert Key(rows["APT_RWY"][0], [0, 1]) == Key(rows["APT_RWY_END"][0], [0, 1]);
    assert Key(rows["APT_RWY"][0], [0, 1]) in Keys(rows["APT_RWY"], [0, 1]);
  }

  /**
   * The runway is reported and its end is not; once the runway is deleted its end has no parent,
   * so the final check after one pass still finds a violation.
   */
  lemma RunwayCascade()
    ensures Violation("APT_RWY", 1, "APT_BASE", 0) in ViolationSet(RunwayDefs(), RunwayRows())
    ensures Violation("APT_RWY_END", 1, "APT_RWY", 0) !in ViolationSet(RunwayDefs(), RunwayRows())
    ensures Violation("APT_RWY_END", 1, "APT_RWY", 0)
      in ViolationSet(RunwayDefs(), OrphansRemoved(RunwayRows(), ViolationSet(RunwayDefs(), RunwayRows())))
  {
    RunwayReported();
    RunwayEndNotReported();
    RunwayGone();
    RunwayEndStranded(RunwayDefs(), OrphansRemoved(RunwayRows(), ViolationSet(RunwayDefs(), RunwayRows())));
  }

  lemma RunwayEndNotReported()
    ensures Violation("APT_RWY_END", 1, "APT_RWY", 0) !in ViolationSet(RunwayDefs(), RunwayRows())
  {
    var defs, rows := RunwayDefs(), RunwayRows();
    RunwayEndFound();
    forall v | v in ViolationSet(defs, rows) && v.table == "APT_RWY_END" ensures false {
      var i, k := ViolationFrom(defs, rows, v);
    }
  }

  /** One pass deletes the runway and keeps its end. */
  lemma RunwayGone()
    ensures var after := OrphansRemoved(RunwayRows(), ViolationSet(RunwayDefs(), RunwayRows()));
      && after.Keys == RunwayDefs().Keys
      && after["APT_RWY"] == [] && after["APT_RWY_END"] == RunwayRows()["APT_RWY_END"]
  {
    var defs, rows := RunwayDefs(), RunwayRows();
    var vs := ViolationSet(defs, rows);
    var after := OrphansRemoved(rows, vs);
    RunwayValid();
    RunwayReported();
    RunwayEndFound();
    WithoutMembers(rows["APT_RWY"], RowidsIn(vs, "APT_RWY"));
    assert 1 in RowidsIn(vs, "APT_RWY");
    OrphansRemovedMembers(defs, rows, {}, "APT_RWY_END");
    var e := after["APT_RWY_END"];
    assert rows["APT_RWY_END"][0] in e;
    assert |e| <= 1;
  }

  lemma RunwayEndStranded(defs: map<string, TableDef>, after: map<string, seq<Row>>)
    requires defs == RunwayDefs()
    requires after.Keys == defs.Keys
    requires after["APT_RWY"] == [] && after["APT_RWY_END"] == RunwayRows()["APT_RWY_END"]
    ensures Violation("APT_RWY_END", 1, "APT_RWY", 0) in ViolationSet(defs, after)
  {
    assert PositionsOf(defs["APT_RWY_END"].columns, ["SITE_NO", "RWY_ID"]) == [0, 1];
    assert Key(after["APT_RWY_END"][0], [0, 1]) == [Str("A"), Str("18")];
    ViolationOf(defs, after, "APT_RWY_END", 0, 0);
  }

  // Deduplication adds no orphan

  /**
   * When every foreign key that references `t` uses `key`, thinning `t` on `key` reports no
   * violation that was not reported before: the children of `t` see the same parent keys, and
   * the rows of `t` only lose rows.
   */
  lemma DedupAddsNoViolation(defs: map<string, TableDef>, rows: map<string, seq<Row>>, indexes: set<Index>,
                             t: string, key: seq<string>)
    requires ValidState(defs, rows, indexes) && t in rows
    requires forall u, k | u in defs && 0 <= k < |defs[u].foreignKeys| ::
      defs[u].foreignKeys[k].parentTable == t ==> defs[u].foreignKeys[k].columns == key
    ensures ViolationSet(defs, rows[t := Deduplicated(rows[t], PositionsOf(defs[t].columns, key))])
         <= ViolationSet(defs, rows)
  {
    var after := rows[t := Deduplicated(rows[t], PositionsOf(defs[t].columns, key))];
    forall v | v in ViolationSet(defs, after) ensures v in ViolationSet(defs, rows) {
      DedupViolationKept(defs, rows, indexes, t, key, after, v);
    }
  }

  lemma DedupViolationKept(defs: map<string, TableDef>, rows: map<string, seq<Row>>, indexes: set<Index>,
                           t: string, key: seq<string>, after: map<string, seq<Row>>, v: Violation)
    requires ValidState(defs, rows, indexes) && t in rows
    requires forall u, k | u in defs && 0 <= k < |defs[u].foreignKeys| ::
      defs[u].foreignKeys[k].parentTable == t ==> defs[u].foreignKeys[k].columns == key
    requires after == rows[t := Deduplicated(rows[t], PositionsOf(defs[t].columns, key))]
    requires v in ViolationSet(defs, after)
    ensures v in ViolationSet(defs, rows)
  {
    var i, k := ViolationFrom(defs, after, v);
    var u := v.table;
    var i' := DedupSurvivor(rows, t, PositionsOf(defs[t].columns, key), after, u, i);
    DedupOrphanKept(defs, rows, t, key, after, u, rows[u][i'], defs[u].foreignKeys[k]);
    ViolationOf(defs, rows, u, i', k);
  }

  /** A row left after thinning `t` was a row of its table before, at some position. */
  lemma DedupSurvivor(rows: map<string, seq<Row>>, t: string, pos: Positions, after: map<string, seq<Row>>, u: string, i: int)
    returns (i': int)
    requires t in rows && Increasing(rows[t])
    requires after == rows[t := Deduplicated(rows[t], pos)]
    requires u in after && 0 <= i < |after[u]|
    ensures u in rows && 0 <= i' < |rows[u]| && rows[u][i'] == after[u][i]
  {
    assert after[u][i] in after[u];
    if u == t {
      DeduplicatedMembers(rows[t], pos);
    }
    i' :| 0 <= i' < |rows[u]| && rows[u][i'] == after[u][i];
  }

  /** Thinning `t` on the key every reference to `t` uses leaves each orphan an orphan before. */
  lemma DedupOrphanKept(defs: map<string, TableDef>, rows: map<string, seq<Row>>, t: string, key: seq<string>,
                        after: map<string, seq<Row>>, u: string, x: Row, fk: ForeignKey)
    requires rows.Keys == defs.Keys && t in rows && Increasing(rows[t])
    requires after == rows[t := Deduplicated(rows[t], PositionsOf(defs[t].columns, key))]
    requires u in defs && (fk.parentTable == t ==> fk.columns == key)
    requires Orphan(defs, after, u, x, fk)
    ensures Orphan(defs, rows, u, x, fk)
  {
    if fk.parentTable == t {
      DeduplicatedKeys(rows[t], PositionsOf(defs[t].columns, key));
    }
  }

  /**
   * In the catalog each parent is referenced through one column list, so a table built from it
   * meets the premise of `DedupAddsNoViolation` for the key of any of its relationships.
   */
  lemma CatalogKeysAgree(defs: map<string, TableDef>, j: nat)
    requires j < |Catalog()|
    requires forall u, k | u in defs && 0 <= k < |defs[u].foreignKeys| :: defs[u].foreignKeys[k] in Catalog()
    ensures forall u, k | u in defs && 0 <= k < |defs[u].foreignKeys| ::
      defs[u].foreignKeys[k].parentTable == Catalog()[j].parentTable ==> defs[u].foreignKeys[k].columns == Catalog()[j].columns
  {
    CatalogOneKeyPerParent();
    forall u, k | u in defs && 0 <= k < |defs[u].foreignKeys| && defs[u].foreignKeys[k].parentTable == Catalog()[j].parentTable
      ensures defs[u].foreignKeys[k].columns == Catalog()[j].columns
    {
      var i :| 0 <= i < |Catalog()| && Catalog()[i] == defs[u].foreignKeys[k];
    }
  }
}
