/**
 * The rows of one SQLite table as the repair engine of nasr.go sees them: an
 * ordered sequence of rows, each with its rowid and its column values, and the
 * key tuples that unique indexes, `GROUP BY` and foreign keys compare.
 *
 * Rows are kept in rowid order, which is the order `ORDER BY rowid` returns.
 * SQL `=` is modelled as equality of values, except that it never holds of NULL.
 */
module Rows {
  /** A stored value: what `convertValue` hands to the driver. */
  datatype Value = Null | Str(s: string) | Num(r: real)

  datatype Row = Row(rowid: int, vals: seq<Value>)

  /** `positions[j]` is the column holding component `j` of a key; -1 for a missing column. */
  type Positions = seq<int>

  /** The key of a row; a missing column reads as NULL. */
  function Key(r: Row, pos: Positions): (k: seq<Value>)
    ensures |k| == |pos|
  {
    seq(|pos|, j requires 0 <= j < |pos| => if 0 <= pos[j] < |r.vals| then r.vals[pos[j]] else Null)
  }

  predicate HasNull(k: seq<Value>) {
    Null in k
  }

  /** Rowids strictly increase along the table. */
  ghost predicate Increasing(rs: seq<Row>) {
    forall i, j | 0 <= i < j < |rs| :: rs[i].rowid < rs[j].rowid
  }

  /** What a unique index on `pos` demands: rows sharing a key have a NULL in it. */
  ghost predicate UniqueOn(rs: seq<Row>, pos: Positions) {
    forall i, j | 0 <= i < j < |rs| && Key(rs[i], pos) == Key(rs[j], pos) :: HasNull(Key(rs[i], pos))
  }

  /** The distinct key tuples of the table. */
  function Keys(rs: seq<Row>, pos: Positions): set<seq<Value>> {
    set i | 0 <= i < |rs| :: Key(rs[i], pos)
  }

  /** The largest rowid plus one, or 1 for an empty table: SQLite's choice for a new row. */
  function NextRowid(rs: seq<Row>): int {
    if rs == [] then 1 else rs[|rs| - 1].rowid + 1
  }

  lemma AppendIncreasing(rs: seq<Row>, vals: seq<Value>)
    requires Increasing(rs)
    ensures Increasing(rs + [Row(NextRowid(rs), vals)])
    ensures forall i | 0 <= i < |rs| :: rs[i].rowid < NextRowid(rs)
  {
  }

  // Deleting rows

  /** The table after `DELETE ... WHERE rowid = ?` for each rowid of `ids`. */
  function Without(rs: seq<Row>, ids: set<int>): (r: seq<Row>)
    ensures |r| <= |rs|
    decreases |rs|
  {
    if rs == [] then []
    else
      var last := rs[|rs| - 1];
      Without(rs[..|rs| - 1], ids) + (if last.rowid in ids then [] else [last])
  }

  /** The survivors are exactly the rows whose rowid was not deleted. */
  lemma {:induction false} WithoutMembers(rs: seq<Row>, ids: set<int>)
    ensures forall x :: x in Without(rs, ids) <==> x in rs && x.rowid !in ids
    decreases |rs|
  {
    if rs != [] {
      var init := rs[..|rs| - 1];
      WithoutMembers(init, ids);
      assert rs == init + [rs[|rs| - 1]];
    }
  }

  /** Deleting keeps the survivors in order, so rowids still increase. */
  lemma {:induction false} WithoutIncreasing(rs: seq<Row>, ids: set<int>)
    requires Increasing(rs)
    ensures Increasing(Without(rs, ids))
    decreases |rs|
  {
    if rs != [] {
      var init := rs[..|rs| - 1];
      WithoutIncreasing(init, ids);
      WithoutMembers(init, ids);
      var w := Without(init, ids);
      forall i | 0 <= i < |w| ensures w[i].rowid < rs[|rs| - 1].rowid {
        assert w[i] in init;
      }
    }
  }

  lemma WithoutSnoc(rs: seq<Row>, x: Row, ids: set<int>)
    ensures Without(rs + [x], ids) == Without(rs, ids) + (if x.rowid in ids then [] else [x])
  {
    assert (rs + [x])[..|rs|] == rs;
  }

  /** Deleting one set of rowids and then another is deleting both. */
  lemma {:induction false} WithoutWithout(rs: seq<Row>, a: set<int>, b: set<int>)
    ensures Without(Without(rs, a), b) == Without(rs, a + b)
    decreases |rs|
  {
    if rs != [] {
      var last := rs[|rs| - 1];
      var init := rs[..|rs| - 1];
      WithoutWithout(init, a, b);
      var wa := Without(init, a);
      if last.rowid in a {
        assert Without(rs, a) == wa;
      } else {
        assert Without(rs, a) == wa + [last];
        WithoutSnoc(wa, last, b);
      }
      assert Without(rs, a + b) == Without(init, a + b) + (if last.rowid in a + b then [] else [last]);
    }
  }

  /** Deleting no rowid of the table changes nothing. */
  lemma {:induction false} WithoutNone(rs: seq<Row>, ids: set<int>)
    requires forall i | 0 <= i < |rs| :: rs[i].rowid !in ids
    ensures Without(rs, ids) == rs
    decreases |rs|
  {
    if rs != [] {
      WithoutNone(rs[..|rs| - 1], ids);
      assert rs == rs[..|rs| - 1] + [rs[|rs| - 1]];
    }
  }

  // The queries of `deduplicateParents`

  /** `SELECT rowid ... WHERE c1 = ? AND ...` with the key `g` bound, in rowid order. */
  function RowidsWithKey(rs: seq<Row>, pos: Positions, g: seq<Value>): (r: seq<int>)
    ensures |r| <= |rs|
    decreases |rs|
  {
    if rs == [] then []
    else
      var last := rs[|rs| - 1];
      RowidsWithKey(rs[..|rs| - 1], pos, g) + (if !HasNull(g) && Key(last, pos) == g then [last.rowid] else [])
  }

  /** Some row other than row `i` has the same key. */
  predicate Repeated(rs: seq<Row>, pos: Positions, i: nat)
    requires i < |rs|
  {
    exists j | 0 <= j < |rs| :: j != i && Key(rs[j], pos) == Key(rs[i], pos)
  }

  /** `SELECT ... GROUP BY key HAVING count(*) > 1`: NULLs group together, as in SQLite. */
  function DuplicateKeys(rs: seq<Row>, pos: Positions): set<seq<Value>> {
    set i | 0 <= i < |rs| && Repeated(rs, pos, i) :: Key(rs[i], pos)
  }

  /**
   * Row `i` is a duplicate that deduplication deletes: its key has no NULL and an earlier row,
   * one with a lower rowid, has the same key.
   */
  ghost predicate LaterDuplicate(rs: seq<Row>, pos: Positions, i: int) {
    && 0 <= i < |rs|
    && !HasNull(Key(rs[i], pos))
    && exists j | 0 <= j < i :: Key(rs[j], pos) == Key(rs[i], pos)
  }

  /** The rowids of the later duplicates whose key is in `groups`. */
  ghost function LaterDuplicates(rs: seq<Row>, pos: Positions, groups: set<seq<Value>>): set<int> {
    set i | 0 <= i < |rs| && LaterDuplicate(rs, pos, i) && Key(rs[i], pos) in groups :: rs[i].rowid
  }

  /** The table once every duplicate group has been thinned to its lowest rowid. */
  ghost function Deduplicated(rs: seq<Row>, pos: Positions): seq<Row> {
    Without(rs, LaterDuplicates(rs, pos, DuplicateKeys(rs, pos)))
  }

  // Deduplication, one group at a time

  /** The rowid query finds something exactly when a row has the NULL-free key `g`. */
  lemma {:induction false} RowidsWithKeyEmpty(rs: seq<Row>, pos: Positions, g: seq<Value>)
    ensures RowidsWithKey(rs, pos, g) == [] <==> (HasNull(g) || forall i | 0 <= i < |rs| :: Key(rs[i], pos) != g)
    decreases |rs|
  {
    if rs != [] {
      var init := rs[..|rs| - 1];
      RowidsWithKeyEmpty(init, pos, g);
      assert forall i | 0 <= i < |init| :: init[i] == rs[i];
    }
  }

  lemma RowidsWithKeySnoc(rs: seq<Row>, x: Row, pos: Positions, g: seq<Value>)
    ensures RowidsWithKey(rs + [x], pos, g) ==
      RowidsWithKey(rs, pos, g) + (if !HasNull(g) && Key(x, pos) == g then [x.rowid] else [])
  {
    assert (rs + [x])[..|rs|] == rs;
  }

  /** Deleting rows of other keys leaves the rowid query for `g` unchanged. */
  lemma {:induction false} RowidsWithKeyWithout(rs: seq<Row>, pos: Positions, g: seq<Value>, ids: set<int>)
    requires forall i | 0 <= i < |rs| && Key(rs[i], pos) == g :: rs[i].rowid !in ids
    ensures RowidsWithKey(Without(rs, ids), pos, g) == RowidsWithKey(rs, pos, g)
    decreases |rs|
  {
    if rs != [] {
      var last := rs[|rs| - 1];
      var init := rs[..|rs| - 1];
      assert forall i | 0 <= i < |init| :: init[i] == rs[i];
      RowidsWithKeyWithout(init, pos, g, ids);
      var w := Without(init, ids);
      if last.rowid in ids {
        assert Key(last, pos) != g;
        assert Without(rs, ids) == w;
      } else {
        assert Without(rs, ids) == w + [last];
        RowidsWithKeySnoc(w, last, pos, g);
      }
    }
  }

  /** The rowids after the first of a query result. */
  function Tail(ids: seq<int>): set<int> {
    set k | 1 <= k < |ids| :: ids[k]
  }

  lemma TailSnoc(ids: seq<int>, y: int)
    requires ids != []
    ensures Tail(ids + [y]) == Tail(ids) + {y}
  {
    var s := ids + [y];
    assert s[|ids|] == y;
    assert forall k | 1 <= k < |ids| :: s[k] == ids[k];
  }

  /** The later duplicates of a table with one more row. */
  lemma LaterDuplicatesSnoc(init: seq<Row>, x: Row, pos: Positions, groups: set<seq<Value>>)
    ensures var rs := init + [x];
      LaterDuplicates(rs, pos, groups) ==
        LaterDuplicates(init, pos, groups) +
        (if Key(x, pos) in groups && LaterDuplicate(rs, pos, |init|) then {x.rowid} else {})
  {
    var rs := init + [x];
    forall i | 0 <= i < |init| ensures LaterDuplicate(rs, pos, i) == LaterDuplicate(init, pos, i) {
      assert forall j | 0 <= j < i :: rs[j] == init[j];
    }
    assert forall i | 0 <= i < |init| :: rs[i] == init[i];
  }

  /**
   * The rowids the query returns for a duplicate group after the first, that is after the
   * lowest, are exactly the later duplicates with that key.
   */
  lemma {:induction false} LaterDuplicatesOfGroup(rs: seq<Row>, pos: Positions, g: seq<Value>)
    ensures var ids := RowidsWithKey(rs, pos, g);
      LaterDuplicates(rs, pos, {g}) == Tail(ids)
    decreases |rs|
  {
    if rs != [] {
      var x := rs[|rs| - 1];
      var init := rs[..|rs| - 1];
      assert rs == init + [x];
      LaterDuplicatesOfGroup(init, pos, g);
      LaterDuplicatesSnoc(init, x, pos, {g});
      RowidsWithKeyEmpty(init, pos, g);
      var before := RowidsWithKey(init, pos, g);
      var ids := RowidsWithKey(rs, pos, g);
      assert forall j | 0 <= j < |init| :: rs[j] == init[j];
      if !HasNull(g) && Key(x, pos) == g && before != [] {
        assert ids == before + [x.rowid];
        assert LaterDuplicate(rs, pos, |init|);
        TailSnoc(before, x.rowid);
      } else if !HasNull(g) && Key(x, pos) == g {
        assert ids == [x.rowid];
        assert !LaterDuplicate(rs, pos, |init|);
      } else {
        assert ids == before;
      }
    }
  }

  lemma LaterDuplicatesUnion(rs: seq<Row>, pos: Positions, a: set<seq<Value>>, b: set<seq<Value>>)
    ensures LaterDuplicates(rs, pos, a + b) == LaterDuplicates(rs, pos, a) + LaterDuplicates(rs, pos, b)
  {
  }

  /**
   * One group of the dedup loop: with the groups `done` already thinned, the rowid query for
   * a new group `g` sees the group as it was, and deleting all but its first rowid thins `g` too.
   */
  lemma DedupStep(orig: seq<Row>, pos: Positions, done: set<seq<Value>>, g: seq<Value>)
    requires Increasing(orig) && g !in done
    ensures var cur := Without(orig, LaterDuplicates(orig, pos, done));
      && RowidsWithKey(cur, pos, g) == RowidsWithKey(orig, pos, g)
      && Without(cur, Tail(RowidsWithKey(cur, pos, g))) == Without(orig, LaterDuplicates(orig, pos, done + {g}))
  {
    var ids := LaterDuplicates(orig, pos, done);
    forall i | 0 <= i < |orig| && Key(orig[i], pos) == g ensures orig[i].rowid !in ids {
      assert forall k | 0 <= k < |orig| && Key(orig[k], pos) in done :: k != i && orig[k].rowid != orig[i].rowid;
    }
    RowidsWithKeyWithout(orig, pos, g, ids);
    LaterDuplicatesOfGroup(orig, pos, g);
    WithoutWithout(orig, ids, Tail(RowidsWithKey(orig, pos, g)));
    LaterDuplicatesUnion(orig, pos, done, {g});
  }

  // What deduplication leaves

  /** A row survives deduplication exactly when it is not a later duplicate. */
  lemma DeduplicatedMembers(rs: seq<Row>, pos: Positions)
    requires Increasing(rs)
    ensures forall i | 0 <= i < |rs| :: rs[i] in Deduplicated(rs, pos) <==> !LaterDuplicate(rs, pos, i)
    ensures forall x | x in Deduplicated(rs, pos) :: x in rs
  {
    var ids := LaterDuplicates(rs, pos, DuplicateKeys(rs, pos));
    WithoutMembers(rs, ids);
    forall i | 0 <= i < |rs| ensures rs[i].rowid in ids <==> LaterDuplicate(rs, pos, i) {
      if LaterDuplicate(rs, pos, i) {
        var j :| 0 <= j < i && Key(rs[j], pos) == Key(rs[i], pos);
        assert Repeated(rs, pos, i);
      }
      if rs[i].rowid in ids {
        var k :| 0 <= k < |rs| && LaterDuplicate(rs, pos, k) && Key(rs[k], pos) in DuplicateKeys(rs, pos) && rs[k].rowid == rs[i].rowid;
        assert k == i;
      }
    }
  }

  /** Of two surviving rows, the later does not repeat the earlier's NULL-free key. */
  lemma SurvivorsDiffer(rs: seq<Row>, pos: Positions, p: nat, q: nat)
    requires Increasing(rs) && p < q < |rs|
    requires rs[q] in Deduplicated(rs, pos)
    ensures Key(rs[p], pos) != Key(rs[q], pos) || HasNull(Key(rs[q], pos))
  {
    DeduplicatedMembers(rs, pos);
    assert !LaterDuplicate(rs, pos, q);
  }

  /** Deduplication leaves no two rows sharing a NULL-free key, so a unique index fits. */
  lemma DeduplicatedUnique(rs: seq<Row>, pos: Positions)
    requires Increasing(rs)
    ensures Increasing(Deduplicated(rs, pos))
    ensures UniqueOn(Deduplicated(rs, pos), pos)
  {
    var d := Deduplicated(rs, pos);
    var ids := LaterDuplicates(rs, pos, DuplicateKeys(rs, pos));
    WithoutIncreasing(rs, ids);
    WithoutMembers(rs, ids);
    forall i, j | 0 <= i < j < |d| && Key(d[i], pos) == Key(d[j], pos) ensures HasNull(Key(d[i], pos)) {
      assert d[i] in d && d[j] in d;
      var p :| 0 <= p < |rs| && rs[p] == d[i];
      var q :| 0 <= q < |rs| && rs[q] == d[j];
      assert p < q;
      SurvivorsDiffer(rs, pos, p, q);
    }
  }

  /** Following earlier rows with the same key ends at one that survives. */
  lemma {:induction false} EarliestSurvivor(rs: seq<Row>, pos: Positions, q: nat)
    requires q < |rs|
    ensures exists p | 0 <= p <= q :: Key(rs[p], pos) == Key(rs[q], pos) && !LaterDuplicate(rs, pos, p)
    decreases q
  {
    if LaterDuplicate(rs, pos, q) {
      var j :| 0 <= j < q && Key(rs[j], pos) == Key(rs[q], pos);
      EarliestSurvivor(rs, pos, j);
    }
  }

  /**
   * Deduplication keeps every key of the table, so no child row that found its parent
   * before loses it.
   */
  lemma DeduplicatedKeys(rs: seq<Row>, pos: Positions)
    requires Increasing(rs)
    ensures Keys(Deduplicated(rs, pos), pos) == Keys(rs, pos)
  {
    var d := Deduplicated(rs, pos);
    DeduplicatedMembers(rs, pos);
    forall k | k in Keys(rs, pos) ensures k in Keys(d, pos) {
      var q :| 0 <= q < |rs| && Key(rs[q], pos) == k;
      EarliestSurvivor(rs, pos, q);
      var p :| 0 <= p <= q && Key(rs[p], pos) == k && !LaterDuplicate(rs, pos, p);
      assert rs[p] in d;
      var m :| 0 <= m < |d| && d[m] == rs[p];
    }
    forall k | k in Keys(d, pos) ensures k in Keys(rs, pos) {
      var m :| 0 <= m < |d| && Key(d[m], pos) == k;
      assert d[m] in rs;
      var p :| 0 <= p < |rs| && rs[p] == d[m];
    }
  }
}
