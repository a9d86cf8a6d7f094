/**
 * `generateDDL` of schema.go: one CREATE TABLE statement per table, in ascending name order,
 * with inline FOREIGN KEY clauses, and one CREATE UNIQUE INDEX statement per distinct parent
 * key, ordered by parent table.
 *
 * Go's `%q` is modelled as wrapping in double quotes; identifiers are taken to need no escaping.
 */
module Ddl {
  import opened Strings
  import opened Sorting
  import opened Schema
  import opened ForeignKeys

  function Quote(s: string): string {
    "\"" + s + "\""
  }

  /** Each column name quoted, in order. */
  function QuoteAll(cols: seq<string>): (q: seq<string>)
    ensures |q| == |cols|
  {
    seq(|cols|, j requires 0 <= j < |cols| => Quote(cols[j]))
  }

  /** The quoted columns separated by `, `, as both sides of a key clause list them. */
  function ColumnList(cols: seq<string>): string {
    Join(QuoteAll(cols), ", ")
  }

  /** The loop that fills `quotedCols`. */
  method QuoteColumns(cols: seq<string>) returns (q: seq<string>)
    ensures q == QuoteAll(cols)
  {
    q := [];
    var j := 0;
    while j < |cols|
      invariant 0 <= j <= |cols|
      invariant q == QuoteAll(cols)[..j]
    {
      q := q + [Quote(cols[j])];
      j := j + 1;
    }
  }

  // Grouping the catalog by child table

  /** The foreign keys of child table `t`, in catalog order. */
  function ChildForeignKeys(fks: seq<ForeignKey>, t: string): (r: seq<ForeignKey>)
    ensures forall k | 0 <= k < |r| :: r[k].childTable == t && r[k] in fks
    ensures forall i | 0 <= i < |fks| && fks[i].childTable == t :: fks[i] in r
    decreases |fks|
  {
    if fks == [] then []
    else
      var fk := fks[|fks| - 1];
      var init := fks[..|fks| - 1];
      assert forall k | 0 <= k < |init| :: init[k] == fks[k];
      ChildForeignKeys(init, t) + (if fk.childTable == t then [fk] else [])
  }

  /** Filtering by child table keeps the catalog order: it distributes over concatenation. */
  lemma {:induction false} ChildForeignKeysAppend(a: seq<ForeignKey>, b: seq<ForeignKey>, t: string)
    ensures ChildForeignKeys(a + b, t) == ChildForeignKeys(a, t) + ChildForeignKeys(b, t)
    decreases |b|
  {
    if b == [] {
      assert a + b == a;
    } else {
      var init := b[..|b| - 1];
      assert (a + b)[..|a + b| - 1] == a + init;
      ChildForeignKeysAppend(a, init, t);
    }
  }

  /** A Go map lookup: a missing child table has no foreign keys. */
  function Lookup(m: map<string, seq<ForeignKey>>, t: string): seq<ForeignKey> {
    if t in m then m[t] else []
  }

  /** The loop that fills `fkMap`. */
  method GroupByChild(fks: seq<ForeignKey>) returns (m: map<string, seq<ForeignKey>>)
    ensures forall t :: Lookup(m, t) == ChildForeignKeys(fks, t)
  {
    m := map[];
    var i := 0;
    while i < |fks|
      invariant 0 <= i <= |fks|
      invariant forall t :: Lookup(m, t) == ChildForeignKeys(fks[..i], t)
    {
      var fk := fks[i];
      assert fks[..i + 1][..i] == fks[..i] && fks[..i + 1][i] == fk;
      m := m[fk.childTable := Lookup(m, fk.childTable) + [fk]];
      i := i + 1;
    }
    assert fks[..i] == fks;
  }

  // The unique parent keys

  /** The key `generateDDL` deduplicates on: the parent table and its columns joined by commas. */
  function KeyOf(fk: ForeignKey): (string, string) {
    (fk.parentTable, Join(fk.columns, ","))
  }

  function KeySet(fks: seq<ForeignKey>): set<(string, string)> {
    set i | 0 <= i < |fks| :: KeyOf(fks[i])
  }

  lemma KeySetSnoc(fks: seq<ForeignKey>)
    requires fks != []
    ensures KeySet(fks) == KeySet(fks[..|fks| - 1]) + {KeyOf(fks[|fks| - 1])}
  {
    var init := fks[..|fks| - 1];
    assert forall i | 0 <= i < |init| :: init[i] == fks[i];
  }

  /**
   * The first foreign key of each distinct parent key, in catalog order: exactly one per key,
   * so as many as there are distinct keys.
   */
  function FirstOccurrences(fks: seq<ForeignKey>): (r: seq<ForeignKey>)
    ensures KeySet(r) == KeySet(fks)
    ensures forall i, j | 0 <= i < j < |r| :: KeyOf(r[i]) != KeyOf(r[j])
    ensures |r| == |KeySet(fks)|
    decreases |fks|
  {
    if fks == [] then []
    else
      var fk := fks[|fks| - 1];
      var kept := FirstOccurrences(fks[..|fks| - 1]);
      KeySetSnoc(fks);
      if KeyOf(fk) in KeySet(kept) then kept
      else
        KeySetSnoc(kept + [fk]);
        assert (kept + [fk])[..|kept|] == kept;
        kept + [fk]
  }

  /** Position `i` holds `fk`, and no earlier foreign key has its key. */
  ghost predicate FirstWithKey(fks: seq<ForeignKey>, i: int, fk: ForeignKey) {
    0 <= i < |fks| && fks[i] == fk && forall j | 0 <= j < i :: KeyOf(fks[j]) != KeyOf(fk)
  }

  /** Each kept foreign key is the first one in the catalog with its key. */
  lemma {:induction false} FirstOccurrencesAreFirst(fks: seq<ForeignKey>, k: nat)
    requires k < |FirstOccurrences(fks)|
    ensures exists i :: FirstWithKey(fks, i, FirstOccurrences(fks)[k])
    decreases |fks|
  {
    var init := fks[..|fks| - 1];
    var fk := fks[|fks| - 1];
    var kept := FirstOccurrences(init);
    var r := FirstOccurrences(fks);
    if k < |kept| {
      FirstOccurrencesAreFirst(init, k);
      var i :| FirstWithKey(init, i, kept[k]);
      assert r[k] == kept[k];
      assert forall j | 0 <= j <= i :: fks[j] == init[j];
      assert FirstWithKey(fks, i, r[k]);
    } else {
      assert KeyOf(fk) !in KeySet(init) && r[k] == fk;
      forall j | 0 <= j < |fks| - 1 ensures KeyOf(fks[j]) != KeyOf(fk) {
        assert fks[j] == init[j] && KeyOf(init[j]) in KeySet(init);
      }
      assert FirstWithKey(fks, |fks| - 1, r[k]);
    }
  }

  /** The loop that fills `uniqueIndexes`, consulting the `seen` set. */
  method DistinctParentKeys(fks: seq<ForeignKey>) returns (unique: seq<ForeignKey>)
    ensures unique == FirstOccurrences(fks)
  {
    var seen: set<(string, string)> := {};
    unique := [];
    var i := 0;
    while i < |fks|
      invariant 0 <= i <= |fks|
      invariant unique == FirstOccurrences(fks[..i])
      invariant seen == KeySet(unique)
    {
      var fk := fks[i];
      assert fks[..i + 1][..i] == fks[..i] && fks[..i + 1][i] == fk;
      var key := KeyOf(fk);
      if key !in seen {
        KeySetSnoc(unique + [fk]);
        assert (unique + [fk])[..|unique|] == unique;
        seen := seen + {key};
        unique := unique + [fk];
      }
      i := i + 1;
    }
    assert fks[..i] == fks;
  }

  // CREATE TABLE

  function ColumnItem(c: ColumnDef): string {
    "  " + Quote(c.name) + " " + c.dataType + (if c.nullable then "" else " NOT NULL")
  }

  /** A column that is not nullable is written as the nullable one followed by ` NOT NULL`. */
  lemma NotNullMarksRequired(c: ColumnDef)
    ensures ColumnItem(c.(nullable := false)) == ColumnItem(c.(nullable := true)) + " NOT NULL"
    ensures c.nullable ==> ColumnItem(c) == ColumnItem(c.(nullable := true))
    ensures !c.nullable ==> ColumnItem(c) == ColumnItem(c.(nullable := false))
  {
  }

  /** The format of a foreign key clause: both sides list the same columns. */
  function ForeignKeyLine(cols: string, parent: string): string {
    "  FOREIGN KEY (" + cols + ") REFERENCES " + Quote(parent) + " (" + cols + ")"
  }

  function ForeignKeyItem(fk: ForeignKey): string {
    ForeignKeyLine(ColumnList(fk.columns), fk.parentTable)
  }

  /** The column definitions in column order, then the foreign key clauses in catalog order. */
  function Items(ts: TableSchema, fks: seq<ForeignKey>): (items: seq<string>)
    ensures |items| == |ts.columns| + |fks|
  {
    seq(|ts.columns|, i requires 0 <= i < |ts.columns| => ColumnItem(ts.columns[i]))
      + seq(|fks|, i requires 0 <= i < |fks| => ForeignKeyItem(fks[i]))
  }

  /** The statement for one table: its items one per line, separated by commas. */
  function CreateTableText(ts: TableSchema, fks: seq<ForeignKey>): string {
    var items := Items(ts, fks);
    "CREATE TABLE " + Quote(ts.name) + " (\n" + (if items == [] then "" else Join(items, ",\n") + "\n") + ");"
  }

  /** What the builder has written after `k` items: each item, a comma unless it is the last, a newline. */
  function Emitted(items: seq<string>, k: nat): string
    requires k <= |items|
  {
    if k == 0 then ""
    else Emitted(items, k - 1) + items[k - 1] + (if k < |items| then "," else "") + "\n"
  }

  lemma JoinSnoc(xs: seq<string>, y: string, sep: string)
    requires xs != []
    ensures Join(xs + [y], sep) == Join(xs, sep) + sep + y
    decreases |xs|
  {
    if |xs| > 1 {
      assert (xs + [y])[1..] == xs[1..] + [y];
      JoinSnoc(xs[1..], y, sep);
    }
  }

  /**
   * The builder's separator rule yields the items joined by `,\n`: every item but the last is
   * followed by a comma, and no comma comes before the closing `);`.
   */
  lemma {:induction false} EmittedIsJoin(items: seq<string>, k: nat)
    requires 1 <= k <= |items|
    ensures Emitted(items, k) == Join(items[..k], ",\n") + (if k < |items| then ",\n" else "\n")
  {
    if k > 1 {
      EmittedIsJoin(items, k - 1);
      assert items[..k] == items[..k - 1] + [items[k - 1]];
      JoinSnoc(items[..k - 1], items[k - 1], ",\n");
    } else {
      assert items[..k] == [items[0]];
    }
  }

  lemma ItemsAt(ts: TableSchema, fks: seq<ForeignKey>)
    ensures forall i | 0 <= i < |ts.columns| :: Items(ts, fks)[i] == ColumnItem(ts.columns[i])
    ensures forall i | |ts.columns| <= i < |ts.columns| + |fks| ::
      Items(ts, fks)[i] == ForeignKeyItem(fks[i - |ts.columns|])
  {
  }

  /** Appending one more item to what the builder has written. */
  lemma EmittedStep(b: string, header: string, items: seq<string>, k: nat, line: string, sep: string)
    requires k < |items| && b == header + Emitted(items, k) && line == items[k]
    requires sep == (if k + 1 < |items| then "," else "")
    ensures b + line + sep + "\n" == header + Emitted(items, k + 1)
  {
  }

  /**
   * Writing every item followed by a comma unless it is the last, and a newline, is joining the
   * items by `,\n` and ending with a newline: no comma comes before the closing `);`.
   */
  lemma BuilderRuleIsJoin(ts: TableSchema, fks: seq<ForeignKey>)
    ensures CreateTableText(ts, fks)
      == "CREATE TABLE " + Quote(ts.name) + " (\n" + Emitted(Items(ts, fks), |Items(ts, fks)|) + ");"
  {
    var items := Items(ts, fks);
    if items != [] {
      EmittedIsJoin(items, |items|);
      assert items[..|items|] == items;
    }
  }

  /** One column definition, ` NOT NULL` written only for a column that is not nullable. */
  method WriteColumn(col: ColumnDef) returns (line: string)
    ensures line == ColumnItem(col)
  {
    line := "  " + Quote(col.name) + " " + col.dataType;
    if !col.nullable {
      line := line + " NOT NULL";
    }
  }

  method WriteForeignKey(fk: ForeignKey) returns (line: string)
    ensures line == ForeignKeyItem(fk)
  {
    var quoted := QuoteColumns(fk.columns);
    line := ForeignKeyLine(Join(quoted, ", "), fk.parentTable);
  }

  /**
   * The column loop of the builder, writing the first `|cols|` of `items`: a comma after a
   * column unless nothing follows it.
   */
  method WriteColumns(header: string, cols: seq<ColumnDef>, fks: seq<ForeignKey>, ghost items: seq<string>)
    returns (b: string)
    requires |items| == |cols| + |fks|
    requires forall k | 0 <= k < |cols| :: items[k] == ColumnItem(cols[k])
    ensures b == header + Emitted(items, |cols|)
  {
    b := header;
    var i := 0;
    while i < |cols|
      invariant 0 <= i <= |cols|
      invariant b == header + Emitted(items, i)
    {
      var line := WriteColumn(cols[i]);
      var sep := if i < |cols| - 1 || |fks| > 0 then "," else "";
      EmittedStep(b, header, items, i, line, sep);
      b := b + line + sep + "\n";
      i := i + 1;
    }
  }

  /** The foreign key loop of the builder, writing the rest of `items`: a comma after a clause unless it is the last. */
  method WriteForeignKeys(b0: string, header: string, n: nat, fks: seq<ForeignKey>, ghost items: seq<string>)
    returns (b: string)
    requires |items| == n + |fks|
    requires forall k | n <= k < |items| :: items[k] == ForeignKeyItem(fks[k - n])
    requires b0 == header + Emitted(items, n)
    ensures b == header + Emitted(items, |items|)
  {
    b := b0;
    var i := 0;
    while i < |fks|
      invariant 0 <= i <= |fks|
      invariant b == header + Emitted(items, n + i)
    {
      var line := WriteForeignKey(fks[i]);
      var sep := if i < |fks| - 1 then "," else "";
      EmittedStep(b, header, items, n + i, line, sep);
      b := b + line + sep + "\n";
      i := i + 1;
    }
  }

  /** The statement text as the builder writes it, with the separator rule of `generateDDL`. */
  method BuildCreateTable(ts: TableSchema, fks: seq<ForeignKey>) returns (stmt: string)
    ensures stmt == CreateTableText(ts, fks)
  {
    ghost var items := Items(ts, fks);
    ItemsAt(ts, fks);
    var header := "CREATE TABLE " + Quote(ts.name) + " (\n";
    var b := WriteColumns(header, ts.columns, fks, items);
    b := WriteForeignKeys(b, header, |ts.columns|, fks, items);
    BuilderRuleIsJoin(ts, fks);
    stmt := b + ");";
  }

  // CREATE UNIQUE INDEX

  function IndexName(fk: ForeignKey): string {
    "idx_" + fk.parentTable + "_" + Join(fk.columns, "_")
  }

  function IndexStatement(fk: ForeignKey): string {
    "CREATE UNIQUE INDEX " + Quote(IndexName(fk)) + " ON " + Quote(fk.parentTable) + " (" + ColumnList(fk.columns) + ");"
  }

  method BuildIndex(fk: ForeignKey) returns (stmt: string)
    ensures stmt == IndexStatement(fk)
  {
    var quoted := QuoteColumns(fk.columns);
    var idxName := "idx_" + fk.parentTable + "_" + Join(fk.columns, "_");
    stmt := "CREATE UNIQUE INDEX " + Quote(idxName) + " ON " + Quote(fk.parentTable) + " (" + Join(quoted, ", ") + ");";
  }

  function ParentOf(fk: ForeignKey): string {
    fk.parentTable
  }

  // Table order

  /** `names` lists every key of `keys` once, in ascending order. */
  ghost predicate SortedEnumeration(names: seq<string>, keys: set<string>) {
    && multiset(names) == multiset(keys)
    && forall i, j | 0 <= i < j < |names| :: Less(names[i], names[j])
  }

  lemma RepeatCounted(s: seq<string>, i: nat, j: nat)
    requires i < j < |s| && s[i] == s[j]
    ensures multiset(s)[s[i]] >= 2
  {
    var x := s[i];
    assert s == s[..j] + [s[j]] + s[j + 1..];
    assert x in s[..j];
    assert multiset(s) == multiset(s[..j]) + multiset{x} + multiset(s[j + 1..]);
  }

  /** The keys in ascending order are determined by the keys alone. */
  lemma SortedEnumerationUnique(a: seq<string>, b: seq<string>, keys: set<string>)
    requires SortedEnumeration(a, keys) && SortedEnumeration(b, keys)
    ensures a == b
  {
    var id := (x: string) => x;
    forall i, j | 0 <= i < j < |a| ensures !Less(a[j], a[i]) {
      LessAsymmetric(a[i], a[j]);
    }
    forall i, j | 0 <= i < j < |b| ensures !Less(b[j], b[i]) {
      LessAsymmetric(b[i], b[j]);
    }
    SortedUnique(a, b, id);
  }

  /** Collects the keys in map order, whatever it is, then sorts them with `sort.Strings`. */
  method TableNames(tables: Schemas) returns (names: seq<string>)
    ensures |names| == |tables|
    ensures SortedEnumeration(names, tables.Keys)
  {
    var collected: seq<string> := [];
    var remaining := tables.Keys;
    while remaining != {}
      invariant remaining <= tables.Keys
      invariant multiset(collected) == multiset(tables.Keys - remaining)
      decreases |remaining|
    {
      var name :| name in remaining;
      assert tables.Keys - (remaining - {name}) == (tables.Keys - remaining) + {name};
      collected := collected + [name];
      remaining := remaining - {name};
    }
    assert tables.Keys - remaining == tables.Keys;
    names := SortStrings(collected);
    forall i, j | 0 <= i < j < |names| ensures Less(names[i], names[j]) {
      if names[i] == names[j] {
        RepeatCounted(names, i, j);
      }
      LessTotal2(names[i], names[j]);
    }
    assert |multiset(names)| == |multiset(tables.Keys)|;
  }

  /** The loop over the sorted table names. */
  method CreateTables(tables: Schemas, fks: seq<ForeignKey>, fkMap: map<string, seq<ForeignKey>>, names: seq<string>)
    returns (createTables: seq<string>)
    requires forall t :: Lookup(fkMap, t) == ChildForeignKeys(fks, t)
    requires forall i | 0 <= i < |names| :: names[i] in tables
    ensures |createTables| == |names|
    ensures forall i | 0 <= i < |names| ::
      createTables[i] == CreateTableText(tables[names[i]], ChildForeignKeys(fks, names[i]))
  {
    createTables := [];
    var k := 0;
    while k < |names|
      invariant 0 <= k <= |names|
      invariant |createTables| == k
      invariant forall i | 0 <= i < k ::
        createTables[i] == CreateTableText(tables[names[i]], ChildForeignKeys(fks, names[i]))
    {
      var name := names[k];
      var stmt := BuildCreateTable(tables[name], Lookup(fkMap, name));
      assert stmt == CreateTableText(tables[names[k]], ChildForeignKeys(fks, names[k]));
      createTables := createTables + [stmt];
      k := k + 1;
    }
  }

  /** The loop over the sorted unique indexes. */
  method CreateIndexes(ordered: seq<ForeignKey>) returns (createIndexes: seq<string>)
    ensures |createIndexes| == |ordered|
    ensures forall i | 0 <= i < |ordered| :: createIndexes[i] == IndexStatement(ordered[i])
  {
    createIndexes := [];
    var k := 0;
    while k < |ordered|
      invariant 0 <= k <= |ordered|
      invariant |createIndexes| == k
      invariant forall i | 0 <= i < k :: createIndexes[i] == IndexStatement(ordered[i])
    {
      var stmt := BuildIndex(ordered[k]);
      createIndexes := createIndexes + [stmt];
      k := k + 1;
    }
  }

  /**
   * `generateDDL`: the table statements follow the ascending table names; the index statements
   * are one per distinct parent key, in some order sorted by parent table (`sort.Slice` is not
   * stable, so equal parents may come in any order).
   */
  method GenerateDDL(tables: Schemas, fks: seq<ForeignKey>)
    returns (names: seq<string>, createTables: seq<string>, createIndexes: seq<string>)
    ensures |createTables| == |tables|
    ensures SortedEnumeration(names, tables.Keys) && |names| == |createTables|
    ensures forall i | 0 <= i < |names| ::
      names[i] in tables && createTables[i] == CreateTableText(tables[names[i]], ChildForeignKeys(fks, names[i]))
    ensures |createIndexes| == |KeySet(fks)|
    ensures exists ordered | SortedBy(ordered, ParentOf) && multiset(ordered) == multiset(FirstOccurrences(fks)) ::
      && |createIndexes| == |ordered|
      && forall i | 0 <= i < |ordered| :: createIndexes[i] == IndexStatement(ordered[i])
  {
    var fkMap := GroupByChild(fks);
    var unique := DistinctParentKeys(fks);
    names := TableNames(tables);
    assert forall i | 0 <= i < |names| :: names[i] in tables by {
      forall i | 0 <= i < |names| ensures names[i] in tables {
        assert names[i] in multiset(names);
      }
    }
    createTables := CreateTables(tables, fks, fkMap, names);
    var ordered := SortBy(unique, ParentOf);
    createIndexes := CreateIndexes(ordered);
    assert |ordered| == |multiset(ordered)| == |multiset(unique)| == |unique|;
  }

  // The catalog's indexes

  /** The catalog has 18 distinct parent keys, so `generateDDL` emits 18 unique indexes. */
  lemma CatalogIndexCount()
    ensures |KeySet(Catalog())| == 18
    ensures |FirstOccurrences(Catalog())| == 18
  {
    var c := Catalog();
    var keys := KeySet(c);
    var parent := (k: (string, string)) => k.0;
    var back := (p: string) => (p, Join(ParentKey(Fingerprint(p)), ","));
    CatalogFingerprints();
    forall k | k in keys ensures back(parent(k)) == k {
      var i :| 0 <= i < |c| && KeyOf(c[i]) == k;
      assert ParentKey(Fingerprint(c[i].parentTable)) == c[i].columns;
    }
    Sets.InjectiveImageSize(keys, parent, back);
    assert Sets.Image(keys, parent) == Parents(c) by {
      forall p | p in Parents(c) ensures p in Sets.Image(keys, parent) {
        var i :| 0 <= i < |c| && c[i].parentTable == p;
        assert KeyOf(c[i]) in keys;
      }
    }
    CatalogParentCount();
  }

  /** Among the catalog's unique indexes no two share a parent table. */
  lemma CatalogIndexParentsDistinct()
    ensures forall x, y | 0 <= x < |FirstOccurrences(Catalog())| && 0 <= y < |FirstOccurrences(Catalog())| ::
      FirstOccurrences(Catalog())[x].parentTable == FirstOccurrences(Catalog())[y].parentTable ==> x == y
  {
    var c := Catalog();
    var r := FirstOccurrences(c);
    CatalogOneKeyPerParent();
    forall x, y | 0 <= x < |r| && 0 <= y < |r| && r[x].parentTable == r[y].parentTable ensures x == y {
      FirstOccurrencesAreFirst(c, x);
      FirstOccurrencesAreFirst(c, y);
      var i :| FirstWithKey(c, i, r[x]);
      var j :| FirstWithKey(c, j, r[y]);
      assert KeyOf(r[x]) == KeyOf(r[y]);
    }
  }

  /**
   * Sorting the catalog's unique indexes by parent table alone is a strict total order: every
   * arrangement sorted by parent is the same, so the index statements are deterministic even
   * though `sort.Slice` is not stable.
   */
  lemma CatalogIndexOrderDetermined(a: seq<ForeignKey>, b: seq<ForeignKey>)
    requires SortedBy(a, ParentOf) && SortedBy(b, ParentOf)
    requires multiset(a) == multiset(FirstOccurrences(Catalog())) && multiset(b) == multiset(a)
    ensures a == b
  {
    CatalogIndexParentsDistinct();
    OrderDetermined(FirstOccurrences(Catalog()), a, b);
  }

  /** Sorting a list whose parents are distinct by parent leaves one possible order. */
  lemma OrderDetermined(r: seq<ForeignKey>, a: seq<ForeignKey>, b: seq<ForeignKey>)
    requires forall x, y | 0 <= x < |r| && 0 <= y < |r| :: r[x].parentTable == r[y].parentTable ==> x == y
    requires SortedBy(a, ParentOf) && SortedBy(b, ParentOf)
    requires multiset(a) == multiset(r) && multiset(b) == multiset(a)
    ensures a == b
  {
    forall x, y | 0 <= x < |a| && 0 <= y < |a| && ParentOf(a[x]) == ParentOf(a[y]) ensures a[x] == a[y] {
      assert a[x] in multiset(r) && a[y] in multiset(r);
      var p :| 0 <= p < |r| && r[p] == a[x];
      var q :| 0 <= q < |r| && r[q] == a[y];
    }
    SortedUnique(a, b, ParentOf);
  }
}
