# go-nasr core, modelled in Dafny

go-nasr turns the FAA's NASR subscription archive into one SQLite database. The outer zip holds
the full CSV archive of a cycle as a `CSV_Data/<date>_CSV.zip` entry. That inner archive holds
two kinds of CSV file:

- `*_CSV_DATA_STRUCTURE.csv` metadata files, each record describing one column of one table;
- one data file per table.

`Extract` runs, in order:

1. It picks the inner archive.
2. It folds the metadata into table schemas.
3. It writes a `CREATE TABLE` per table, with `NOT NULL` modifiers and the `FOREIGN KEY` clauses
   of a fixed catalog of 38 relationships.
4. It loads each data file in one transaction, coercing empty fields to NULL and numbers to
   REAL.
5. It makes a `UNIQUE` index on each parent key. Where duplicates stop an index, it thins the
   duplicates to their lowest rowid and retries.
6. It deletes every row that `PRAGMA foreign_key_check` reports.
7. It fails when a second check still reports violations.

The model follows the Go code file by file:

- `Schema` is `parseSchemas`, the sentinel override and `normalizeCR`.
- `Ddl` is `generateDDL`.
- `ForeignKeys` is the catalog, with its shape proved by computation.
- `Loader` is `convertValue`, `loadCSV` and `loadAllCSVs`.
- `Zip` is the entry selection of `openInnerCSVZip`.
- `UniqueIndex` and `IndexRoundTrip` are `parseUniqueIndex` and its round trip with the
  generated statements.
- `Repair` is `deduplicateParents`.
- `Orphans` is `deleteOrphans`.
- `Extract` is the sequence of `Extract` from the parsed schemas on.

Supporting modules:

- `Database` stands in for SQLite: a class `Db` whose methods apply one function per statement.
- `Rows`, `Strings`, `Sorting`, `Sets` and `Wrappers` hold the shared definitions. `Strings` is
  those parts of Go's `strings` package the core uses.

Each Go loop that changes the tables or builds a result the core returns is a `while` or `for` loop of a method, proved against a function of its inputs. Loops that only scan a driver's result rows, build query text or build log text have no loop in the model; "## Left out" lists them. The loop over the index statements in `deduplicateParents` is proved against `Repair.DedupOutcome`, the fold of the one-statement effect `Repair.EnsureIndexStep`. A run of `Extract` is then tied to its tables: the loaded rows are `Loader.LoadAllOutcome` of the files, de-duplicated by that fold, with the reported orphans deleted. Each way a run can fail is tied to its cause (`Extract.RunEnded`): the first table the database rejects, the load fold's error, the de-duplication fold's error, or the violations the final check counts.

The database model makes three assumptions:

- A generated `CREATE TABLE` statement is executed as the `TableDef` it was generated from: its
  columns and its foreign keys. The statement names the table by its schema's `name` field
  (schema.go:175), and the loader prepares its `INSERT` against that same name. The steps from
  `CREATE TABLE` on require that every schema is stored under its own name. `parseSchemas` makes
  this so (`Schema.ParsedSchemasWellKeyed`), so the key and the name are the same table.
- A `CREATE UNIQUE INDEX` statement is executed as the (table, columns) pair that the
  `parseUniqueIndex` pattern reads from it. `IndexRoundTrip.IndexStatementParses` proves that
  pair is the parent key the statement was generated for.
- The queries and deletions of the repair steps are executed as the operation their parameters
  name, not as their text: the `GROUP BY ... HAVING count(*) > 1` query (nasr.go:125-129) as
  `Db.DuplicateGroups` of the parsed table and columns, the `SELECT rowid ... WHERE ... ORDER BY
  rowid` query (nasr.go:155-157) as `Db.RowidsMatching` of that table, columns and key, the
  `PRAGMA foreign_key_check` queries (nasr.go:80, 225) as `Db.ForeignKeyCheck`, and each
  `DELETE FROM ... WHERE rowid = ?` (nasr.go:187, 253) as `Db.Delete` of that table and rowid.

Other model choices:

- `PRAGMA foreign_key_check` reports a child row whose NULL-free key finds no parent row. It
  fails when a referenced parent has no unique index on the key, which is SQLite's
  "foreign key mismatch".
- Foreign keys are numbered from the last declared, as SQLite numbers them.
- Inserting into a NOT NULL column with NULL fails. So does repeating a NULL-free key under a
  unique index.

The model follows the code as written, including where it behaves in ways a reader might not expect:

- **No BOM strip in `parseSchemas`.** Metadata streams are not stripped of a UTF-8 BOM there;
  only `loadCSV` strips one.
- **Padding can fail the load.** A data record shorter than the schema is padded with NULL. If a
  padded column is NOT NULL, the `INSERT` fails and the whole load aborts
  (`Loader.PaddedNullRejected`).
- **A failing file aborts `Extract`.** It is not skipped.
- **No sentinel branch in `convertValue`.** It takes two arguments and has no branch for
  "NOT ASSIGNED"-style sentinels (loader.go:108-119).
- **The NAV_BASE index name.** It follows foreignkeys.go:17-18, not the name expected in
  nasr_test.go.

## Model

| member | source | states |
|---|---|---|
| Schema.SqlType | schema.go:78-83 | `VARCHAR` becomes `TEXT`, `NUMBER` becomes `REAL`, and any other token is kept verbatim |
| Schema.SqlTypeIdempotent | schema.go:78-83 | mapping a mapped token again changes nothing |
| Schema.ColumnOfFields | schema.go:70-85 | a column's name is the trimmed second field with every space turned into `_`, so it holds no space; its type is the mapped trimmed fourth field; it is nullable iff the trimmed fifth field is exactly `Yes` |
| Schema.AddColumn | schema.go:87-96 | a new table is created under its key and named by it; the column goes at the end of its table; no other table changes |
| Schema.RecordsNaming | schema.go:66-70 | only records with at least five fields that name table `t` are kept, at most as many as there are records |
| Schema.AddRecordsTables | schema.go:58-97 | after the fold, a table exists iff it existed before or some record with at least five fields names it |
| Schema.AddRecordsColumns | schema.go:58-97 | the fold appends to each table the columns of the records naming it, in record order, one per record |
| Schema.AddRecordsStep | schema.go:87-96 | one more record adds its column to its own table and to no other |
| Schema.AddRecordsNames | schema.go:87-91 | every table's `name` is its map key |
| Schema.AddRecordsAppend | schema.go:29-98 | folding one stream after another is folding their records in sequence, so columns accumulate across streams in archive order |
| Schema.FoldFailurePersists | schema.go:53-56 | once a structure file without a header stops the fold, the later files do not change the error |
| Schema.FoldCharacterised | schema.go:29-98 | the fold succeeds iff every structure file has a header, and then equals the fold of all data records in order with headers dropped; a failure names the first headerless structure file |
| Schema.SentinelOverrideExact | schema.go:103-112 | the override keeps every table, name, column count, column name and type, and makes a column nullable iff it was nullable or its (table, column) pair is a sentinel |
| Schema.SentinelOverrideComposes | schema.go:103-112 | applying two sentinel sets one after the other is applying their union, so map iteration order does not matter |
| Schema.NoSentinels | schema.go:103-112 | an empty sentinel set changes nothing |
| Schema.OneSentinel | schema.go:104-111 | one pair touches only its own table, and nothing when that table is absent |
| Schema.MarkNamed | schema.go:106-110 | the inner loop marks nullable exactly the columns with the sentinel's name |
| Schema.OverrideSentinelColumns | schema.go:100-112 | the override loop, whatever order it takes the pairs in, yields the override function |
| Schema.AddDataRecords | schema.go:58-97 | the record loop after the header folds exactly the data records, in order |
| Schema.ParseSchemas | schema.go:26-115 | the method (structure files in archive order, each folded after its header, then the override) equals the specification function |
| Schema.ParsedSchemasWellKeyed | schema.go:87-91 | every schema `parseSchemas` returns is stored under its own name |
| Schema.ParsedSchemasColumns | schema.go:26-115 | `parseSchemas` succeeds iff every structure file has a header; its tables are exactly those some valid record names, each under its own name; a table has one column per such record, in archive order, each with the record's name and type, nullable iff `Yes` or a sentinel |
| Schema.NormalizedCR | schema.go:118-135 | the output has the input's length |
| Schema.NormalizeCR | schema.go:118-135 | the byte loop with its CRLF skip computes the normalised stream |
| Schema.NormalizedCRProperties | schema.go:118-135 | length is kept, every non-CR byte is unchanged, every CRLF pair is kept, and no bare CR remains |
| Schema.NormalizedCRIdempotent | schema.go:118-135 | normalising twice is normalising once |
| Ddl.QuoteColumns | schema.go:189-192 | the loop quotes each column, in order |
| Ddl.ChildForeignKeys | schema.go:144-147 | a child's list holds only catalog keys of that child, and every such key |
| Ddl.ChildForeignKeysAppend | schema.go:145-146 | grouping keeps catalog order: it distributes over concatenation |
| Ddl.GroupByChild | schema.go:144-147 | the `fkMap` loop gives each table, present or not, exactly its foreign keys in catalog order |
| Ddl.FirstOccurrences | schema.go:149-162 | exactly one key per distinct (parent, joined columns) pair, all of them covered, so as many as there are pairs |
| Ddl.FirstOccurrencesAreFirst | schema.go:156-161 | each kept key is the first in the catalog with its pair |
| Ddl.DistinctParentKeys | schema.go:154-162 | the `seen`-set loop keeps the first occurrence of each pair, in catalog order |
| Ddl.NotNullMarksRequired | schema.go:178-181 | a non-nullable column is written as the nullable one followed by ` NOT NULL` |
| Ddl.ItemsAt | schema.go:177-202 | a table's items are its columns in order, then its foreign key clauses in catalog order |
| Ddl.EmittedIsJoin | schema.go:182-185 | the builder's comma rule joins the items by `,\n`, with no comma after the last item |
| Ddl.BuilderRuleIsJoin | schema.go:174-204 | the text the builder writes is `CREATE TABLE "<name>" (`, the items separated by commas one per line, and `);` |
| Ddl.WriteColumn | schema.go:178-181 | one column line, with ` NOT NULL` only for a non-nullable column |
| Ddl.WriteForeignKey | schema.go:189-197 | one foreign key clause, with the same quoted columns on both sides |
| Ddl.WriteColumns | schema.go:177-186 | the column loop writes the first items with the separator rule |
| Ddl.WriteForeignKeys | schema.go:188-202 | the foreign key loop writes the remaining items, no comma after the last |
| Ddl.BuildCreateTable | schema.go:173-205 | the builder yields the statement text of the table and its keys |
| Ddl.BuildIndex | schema.go:213-221 | the index statement is named `idx_<parent>_<columns joined by _>` and lists the parent's quoted columns |
| Ddl.SortedEnumerationUnique | schema.go:164-169 | two ascending enumerations of the same keys are equal, so the table order does not depend on map order |
| Ddl.TableNames | schema.go:164-169 | the names are every schema key once, in ascending order |
| Ddl.CreateTables | schema.go:171-206 | one statement per name, in name order, each for that table with its foreign keys |
| Ddl.CreateIndexes | schema.go:212-222 | one index statement per kept key, in the sorted order |
| Ddl.GenerateDDL | schema.go:142-225 | one `CREATE TABLE` per schema, in ascending name order, each with its child's keys in catalog order; one index statement per distinct parent key, in some order sorted by parent that permutes the first occurrences |
| Ddl.CatalogIndexCount | foreignkeys.go:10-49 | the catalog has 18 distinct parent keys, so 18 index statements |
| Ddl.CatalogIndexParentsDistinct | foreignkeys.go:10-49 | no two kept catalog keys share a parent table |
| Ddl.OrderDetermined | schema.go:209-211 | sorting by parent a list whose parents are distinct admits one order only |
| Ddl.CatalogIndexOrderDetermined | schema.go:209-211 | for the catalog, every arrangement that `sort.Slice` may return is the same, so the index statements are deterministic |
| ForeignKeys.Catalog | foreignkeys.go:9-50 | the catalog has 38 entries |
| ForeignKeys.CatalogChildrenDistinct | foreignkeys.go:11-48 | every child table appears exactly once |
| ForeignKeys.CatalogEntriesWellFormed | foreignkeys.go:11-48 | no entry is its own parent and every column list is non-empty |
| ForeignKeys.CatalogOneKeyPerParent | foreignkeys.go:11-48 | every parent table is referenced through one column list only |
| ForeignKeys.CatalogParentCount | foreignkeys.go:11-48 | there are exactly 18 parent tables |
| ForeignKeys.CatalogIntermediateTables | foreignkeys.go:11-13 | APT_RWY and APT_RWY_END are the only tables that are both child and parent |
| ForeignKeys.RunwayChainKeysNest | foreignkeys.go:11-13 | along the runway chain, each parent's key is a proper prefix of its child's key |
| ForeignKeys.CatalogDepthDecreases | foreignkeys.go:11-48 | every relationship leads to a table of smaller depth |
| ForeignKeys.CatalogAcyclic | foreignkeys.go:11-48 | no walk from child to parent returns to its start |
| UniqueIndex.MatchAt | nasr.go:203 | a match of the pattern at a position yields a non-empty table and a non-empty column list |
| UniqueIndex.FindFrom | nasr.go:208 | the search finds nothing iff no position at or after the start matches, and otherwise returns the match at some position |
| UniqueIndex.FindFromFirst | nasr.go:208 | the search returns the leftmost match |
| UniqueIndex.Find | nasr.go:208 | `FindStringSubmatch` fails iff the pattern matches nowhere |
| UniqueIndex.Columns | nasr.go:214-218 | the column list always yields at least one column |
| UniqueIndex.ParsedIndex | nasr.go:207-220 | it returns an error iff the statement has no `ON "<table>" (<cols>)` match; success gives a non-empty table and at least one column |
| UniqueIndex.CleanColumns | nasr.go:214-218 | each comma-separated piece is trimmed of spaces, then of quotes, in order |
| UniqueIndex.ParseUniqueIndex | nasr.go:207-220 | the method, its pattern and its column loop, equals the specification function |
| UniqueIndex.MatchAtBuilt | nasr.go:203 | the pattern matches `ON "<t>" (<list>)` wherever it is written |
| UniqueIndex.MatchStartsWithOn | nasr.go:203 | every match begins with `ON` and a space |
| IndexRoundTrip.JoinSpaced | nasr.go:214 | a list joined by `, ` and split on `,` gives the pieces with their spaces moved in front |
| IndexRoundTrip.CleanQuoted | nasr.go:215-216 | a quoted plain name, with or without a space before it, cleans back to the name |
| IndexRoundTrip.ColumnsOfList | nasr.go:214-218 | the quoted column list of the generated statement reads back as the columns |
| IndexRoundTrip.IndexStatementShape | schema.go:218-220 | the index statement is its lead, its name, and `ON "<parent>" (<list>);` |
| IndexRoundTrip.FoundAfterHeader | nasr.go:208 | in a generated statement the leftmost match starts after the index name |
| IndexRoundTrip.IndexStatementParses | nasr.go:207-220 | reading back a generated index statement returns its parent table and column list, for names without `"`, `,`, `)` or `\s` |
| IndexRoundTrip.CatalogNamesPlain | foreignkeys.go:11-48 | every parent table and key column of the catalog is a non-empty name without `"`, `,`, `)` or `\s` |
| IndexRoundTrip.CatalogIndexStatementsParse | nasr.go:207-220 | every index statement written for the catalog reads back as its parent table and column list |
| Strings.TrimSpaceCharacterised | schema.go:70-74 | `TrimSpace` is the slice between the leading and trailing spaces, with no space at either end |
| Strings.ReplaceChar | schema.go:76 | replacing keeps the length and changes exactly the matched characters, so none is left |
| Strings.LastIndexOf | loader.go:27 | the position is the last `/`, or none when there is none |
| Strings.Split | nasr.go:214 | the pieces are never empty as a list, hold no separator, and join back to the input |
| Strings.SplitJoin | nasr.go:214 | splitting a join of separator-free pieces gives the pieces back |
| Strings.TrimPrefix | zip.go:29 | a present prefix is removed, otherwise the text is kept |
| Strings.TrimSuffix | loader.go:30 | a present suffix is removed, otherwise the text is kept |
| Strings.LessTransitive | schema.go:169 | Go's string order is transitive |
| Strings.LessTotal | schema.go:169 | of two different strings one is smaller |
| Sorting.SortStrings | schema.go:169 | `sort.Strings` returns a permutation in ascending order |
| Sorting.SortBy | schema.go:209-211 | a sort by parent exists: sorted and a permutation |
| Sorting.SortedUnique | schema.go:209-211 | two sorted permutations with distinct keys are equal |
| Rows.AppendIncreasing | loader.go:100-102 | a row inserted with the next rowid keeps rowids increasing |
| Rows.WithoutMembers | nasr.go:187 | after deleting rowids, the survivors are exactly the rows whose rowid was not deleted |
| Rows.WithoutIncreasing | nasr.go:187 | deleting keeps the survivors in rowid order |
| Rows.WithoutWithout | nasr.go:180-190 | deleting one set of rowids and then another is deleting both |
| Rows.WithoutNone | nasr.go:175-177 | deleting no rowid of the table changes nothing |
| Rows.RowidsWithKeyEmpty | nasr.go:148-157 | the rowid query finds nothing iff the group key has a NULL or no row has it, so a NULL group is skipped with no deletion |
| Rows.RowidsWithKeyWithout | nasr.go:155-157 | deleting rows of other keys leaves a group's rowid query unchanged |
| Rows.LaterDuplicatesOfGroup | nasr.go:175-191 | the rowids after the first of a group are exactly the group's later duplicates |
| Rows.DedupStep | nasr.go:134-192 | thinning one more group, after the groups done, is thinning them all |
| Rows.DeduplicatedMembers | nasr.go:180-190 | a row survives deduplication iff it is not a later duplicate, and survivors are rows of the table |
| Rows.EarliestSurvivor | nasr.go:180 | every row's key is held by a surviving row at or before it: the lowest rowid is kept |
| Rows.SurvivorsDiffer | nasr.go:195-198 | two survivors never share a NULL-free key |
| Rows.DeduplicatedUnique | nasr.go:195-198 | after deduplication rowids still increase and the unique index fits, so the retry cannot fail on duplicates |
| Rows.DeduplicatedKeys | nasr.go:125-191 | deduplication keeps the set of distinct keys of the table |
| Database.InsertOutcome | loader.go:100-102 | a successful insert appends the row with the next rowid |
| Database.DistinctIsUnique | nasr.go:106 | the test `CREATE UNIQUE INDEX` makes is exactly the unique-index invariant |
| Database.CreateTableValid | nasr.go:51-55 | creating a table keeps the database valid |
| Database.AppendUnique | loader.go:100-102 | a row repeating no stored NULL-free key keeps a unique index |
| Database.InsertValid | loader.go:100-102 | a successful insert keeps the database valid |
| Database.WithoutUnique | nasr.go:187 | deleting rows keeps every unique index |
| Database.DeleteValid | nasr.go:253 | deleting rows keeps the database valid |
| Database.IndexValid | nasr.go:106 | a successful index keeps the database valid |
| Database.Db.constructor | nasr.go:36 | a new database is empty |
| Database.Db.CreateTable | nasr.go:52 | the statement records the table with no rows, or fails and changes nothing |
| Database.Db.Insert | loader.go:100 | the insert's outcome, and the table it leaves |
| Database.Db.Delete | nasr.go:187 | `DELETE ... WHERE rowid = ?` removes that rowid's row, if any, and fails only for a missing table |
| Database.Db.CreateIndex | nasr.go:106 | the index goes on iff the stored rows allow it; nothing else changes |
| Database.Db.Rollback | loader.go:55 | the rows are put back as they were, nothing else changes |
| Database.Db.DuplicateGroups | nasr.go:125-132 | the `GROUP BY ... HAVING count(*) > 1` query returns the duplicated keys, NULLs grouped together |
| Database.Db.RowidsMatching | nasr.go:154-173 | the rowid query returns the rowids with that key in order, none for a key with a NULL |
| Database.Db.ForeignKeyCheck | nasr.go:225 | the check reports exactly the orphan rows, or the mismatch error |
| Repair.DeleteRowids | nasr.go:180-191 | the delete loop removes exactly the given rowids from the table |
| Repair.ThinGroup | nasr.go:154-191 | one group loses every rowid after its lowest; a group with fewer than two rows loses none |
| Repair.ThinGroups | nasr.go:134-192 | the group loop removes exactly the later duplicates of every group, in whatever order the groups come |
| Repair.EnsureIndex | nasr.go:105-198 | one statement leaves exactly the effect `EnsureIndexStep` states: an index whose table is already duplicate-free goes on; one stopped by duplicates has its table deduplicated on the parsed key and goes on at the retry; a statement that does not parse, or names a missing table or column, fails with rows and indexes unchanged |
| Repair.EnsureIndexShrinks | nasr.go:105-198 | one statement only removes rows, keeps every table in rowid order and never drops an index |
| Repair.EnsureIndexInstalls | nasr.go:105-198 | a statement that succeeds has its index installed |
| Repair.EnsureIndexFails | nasr.go:105-198 | a failing statement changes nothing and is never the retry after deduplication |
| Repair.EnsureIndexTouchesOnlyIndexed | nasr.go:125-191 | a statement leaves alone every table other than the one it indexes |
| Repair.DedupFailurePersists | nasr.go:112-115 | after a failing statement the later statements are not run |
| Repair.DedupShrinks | nasr.go:104-201 | the whole run only removes rows, keeps rowid order and never drops an index |
| Repair.DedupInstalls | nasr.go:104-201 | a run that succeeds has the index of every statement in place |
| Repair.DedupFails | nasr.go:195-198 | a run that fails never fails at the retry after deduplication |
| Repair.DedupTouchesOnlyIndexed | nasr.go:104-201 | a table that no statement indexes comes through the run unchanged |
| Repair.DeduplicateParents | nasr.go:104-201 | the statement loop leaves exactly the rows, indexes and outcome of `DedupOutcome`: the statements in order, stopping at the first failure |
| Orphans.DeleteViolations | nasr.go:250-256 | the delete loop removes exactly the reported rowids from their tables |
| Orphans.DeleteOrphans | nasr.go:224-259 | all violations are collected first, then exactly those rows are deleted and no other table changes; the check fails, with nothing deleted, iff a foreign key lacks its parent index |
| Orphans.OrphansRemovedMembers | nasr.go:238-256 | a row survives iff it was not an orphan |
| Orphans.OrphansRemovedUntouched | nasr.go:250-256 | a table no violation names is unchanged |
| Orphans.ViolationOf | nasr.go:225 | every orphan row under a key is reported with its rowid, its parent and SQLite's key number |
| Orphans.ViolationFrom | nasr.go:225 | every reported violation comes from an orphan row |
| Orphans.OnePassSuffices | nasr.go:75-96 | when no reported row lives in a referenced table, one pass leaves no violation |
| Orphans.OnePassByIntermediates | nasr.go:75-96 | the same when no reported row is in a table that is both child and parent |
| Orphans.CatalogOnePassSuffices | foreignkeys.go:11-13 | for the catalog, one pass suffices unless a runway or runway end is reported |
| Orphans.RunwayReported | nasr.go:225 | a runway whose airport is missing is reported |
| Orphans.RunwayEndFound | nasr.go:225 | its end still finds the runway |
| Orphans.RunwayGone | nasr.go:250-256 | one pass deletes the runway and keeps its end |
| Orphans.RunwayEndStranded | nasr.go:80-96 | the kept end is then a violation |
| Orphans.RunwayCascade | nasr.go:94-96 | one orphan pass can leave a violation, so the final check can fail |
| Orphans.DedupAddsNoViolation | nasr.go:70-78 | thinning a parent on the key every reference uses creates no new orphan |
| Orphans.DedupViolationKept | nasr.go:70-78 | every violation after thinning was reported before |
| Loader.ConvertValue | loader.go:108-119 | NULL iff the field is empty and the column nullable; a number iff the field is non-empty in a REAL column and parses, and then it is the parsed number; otherwise the text unchanged |
| Loader.BuildRow | loader.go:91-98 | exactly one value per schema column: the converted field where the record has one, NULL past its end |
| Loader.ShapedRowIgnoresExtra | loader.go:92-98 | fields past the schema's width are ignored |
| Loader.ShapedRowNulls | loader.go:91-98 | a value is NULL iff its field is missing, or empty in a nullable column |
| Loader.PaddedNullRejected | loader.go:96-102 | a record too short for a NOT NULL column fails its insert |
| Loader.InsertQuery | loader.go:57-61 | the statement is `INSERT INTO "<name>" VALUES (` and one `?` per column joined by `, ` |
| Loader.InsertQueryPlaceholders | loader.go:57-61 | the statement has exactly one `?` per column, for a name with none |
| Loader.StripBOMMeaning | loader.go:70-73 | one leading `EF BB BF` is removed; any other start is kept |
| Loader.InsertRecordsFailurePersists | loader.go:100-102 | after a failing insert the later records change nothing |
| Loader.InsertRecordsAppend | loader.go:82-103 | a successful run appends one row per record, holding its shaped values, after the old rows; no other table changes |
| Loader.LoadCSV | loader.go:50-106 | a file loads as one transaction: success gives the specified tables; any failure rolls back, with the reason |
| Loader.TableNameForMeaning | loader.go:17-35 | a file is loaded iff it ends in `.csv`, not in `_CSV_DATA_STRUCTURE.csv`, and its base name minus `.csv` is a schema key, into that table |
| Loader.LoadAllTouchesOnlyLoaded | loader.go:16-48 | the load keeps the tables and leaves alone every table no file loads into |
| Loader.LoadFile | loader.go:18-45 | one file of the loop: skipped, or loaded into its table |
| Loader.LoadAllCSVs | loader.go:16-48 | files in archive order, stopping at the first that fails to load |
| Loader.LoadAllFailurePersists | loader.go:41-45 | after a failing file, the later files are not read |
| Zip.CycleNameOf | zip.go:29-30 | trimming the directory and suffix gives the cycle name back |
| Zip.IsInnerCSVZipMeaning | zip.go:26-33 | an entry qualifies iff its name is `CSV_Data/`, a hyphen-free middle, and `_CSV.zip` |
| Zip.FullArchiveSelected | zip.go:26-34 | a full cycle archive qualifies |
| Zip.DeltaArchiveSkipped | zip.go:31-33 | a delta archive between two cycles does not |
| Zip.Qualifies | zip.go:26-33 | the loop body's test, prefix and suffix first and then the hyphen, is the qualifying predicate |
| Zip.SelectInner | zip.go:22-36 | the first qualifying entry is chosen; none iff none qualifies |
| Zip.OpenInnerCSVZip | zip.go:22-55 | the files of the first qualifying entry; an error iff none qualifies, or when that entry does not open |
| Extract.CreateTables | nasr.go:51-55 | statements in name order, each creating its schema's `name`. The loop fails iff the database rejects some name's definition, and then with the first rejected name and its error, after all earlier names passed. Success leaves exactly the generated tables, empty |
| Extract.Statements | nasr.go:49-50 | `generateDDL` gives every schema key once in ascending order, whose tables are exactly the schemas' definitions, and the index list written for the keys |
| Extract.AttemptOnItsOwn | nasr.go:51-54 | over the sorted names, a statement meets no table of its own name, so the database answers it as it answers that definition on its own |
| Extract.AcceptedInNameOrder | schema.go:164-173 | over the sorted names, every definition passes iff the database accepts every table's definition |
| Extract.FirstFailingAttempt | nasr.go:51-54 | the first rejected statement names the first rejected table in name order, with that table's own error |
| Extract.CreationInNameOrder | nasr.go:51-55 | the loop's outcome over the sorted names, restated over the schemas: passes iff every definition is accepted, and otherwise fails at the first rejected one |
| Extract.DefsForEnumeration | nasr.go:50-55 | creating the tables of the sorted names creates one per schema |
| Extract.FinalCheck | nasr.go:80-96 | passes iff the check reports nothing; a failure with violations reports their number |
| Extract.RepairAndCheck | nasr.go:70-96 | de-duplication leaves what `DedupOutcome` states and stops the run on failure; a missing parent index fails the orphan pass with the rows unchanged; otherwise the rows lose exactly the reported orphans, and the run passes iff none remains, else reports how many remain |
| Extract.CreateSchema | nasr.go:49-55 | the index statements are those `generateDDL` writes; the step passes iff the database accepts every table's definition, and then leaves exactly the schemas' tables, empty, with no index; a failure names the first rejected table in name order and its error |
| Extract.BuildTables | nasr.go:49-66 | a failure is either the first rejected table, with its error, or, once every table is accepted, the load fold's error; success leaves exactly the schemas' tables holding what `loadAllCSVs` loads into the empty tables |
| Extract.IndexStatementsDetermined | schema.go:208-222 | when the kept keys' parents are distinct, only one index list can be written |
| Extract.CatalogIndexStatementsDetermined | schema.go:208-222 | the catalog's index list is unique, so a run's final tables do not depend on the sort |
| Extract.GeneratedIndexesInstalled | nasr.go:70-72 | when every written statement reads back and is installed, every parent key, as (parent table, columns), has its index |
| Extract.NoMismatchWhenIndexed | nasr.go:75-77 | with one key per parent and every parent key indexed, no foreign key of the tables lacks its parent index |
| Extract.ExtractWith | nasr.go:49-98 | `RunEnded`: the run stops at the first failing step. A failure at the tables names the first rejected table and its error. A load failure carries the load fold's error once every table is accepted. A de-duplication failure carries the error of the fold of the index statements over the loaded rows, and is never the retry. A final-check failure counts the violations left. The orphan pass cannot fail. Past the tables the database holds exactly the schemas' tables. Past de-duplication the rows are the loaded rows, de-duplicated, with the reported orphans deleted, and every parent key is indexed. Success leaves no violation |
| Extract.Extract | nasr.go:49-98 | `RunEnded` for the catalog, with the index list `generateDDL` writes for it, which is unique (`CatalogIndexStatementsDetermined`): every way the run can end, as for `ExtractWith` |

## Left out

- Opening and reading the zip archives (zip.go:16-20, 41-57; schema.go:34-43; nasr.go:57-61): this is library I/O. An outer entry carries the inner archive's files, or `None` when opening or reading it failed.
- CSV tokenising by `encoding/csv` (schema.go:50-65; loader.go:75-89): this is library code. The metadata streams come as records. `loadCSV` takes a reader parameter that returns the records before the first error and whether an error stopped it. Go's reader keeps `FieldsPerRecord` at 0, so a record of another width stops the read. As a result, padding with NULL happens only when the header is narrower than the schema.
- Read errors in the middle of a structure file (schema.go:63-64): these belong to the tokeniser, so the model cannot produce them.
- `strconv.ParseFloat` is a parameter: floating point is not modelled.
- `os.Stat`, `sql.Open` and the PRAGMAs in `Extract` (nasr.go:18-47): these are process and driver I/O. `Extract` starts from the parsed schemas and the inner archive's files. `Schema.ParseSchemas` and `Zip.OpenInnerCSVZip` are modelled separately.
- `f.Open` errors in `loadAllCSVs` (loader.go:37-40): file I/O.
- Loops that read a driver's result rows or build text, which have no loop in the model:
  - the final count of the violations (nasr.go:86-93) is `Extract.FinalCheck`, the size of the `Db.ForeignKeyCheck` set;
  - the violation scan in `deleteOrphans` (nasr.go:239-245) is the set `Db.ForeignKeyCheck` returns;
  - the rowid scan (nasr.go:164-172) is the sequence `Db.RowidsMatching` returns;
  - the query-text loops of `deduplicateParents` (nasr.go:118-122, 146-152) and its scan-pointer loop (nasr.go:135-139) are not modelled, because the queries are executed by their parameters (see the assumptions above);
  - the log-key loop (nasr.go:181-184) builds only log text.
- Scan errors, `rows.Err` and `log.Printf` output (nasr.go:140-143, 166-170, 241-248, 88-91, 185-186, 251-252): driver and log I/O.
- Beginning and preparing a transaction (loader.go:51-67), and the `tx.Commit()` error (loader.go:105): the model fails the prepare only when the table is missing or has another width, and the commit never fails.
- SQLite's name case-insensitivity, type affinity, and index identity by name: `CREATE UNIQUE INDEX` is identified by its (table, columns).
- Go's `%q` escaping (`strconv.Quote`): names are quoted as `"` + name + `"`. This is exact only for names that are valid UTF-8 and made of printable runes (as `unicode.IsPrint` decides) other than `"` and `\`. Go would escape any other rune, such as U+00A0, U+200B or an invalid byte.
- The `DELETE` error branches in nasr.go:187-190 and 253-255 cannot be reached in the model, because deleting from an existing table does not fail there.
- The order in which the `GROUP BY` query returns duplicate groups is left open; `Repair.ThinGroups` proves the result does not depend on it.
- The sentinel coercion in nasr_test.go and the data-dependent counts of the real archive are not part of this model. The catalog counts (38 relationships, 18 parent keys) are proved.
