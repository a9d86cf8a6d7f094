/**
 * Reading back what `generateDDL` writes: the unique-index statement made for a foreign key
 * parses, with the pattern `parseUniqueIndex` uses, into that key's parent table and columns.
 */
module IndexRoundTrip {
  import opened Wrappers
  import opened Strings
  import opened ForeignKeys
  import opened Ddl
  import opened UniqueIndex

  /** The column list with the space after each comma moved into the next piece. */
  function Spaced(xs: seq<string>): (r: seq<string>)
    ensures |r| == |xs|
  {
    seq(|xs|, k requires 0 <= k < |xs| => if k == 0 then xs[k] else " " + xs[k])
  }

  lemma JoinPrefixed(pre: string, a: string, r: seq<string>, sep: string)
    ensures Join([pre + a] + r, sep) == pre + Join([a] + r, sep)
  {
    if r != [] {
      assert ([pre + a] + r)[1..] == r && ([a] + r)[1..] == r;
    }
  }

  /** Joining with `, ` is joining with `,` after moving each space into the following piece. */
  lemma {:induction false} JoinSpaced(xs: seq<string>)
    ensures Join(xs, ", ") == Join(Spaced(xs), ",")
    decreases |xs|
  {
    if |xs| > 1 {
      var tail := xs[1..];
      JoinSpaced(tail);
      var st := Spaced(tail);
      assert st == [tail[0]] + st[1..];
      assert Spaced(xs)[1..] == [" " + tail[0]] + st[1..];
      JoinPrefixed(" ", tail[0], st[1..], ",");
    }
  }

  /** A quoted name has no space at either end, and the one space before it is trimmed away. */
  lemma TrimSpaceQuoted(c: string)
    ensures TrimSpace(Quote(c)) == Quote(c)
    ensures TrimSpace(" " + Quote(c)) == Quote(c)
  {
    var q := Quote(c);
    assert LeadingSpaces(q) == 0;
    assert TrailingSpaces(q) == 0;
    var sq := " " + q;
    assert sq[1..] == q;
    assert LeadingSpaces(sq) == 1;
  }

  /** Trimming `"` from a quoted name without quotes gives back the name. */
  lemma TrimQuotes(c: string)
    requires '"' !in c
    ensures TrimChar(Quote(c), '"') == c
  {
    var q := Quote(c);
    if c == [] {
      assert q == "\"\"";
      assert LeadingCount(q, '"') == 2;
    } else {
      assert q[1] == c[0];
      assert LeadingCount(q, '"') == 1;
      var t := q[1..];
      assert t == c + "\"";
      assert t[|t| - 2] == c[|c| - 1] != '"';
      assert TrailingCount(t, '"') == 1;
      assert t[..|t| - 1] == c;
    }
  }

  /** A quoted name, with or without the space before it, cleans back to the name. */
  lemma CleanQuoted(c: string)
    requires '"' !in c
    ensures CleanColumn(Quote(c)) == c
    ensures CleanColumn(" " + Quote(c)) == c
  {
    TrimSpaceQuoted(c);
    TrimQuotes(c);
  }

  /** The pieces of a quoted column list hold no comma. */
  lemma SpacedNoComma(cols: seq<string>)
    requires forall i | 0 <= i < |cols| :: PlainName(cols[i])
    ensures forall i | 0 <= i < |cols| :: ',' !in Spaced(QuoteAll(cols))[i]
  {
    forall i | 0 <= i < |cols| ensures ',' !in Spaced(QuoteAll(cols))[i] {
      assert PlainName(cols[i]);
      assert forall k | 0 <= k < |cols[i]| :: cols[i][k] != ',';
    }
  }

  /** Each piece of a quoted column list, cleaned, is the column it quotes. */
  lemma ColumnsOfList(cols: seq<string>)
    requires cols != []
    requires forall i | 0 <= i < |cols| :: PlainName(cols[i])
    ensures Columns(ColumnList(cols)) == cols
  {
    var quoted := QuoteAll(cols);
    var pieces := Spaced(quoted);
    JoinSpaced(quoted);
    SpacedNoComma(cols);
    SplitJoin(pieces, ',');
    assert Split(ColumnList(cols), ',') == pieces;
    forall i | 0 <= i < |cols| ensures CleanColumn(pieces[i]) == cols[i] {
      assert PlainName(cols[i]);
      assert forall k | 0 <= k < |cols[i]| :: cols[i][k] != '"';
      CleanQuoted(cols[i]);
    }
  }

  /** What the statement's opening, up to `ON`, offers the pattern. */
  lemma HeaderShape(lead: string, name: string, rest: string)
    requires |lead| == 21 && forall k | 0 <= k < 21 :: lead[k] != 'O'
    requires forall k | 0 <= k < |name| :: !IsRegexSpace(name[k])
    ensures var s := lead + name + "\" " + rest;
      && 23 + |name| <= |s|
      && (forall k | 0 <= k < 21 :: s[k] != 'O')
      && (forall k | 21 <= k < 21 + |name| :: !IsRegexSpace(s[k]))
      && s[21 + |name|] == '"' && s[22 + |name|] == ' '
  {
    var s := lead + name + "\" " + rest;
    assert forall k | 0 <= k < 21 :: s[k] == lead[k];
    assert forall k | 21 <= k < 21 + |name| :: s[k] == name[k - 21];
  }

  /** An index name holds no `\s` character when the names it is made of hold none. */
  lemma IndexNameNoSpace(fk: ForeignKey)
    requires PlainName(fk.parentTable)
    requires forall i | 0 <= i < |fk.columns| :: PlainName(fk.columns[i])
    ensures forall k | 0 <= k < |IndexName(fk)| :: !IsRegexSpace(IndexName(fk)[k])
  {
    var notSpace := (c: char) => !IsRegexSpace(c);
    assert All(fk.parentTable, notSpace);
    forall i | 0 <= i < |fk.columns| ensures All(fk.columns[i], notSpace) {
      assert PlainName(fk.columns[i]);
    }
    JoinKeeps(fk.columns, "_", notSpace);
    assert All("idx_", notSpace) && All("_", notSpace);
    var name := IndexName(fk);
    var j := Join(fk.columns, "_");
    assert name == "idx_" + fk.parentTable + "_" + j;
    forall k | 0 <= k < |name| ensures !IsRegexSpace(name[k]) {
      if k < 4 + |fk.parentTable| + 1 {
      } else {
        assert name[k] == j[k - (5 + |fk.parentTable|)];
      }
    }
  }

  /** The quoted column list holds no `)`. */
  lemma ColumnListNoParen(cols: seq<string>)
    requires forall i | 0 <= i < |cols| :: PlainName(cols[i])
    ensures ')' !in ColumnList(cols)
  {
    var noParen := (c: char) => c != ')';
    var q := QuoteAll(cols);
    forall i | 0 <= i < |q| ensures All(q[i], noParen) {
      assert PlainName(cols[i]);
    }
    JoinKeeps(q, ", ", noParen);
    var list := ColumnList(cols);
    assert forall k | 0 <= k < |list| :: list[k] != ')';
  }

  /** The pattern first matches right after the name in a statement shaped like an index statement. */
  lemma FoundAfterHeader(lead: string, name: string, t: string, list: string)
    requires |lead| == 21 && forall k | 0 <= k < 21 :: lead[k] != 'O'
    requires forall k | 0 <= k < |name| :: !IsRegexSpace(name[k])
    requires t != [] && '"' !in t && list != [] && ')' !in list
    ensures Find(lead + name + "\" " + ("ON \"" + t + "\" (" + list + ")" + ";")) == Some((t, list))
  {
    var rest := "ON \"" + t + "\" (" + list + ")" + ";";
    var pre := lead + name + "\" ";
    var stmt := lead + name + "\" " + rest;
    assert stmt == pre + "ON \"" + t + "\" (" + list + ")" + ";";
    MatchAtBuilt(pre, t, list, ";");
    HeaderShape(lead, name, rest);
    forall p | 0 <= p < |pre| ensures MatchAt(stmt, p).None? {
      NoMatchInHeader(stmt, |name|, p);
    }
    FindFromFirst(stmt, 0, |pre|, MatchAt);
  }

  /** The index statement split where the pattern's match begins. */
  lemma IndexStatementShape(fk: ForeignKey)
    ensures IndexStatement(fk) == IndexLead + IndexName(fk) + "\" " + ("ON \"" + fk.parentTable + "\" (" + ColumnList(fk.columns) + ")" + ";")
  {
    StatementShape(IndexName(fk), fk.parentTable, ColumnList(fk.columns));
  }

  lemma StatementShape(n: string, t: string, l: string)
    ensures "CREATE UNIQUE INDEX " + Quote(n) + " ON " + Quote(t) + " (" + l + ");"
         == IndexLead + n + "\" " + ("ON \"" + t + "\" (" + l + ")" + ";")
  {
  }

  /** The opening of every index statement, up to its name. */
  const IndexLead := "CREATE UNIQUE INDEX \""

  lemma IndexLeadHasNoO()
    ensures |IndexLead| == 21 && forall k | 0 <= k < 21 :: IndexLead[k] != 'O'
  {
  }

  /**
   * Round trip: reading back the index statement written for a foreign key yields its parent
   * table and its columns, for names that need no quoting.
   */
  lemma IndexStatementParses(fk: ForeignKey)
    requires fk.parentTable != [] && PlainName(fk.parentTable)
    requires fk.columns != [] && forall i | 0 <= i < |fk.columns| :: PlainName(fk.columns[i])
    ensures ParsedIndex(IndexStatement(fk)) == Ok((fk.parentTable, fk.columns))
  {
    IndexStatementShape(fk);
    IndexNameNoSpace(fk);
    ColumnListNoParen(fk.columns);
    assert '"' !in fk.parentTable by {
      assert PlainName(fk.parentTable);
    }
    IndexLeadHasNoO();
    FoundAfterHeader(IndexLead, IndexName(fk), fk.parentTable, ColumnList(fk.columns));
    ColumnsOfList(fk.columns);
  }

  // The catalog's names need no quoting

  /** The parent table names, checked character by character. */
  lemma ParentNamesPlain0()
    ensures PlainName("APT_BASE")
    ensures PlainName("APT_RWY")
    ensures PlainName("APT_RWY_END")
    ensures PlainName("NAV_BASE")
    ensures PlainName("FIX_BASE")
    ensures PlainName("AWY_BASE")
  {
  }

  lemma ParentNamesPlain1()
    ensures PlainName("ILS_BASE")
    ensures PlainName("ATC_BASE")
    ensures PlainName("STAR_BASE")
    ensures PlainName("DP_BASE")
    ensures PlainName("HPF_BASE")
    ensures PlainName("PFR_BASE")
  {
  }

  lemma ParentNamesPlain2()
    ensures PlainName("MTR_BASE")
    ensures PlainName("ARB_BASE")
    ensures PlainName("WXL_BASE")
    ensures PlainName("MAA_BASE")
    ensures PlainName("PJA_BASE")
    ensures PlainName("FSS_BASE")
  {
  }

  /** The key column names, checked character by character. */
  lemma KeyColumnsPlain0()
    ensures PlainName("SITE_NO")
    ensures PlainName("RWY_ID")
    ensures PlainName("RWY_END_ID")
    ensures PlainName("NAV_ID")
    ensures PlainName("NAV_TYPE")
    ensures PlainName("FIX_ID")
    ensures PlainName("ICAO_REGION_CODE")
  {
  }

  lemma KeyColumnsPlain1()
    ensures PlainName("AWY_ID")
    ensures PlainName("ILS_LOC_ID")
    ensures PlainName("FACILITY_ID")
    ensures PlainName("FACILITY_TYPE")
    ensures PlainName("STAR_COMPUTER_CODE")
    ensures PlainName("DP_COMPUTER_CODE")
    ensures PlainName("HP_NAME")
  {
  }

  lemma KeyColumnsPlain2()
    ensures PlainName("HP_NO")
    ensures PlainName("ORIGIN_ID")
    ensures PlainName("DSTN_ID")
    ensures PlainName("PFR_TYPE_CODE")
    ensures PlainName("ROUTE_NO")
    ensures PlainName("ROUTE_TYPE_CODE")
    ensures PlainName("ROUTE_ID")
  {
  }

  lemma KeyColumnsPlain3()
    ensures PlainName("LOCATION_ID")
    ensures PlainName("WEA_ID")
    ensures PlainName("MAA_ID")
    ensures PlainName("PJA_ID")
    ensures PlainName("FSS_ID")
  {
  }

  /** Every name `ParentNamed` can give needs no quoting. */
  lemma ParentNamedPlain(n: int)
    ensures PlainName(ParentNamed(n))
  {
    ParentNamesPlain0(); ParentNamesPlain1(); ParentNamesPlain2();
  }

  /** Every column of every key `ParentKey` can give needs no quoting. */
  lemma ParentKeyPlain(n: int)
    ensures forall j | 0 <= j < |ParentKey(n)| :: PlainName(ParentKey(n)[j])
  {
    KeyColumnsPlain0(); KeyColumnsPlain1(); KeyColumnsPlain2(); KeyColumnsPlain3();
  }

  /** The catalog names its parent tables and key columns with names that need no quoting. */
  lemma CatalogNamesPlain()
    ensures forall i | 0 <= i < |Catalog()| ::
      && Catalog()[i].parentTable != [] && PlainName(Catalog()[i].parentTable)
      && Catalog()[i].columns != [] && forall j | 0 <= j < |Catalog()[i].columns| :: PlainName(Catalog()[i].columns[j])
  {
    CatalogFingerprints();
    CatalogEntriesWellFormed();
    forall i | 0 <= i < |Catalog()|
      ensures Catalog()[i].parentTable != [] && PlainName(Catalog()[i].parentTable)
      ensures forall j | 0 <= j < |Catalog()[i].columns| :: PlainName(Catalog()[i].columns[j])
    {
      ParentNamedPlain(ParentFingerprint(i));
      ParentKeyPlain(ParentFingerprint(i));
      assert Fingerprint(Catalog()[i].parentTable) == ParentFingerprint(i) >= 2;
    }
  }

  /**
   * Every unique-index statement `generateDDL` writes for the catalog reads back, with the
   * pattern of `parseUniqueIndex`, as its key's parent table and columns.
   */
  lemma CatalogIndexStatementsParse()
    ensures forall k | 0 <= k < |FirstOccurrences(Catalog())| ::
      ParsedIndex(IndexStatement(FirstOccurrences(Catalog())[k]))
        == Ok((FirstOccurrences(Catalog())[k].parentTable, FirstOccurrences(Catalog())[k].columns))
  {
    var c := Catalog();
    var r := FirstOccurrences(c);
    CatalogNamesPlain();
    forall k | 0 <= k < |r| ensures ParsedIndex(IndexStatement(r[k])) == Ok((r[k].parentTable, r[k].columns)) {
      FirstOccurrencesAreFirst(c, k);
      var i :| FirstWithKey(c, i, r[k]);
      IndexStatementParses(r[k]);
    }
  }
}
