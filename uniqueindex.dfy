/**
 * `parseUniqueIndex` of nasr.go: recovering the parent table and key columns from a
 * CREATE UNIQUE INDEX statement with the pattern `ON\s+"([^"]+)"\s+\(([^)]+)\)`.
 *
 * Every quantifier of the pattern is followed by a character its class excludes, so at each
 * start position there is at most one way to match, and Go's leftmost-first search is the
 * first position at which that one way succeeds.
 */
module UniqueIndex {
  import opened Wrappers
  import opened Strings

  /** How many `\s` characters follow position `i`, taken greedily. */
  function SpacesFrom(s: string, i: nat): (n: nat)
    requires i <= |s|
    ensures i + n <= |s|
    ensures forall k | i <= k < i + n :: IsRegexSpace(s[k])
    ensures i + n < |s| ==> !IsRegexSpace(s[i + n])
    decreases |s| - i
  {
    if i < |s| && IsRegexSpace(s[i]) then 1 + SpacesFrom(s, i + 1) else 0
  }

  /** How many characters other than `c` follow position `i`, taken greedily: `[^c]*`. */
  function OthersFrom(s: string, i: nat, c: char): (n: nat)
    requires i <= |s|
    ensures i + n <= |s|
    ensures forall k | i <= k < i + n :: s[k] != c
    ensures i + n < |s| ==> s[i + n] == c
    decreases |s| - i
  {
    if i < |s| && s[i] != c then 1 + OthersFrom(s, i + 1, c) else 0
  }

  /** One element of the pattern: a literal character, `\s+`, or a group `([^c]+)`. */
  datatype Element = Char(c: char) | Spaces | Until(c: char)

  /**
   * `ON\s+"([^"]+)"\s+\(([^)]+)\)`, element by element. Each `\s+` and each group is followed
   * by a character its own class excludes, so matching each greedily loses no match.
   */
  const IndexPattern: seq<Element> :=
    [Char('O'), Char('N'), Spaces, Char('"'), Until('"'), Char('"'), Spaces, Char('('), Until(')'), Char(')')]

  /** Matches `pat` at position `i` of `s`, yielding the text of each group in order; no group is empty. */
  function MatchElements(s: string, i: nat, pat: seq<Element>): (r: Option<seq<string>>)
    requires i <= |s|
    ensures r.Some? ==> forall g | 0 <= g < |r.value| :: r.value[g] != []
    decreases |pat|
  {
    if pat == [] then Some([])
    else match pat[0]
      case Char(c) =>
        if i < |s| && s[i] == c then MatchElements(s, i + 1, pat[1..]) else None
      case Spaces =>
        var n := SpacesFrom(s, i);
        if n == 0 then None else MatchElements(s, i + n, pat[1..])
      case Until(c) =>
        var n := OthersFrom(s, i, c);
        if n == 0 then None
        else match MatchElements(s, i + n, pat[1..])
          case None => None
          case Some(groups) => Some([s[i..i + n]] + groups)
  }

  /** The match starting at `p`, if there is one, with its two groups: the table and the column list. */
  function MatchAt(s: string, p: nat): (r: Option<(string, string)>)
    ensures r.Some? ==> r.value.0 != [] && r.value.1 != []
  {
    if p > |s| then None
    else match MatchElements(s, p, IndexPattern)
      case None => None
      case Some(groups) => if |groups| < 2 then None else Some((groups[0], groups[1]))
  }

  /** The leftmost position at or after `p` where `m` finds a match: Go's leftmost-first search. */
  function FindFrom<T>(s: string, p: nat, m: (string, nat) -> Option<T>): (r: Option<T>)
    ensures r.None? <==> forall q | p <= q < |s| :: m(s, q).None?
    ensures r.Some? ==> exists q | p <= q < |s| :: m(s, q) == r
    decreases |s| - p
  {
    if p >= |s| then None
    else if m(s, p).Some? then m(s, p)
    else FindFrom(s, p + 1, m)
  }

  /** Go's `FindStringSubmatch` with the index pattern: the groups of the leftmost match. */
  function Find(s: string): (r: Option<(string, string)>)
    ensures r.None? <==> forall q | 0 <= q < |s| :: MatchAt(s, q).None?
    ensures r.Some? ==> r.value.0 != [] && r.value.1 != []
  {
    FindFrom(s, 0, MatchAt)
  }

  /** One comma-separated piece of the column list, trimmed of spaces and then of double quotes. */
  function CleanColumn(part: string): string {
    TrimChar(TrimSpace(part), '"')
  }

  function Columns(list: string): (cols: seq<string>)
    ensures |cols| >= 1
  {
    var parts := Split(list, ',');
    seq(|parts|, i requires 0 <= i < |parts| => CleanColumn(parts[i]))
  }

  /**
   * What `parseUniqueIndex` returns: the table and the cleaned columns of the leftmost match,
   * or an error exactly when the pattern matches nowhere in the statement.
   */
  function ParsedIndex(stmt: string): (r: Result<(string, seq<string>), string>)
    ensures r.Err? <==> forall q | 0 <= q < |stmt| :: MatchAt(stmt, q).None?
    ensures r.Ok? ==> r.value.0 != [] && |r.value.1| >= 1
  {
    match Find(stmt)
    case None => Err("cannot parse index statement: " + stmt)
    case Some((table, list)) => Ok((table, Columns(list)))
  }

  /** The column loop of `parseUniqueIndex`. */
  method CleanColumns(parts: seq<string>) returns (columns: seq<string>)
    ensures |columns| == |parts|
    ensures forall k | 0 <= k < |parts| :: columns[k] == CleanColumn(parts[k])
  {
    columns := [];
    for i := 0 to |parts|
      invariant |columns| == i
      invariant forall k | 0 <= k < i :: columns[k] == CleanColumn(parts[k])
    {
      var col := TrimSpace(parts[i]);
      col := TrimChar(col, '"');
      columns := columns + [col];
    }
  }

  /** The function: the pattern is applied, then the column loop cleans each piece. */
  method ParseUniqueIndex(stmt: string) returns (r: Result<(string, seq<string>), string>)
    ensures r == ParsedIndex(stmt)
  {
    var m := Find(stmt);
    if m.None? {
      return Err("cannot parse index statement: " + stmt);
    }
    var (table, list) := m.value;
    var columns := CleanColumns(Split(list, ','));
    assert columns == Columns(list);
    r := Ok((table, columns));
  }

  // Reading back the statements generateDDL writes

  /** A name that needs no quoting in the statements: no `"`, `,`, `)` or `\s` character. */
  predicate PlainChar(c: char) {
    c != '"' && c != ',' && c != ')' && !IsRegexSpace(c)
  }

  ghost predicate PlainName(s: string) {
    All(s, PlainChar)
  }

  /** A literal element consumes its one character. */
  lemma CharStep(s: string, i: nat, pat: seq<Element>)
    requires pat != [] && pat[0].Char?
    requires i < |s| && s[i] == pat[0].c
    ensures MatchElements(s, i, pat) == MatchElements(s, i + 1, pat[1..])
  {
  }

  /** `\s+` consumes a single space that is not followed by another. */
  lemma SpaceStep(s: string, i: nat, pat: seq<Element>)
    requires pat != [] && pat[0].Spaces?
    requires i + 1 < |s| && IsRegexSpace(s[i]) && !IsRegexSpace(s[i + 1])
    ensures MatchElements(s, i, pat) == MatchElements(s, i + 1, pat[1..])
  {
    assert SpacesFrom(s, i) == 1;
  }

  /** A group `([^c]+)` takes the text `g` up to the delimiter `c` that follows it. */
  lemma GroupStep(s: string, i: nat, pat: seq<Element>, g: string, rest: seq<string>)
    requires pat != [] && pat[0].Until?
    requires i + |g| < |s| && s[i..i + |g|] == g && g != []
    requires pat[0].c !in g && s[i + |g|] == pat[0].c
    requires MatchElements(s, i + |g|, pat[1..]) == Some(rest)
    ensures MatchElements(s, i, pat) == Some([g] + rest)
  {
    var c := pat[0].c;
    var n := OthersFrom(s, i, c);
    assert forall j | i <= j < i + |g| :: s[j] == g[j - i];
    assert n == |g|;
    assert s[i..i + n] == g;
    assert MatchElements(s, i, pat) == Some([s[i..i + n]] + rest);
  }

  /** The pattern's last four elements, `\s+\(([^)]+)\)`, match a space and a parenthesised list. */
  lemma MatchListAt(s: string, i: nat, list: string, pat: seq<Element>)
    requires |pat| == 4 && pat[0] == Spaces && pat[1] == Char('(') && pat[2] == Until(')') && pat[3] == Char(')')
    requires i + 3 + |list| <= |s| && s[i] == ' ' && s[i + 1] == '('
    requires s[i + 2..i + 2 + |list|] == list && s[i + 2 + |list|] == ')'
    requires list != [] && ')' !in list
    ensures MatchElements(s, i, pat) == Some([list])
  {
    var e := i + 2 + |list|;
    CharStep(s, e, pat[3..]);
    assert MatchElements(s, e + 1, pat[3..][1..]) == Some([]);
    GroupStep(s, i + 2, pat[2..], list, []);
    assert [list] + [] == [list];
    CharStep(s, i + 1, pat[1..]);
    SpaceStep(s, i, pat);
  }

  /** The pattern's middle, `"([^"]+)"`, matches a quoted name followed by the list. */
  lemma MatchQuotedAt(s: string, i: nat, t: string, list: string, pat: seq<Element>)
    requires |pat| == 7 && pat[0] == Char('"') && pat[1] == Until('"') && pat[2] == Char('"')
    requires pat[3] == Spaces && pat[4] == Char('(') && pat[5] == Until(')') && pat[6] == Char(')')
    requires i + 5 + |t| + |list| <= |s| && s[i] == '"'
    requires s[i + 1..i + 1 + |t|] == t && s[i + 1 + |t|] == '"'
    requires s[i + 2 + |t|] == ' ' && s[i + 3 + |t|] == '('
    requires s[i + 4 + |t|..i + 4 + |t| + |list|] == list && s[i + 4 + |t| + |list|] == ')'
    requires t != [] && '"' !in t && list != [] && ')' !in list
    ensures MatchElements(s, i, pat) == Some([t, list])
  {
    MatchListAt(s, i + 2 + |t|, list, pat[3..]);
    CharStep(s, i + 1 + |t|, pat[2..]);
    GroupStep(s, i + 1, pat[1..], t, [list]);
    CharStep(s, i, pat);
    assert [t] + [list] == [t, list];
  }

  /** The pattern matches at `p` when the text there has the expected shape. */
  lemma MatchOnAt(s: string, p: nat, t: string, list: string)
    requires p + 8 + |t| + |list| <= |s|
    requires s[p] == 'O' && s[p + 1] == 'N' && s[p + 2] == ' ' && s[p + 3] == '"'
    requires s[p + 4..p + 4 + |t|] == t && s[p + 4 + |t|] == '"'
    requires s[p + 5 + |t|] == ' ' && s[p + 6 + |t|] == '('
    requires s[p + 7 + |t|..p + 7 + |t| + |list|] == list && s[p + 7 + |t| + |list|] == ')'
    requires t != [] && '"' !in t && list != [] && ')' !in list
    ensures MatchAt(s, p) == Some((t, list))
  {
    var P := IndexPattern;
    var Q := P[3..];
    assert Q == [Char('"'), Until('"'), Char('"'), Spaces, Char('('), Until(')'), Char(')')];
    MatchQuotedAt(s, p + 3, t, list, Q);
    assert P[2..][0] == Spaces && P[2..][1..] == Q;
    SpaceStep(s, p + 2, P[2..]);
    assert P[1..][0] == Char('N') && P[1..][1..] == P[2..];
    CharStep(s, p + 1, P[1..]);
    CharStep(s, p, P);
  }

  /** The pattern matches a statement built around its expected shape. */
  lemma MatchAtBuilt(pre: string, t: string, list: string, post: string)
    requires t != [] && '"' !in t && list != [] && ')' !in list
    ensures MatchAt(pre + "ON \"" + t + "\" (" + list + ")" + post, |pre|) == Some((t, list))
  {
    var s := pre + "ON \"" + t + "\" (" + list + ")" + post;
    var p := |pre|;
    assert s[p..p + 4] == "ON \"";
    assert s[p + 4..p + 4 + |t|] == t;
    assert s[p + 4 + |t|..p + 7 + |t|] == "\" (";
    assert s[p + 7 + |t|..p + 7 + |t| + |list|] == list;
    assert s[p + 7 + |t| + |list|] == ')';
    MatchOnAt(s, p, t, list);
  }

  /** A match begins with `ON` and a space. */
  lemma MatchStartsWithOn(s: string, p: nat)
    ensures MatchAt(s, p).Some? ==> OnAt(s, p)
  {
    if MatchAt(s, p).Some? {
      var P := IndexPattern;
      CharNeeded(s, p, P);
      CharNeeded(s, p + 1, P[1..]);
      SpacesNeeded(s, p + 2, P[1..][1..]);
    }
  }

  /** `ON` followed by a `\s` character starts at `p`. */
  ghost predicate OnAt(s: string, p: nat) {
    p + 2 < |s| && s[p] == 'O' && s[p + 1] == 'N' && IsRegexSpace(s[p + 2])
  }

  /** A literal element that matches is the character at `i`. */
  lemma CharNeeded(s: string, i: nat, pat: seq<Element>)
    requires i <= |s| && pat != [] && pat[0].Char?
    requires MatchElements(s, i, pat).Some?
    ensures i < |s| && s[i] == pat[0].c && MatchElements(s, i + 1, pat[1..]) == MatchElements(s, i, pat)
  {
  }

  /** `\s+` that matches starts with a `\s` character. */
  lemma SpacesNeeded(s: string, i: nat, pat: seq<Element>)
    requires i <= |s| && pat != [] && pat[0].Spaces?
    requires MatchElements(s, i, pat).Some?
    ensures i < |s| && IsRegexSpace(s[i])
  {
  }


  /** The search stops at the first position that matches. */
  lemma {:induction false} FindFromFirst<T>(s: string, p: nat, q: nat, m: (string, nat) -> Option<T>)
    requires p <= q < |s|
    requires forall k | p <= k < q :: m(s, k).None?
    requires m(s, q).Some?
    ensures FindFrom(s, p, m) == m(s, q)
    decreases q - p
  {
    if p < q {
      FindFromFirst(s, p + 1, q, m);
    }
  }

  /** The index name, quoted, is the statement's only other word; none of it begins a match. */
  lemma NoMatchInHeader(s: string, n: nat, p: nat)
    requires 23 + n <= |s| && p < 23 + n
    requires forall k | 0 <= k < 21 :: s[k] != 'O'
    requires forall k | 21 <= k < 21 + n :: !IsRegexSpace(s[k])
    requires s[21 + n] == '"' && s[22 + n] == ' '
    ensures MatchAt(s, p).None?
  {
    MatchStartsWithOn(s, p);
    NotOnInHeader(s, n, p);
  }

  lemma NotOnInHeader(s: string, n: nat, p: nat)
    requires 23 + n <= |s| && p < 23 + n
    requires forall k | 0 <= k < 21 :: s[k] != 'O'
    requires forall k | 21 <= k < 21 + n :: !IsRegexSpace(s[k])
    requires s[21 + n] == '"' && s[22 + n] == ' '
    ensures !OnAt(s, p)
  {
    if p < 21 {
      assert s[p] != 'O';
    } else if p + 2 < 21 + n {
      assert !IsRegexSpace(s[p + 2]);
    } else if p + 2 == 21 + n {
      assert s[p + 2] == '"';
    } else if p + 1 == 21 + n {
      assert s[p + 1] == '"';
    } else {
      assert s[p] == '"' || s[p] == ' ';
    }
  }



}
