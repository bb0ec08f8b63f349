/** Round trips through the matchers: a clause or statement written in the
    canonical form each pattern describes is matched, and the groups give
    back the parts it was written from. */
module PatternFacts {
  import opened Wrappers
  import opened Text
  import opened Schema
  import opened Patterns

  /** The leftmost match is at `p` when `p` matches and nothing before it does. */
  lemma {:induction false} LeftmostAt<T>(s: string, from: nat, p: nat, m: (string, nat) -> Option<T>)
    requires from <= p <= |s| && m(s, p).Some?
    requires forall k :: from <= k < p ==> m(s, k).None?
    ensures Leftmost(s, from, m) == Some((p, m(s, p).value))
    decreases p - from
  {
    if from < p {
      LeftmostAt(s, from + 1, p, m);
    }
  }

  // ---------------------------------------------------------------------------
  // Foreign key clauses
  // ---------------------------------------------------------------------------

  /** `FOREIGN KEY (<cols>) REFERENCES <table>(<refs>)` */
  function FkClauseText(cols: string, table: string, refs: string): (s: string)
    ensures |s| == 28 + |cols| + |table| + |refs|
  {
    "FOREIGN KEY (" + cols + ") REFERENCES " + table + "(" + refs + ")"
  }

  /** What a foreign key clause may be written from: non-empty lists without
      `)`, and an identifier as table. */
  predicate FkParts(cols: string, table: string, refs: string) {
    |cols| > 0 && ')' !in cols && |table| > 0 && All(table, IsWordChar) && |refs| > 0 && ')' !in refs
  }

  /** Where the pieces of a foreign key clause sit in `s`. The lemmas below
      work on any such `s`, so that the concatenation itself stays out of
      their proofs. */
  predicate FkLayout(s: string, cols: string, table: string, refs: string) {
    var c := |cols|;
    var t := |table|;
    && |s| == 28 + c + t + |refs|
    && s[..13] == "FOREIGN KEY ("
    && s[..7] == "FOREIGN" && s[7] == ' ' && s[8..11] == "KEY" && s[11] == ' ' && s[12] == '('
    && s[13..13 + c] == cols
    && s[13 + c..26 + c] == ") REFERENCES "
    && s[13 + c] == ')' && s[14 + c] == ' ' && s[15 + c..25 + c] == "REFERENCES" && s[25 + c] == ' '
    && s[26 + c..26 + c + t] == table
    && s[26 + c + t] == '('
    && s[27 + c + t..27 + c + t + |refs|] == refs
    && s[|s| - 1] == ')'
  }

  lemma FkTextChars(cols: string, table: string, refs: string)
    ensures FkLayout(FkClauseText(cols, table, refs), cols, table, refs)
  {
    var s := FkClauseText(cols, table, refs);
    var a := "FOREIGN KEY (" + cols;
    var b := a + ") REFERENCES ";
    var d := b + table;
    var e := d + "(";
    var f := e + refs;
    assert s == f + ")";
    assert s[..|f|] == f && f[..|e|] == e && e[..|d|] == d && d[..|b|] == b && b[..|a|] == a;
    assert a[..13] == "FOREIGN KEY (" && a[13..] == cols;
    assert b[|a|..] == ") REFERENCES ";
    FkPunctuation(s, |cols|);
    assert d[|b|..] == table;
    assert f[|e|..] == refs;
  }

  lemma FkTextPoints(s: string, cols: string, table: string, refs: string)
    requires FkLayout(s, cols, table, refs)
    ensures var c := |cols|; var t := |table|;
      && (forall k :: 0 <= k < c ==> s[13 + k] == cols[k])
      && (forall k :: 0 <= k < t ==> s[26 + c + k] == table[k])
      && (forall k :: 0 <= k < |refs| ==> s[27 + c + t + k] == refs[k])
  {
    var c := |cols|;
    var t := |table|;
    var cs := s[13..13 + c];
    var ts := s[26 + c..26 + c + t];
    var rs := s[27 + c + t..27 + c + t + |refs|];
    assert forall k :: 0 <= k < c ==> s[13 + k] == cs[k];
    assert forall k :: 0 <= k < t ==> s[26 + c + k] == ts[k];
    assert forall k :: 0 <= k < |refs| ==> s[27 + c + t + k] == rs[k];
  }

  /** The fixed words and punctuation inside the two literal pieces. */
  lemma FkPunctuation(s: string, c: nat)
    requires 26 + c <= |s| && s[..13] == "FOREIGN KEY (" && s[13 + c..26 + c] == ") REFERENCES "
    ensures s[..7] == "FOREIGN" && s[7] == ' ' && s[8..11] == "KEY" && s[11] == ' ' && s[12] == '('
    ensures s[13 + c] == ')' && s[14 + c] == ' ' && s[15 + c..25 + c] == "REFERENCES" && s[25 + c] == ' '
  {
    var head := s[..13];
    var mid := s[13 + c..26 + c];
    assert forall k :: 0 <= k < 13 ==> s[k] == head[k];
    assert forall k :: 0 <= k < 13 ==> s[13 + c + k] == mid[k];
    assert s[..7] == head[..7];
    assert s[8..11] == head[8..11];
    assert s[15 + c..25 + c] == mid[2..12];
  }

  /** The character-level facts the matchers look at, without slices. */
  predicate FkChars(s: string, cols: string, table: string, refs: string) {
    var c := |cols|;
    var t := |table|;
    && |s| == 28 + c + t + |refs|
    && KeywordAt(s, 0, "FOREIGN") && s[7] == ' ' && s[8] == 'K' && KeywordAt(s, 8, "KEY") && s[11] == ' ' && s[12] == '('
    && (forall k :: 0 <= k < c ==> s[13 + k] == cols[k])
    && s[13 + c] == ')' && s[14 + c] == ' ' && s[15 + c] == 'R' && KeywordAt(s, 15 + c, "REFERENCES") && s[25 + c] == ' '
    && (forall k :: 0 <= k < t ==> s[26 + c + k] == table[k])
    && s[26 + c + t] == '('
    && (forall k :: 0 <= k < |refs| ==> s[27 + c + t + k] == refs[k])
    && s[27 + c + t + |refs|] == ')'
  }

  lemma FkLayoutChars(s: string, cols: string, table: string, refs: string)
    requires FkLayout(s, cols, table, refs)
    ensures FkChars(s, cols, table, refs)
  {
    var c := |cols|;
    FkTextPoints(s, cols, table, refs);
    LiteralIsKeyword(s, 0, "FOREIGN");
    LiteralIsKeyword(s, 8, "KEY");
    LiteralIsKeyword(s, 15 + c, "REFERENCES");
    assert s[8] == s[8..11][0];
    assert s[15 + c] == s[15 + c..25 + c][0];
  }

  lemma NoCloseParen(x: string)
    requires ')' !in x
    ensures All(x, NotCloseParen)
  {
    forall k | 0 <= k < |x|
      ensures NotCloseParen(x[k])
    {
      assert x[k] in x;
    }
  }

  lemma FkColumnsMatch(s: string, cols: string, table: string, refs: string)
    requires FkParts(cols, table, refs) && FkChars(s, cols, table, refs)
    ensures ForeignKeyListAt(s, 0) == Some(Slice(13, 13 + |cols|))
  {
    var c := |cols|;
    SpanUnique(s, 7, 8, IsSpace);
    SpanUnique(s, 11, 12, IsSpace);
    NoCloseParen(cols);
    SpanOver(s, 13, cols, NotCloseParen);
    ListAtParts(s, 12, 13 + c);
  }

  lemma FkTableSpans(s: string, cols: string, table: string, refs: string)
    requires FkParts(cols, table, refs) && FkChars(s, cols, table, refs)
    ensures var c := |cols|; var t := |table|;
      && Span(s, 14 + c, IsSpace) == 15 + c
      && Span(s, 25 + c, IsSpace) == 26 + c
      && Span(s, 26 + c, IsWordChar) == 26 + c + |table|
      && !IsQuote(s[26 + c]) && !IsQuote(s[26 + c + t])
  {
    var c := |cols|;
    SpanUnique(s, 14 + c, 15 + c, IsSpace);
    assert s[26 + c] == table[0] && IsWordChar(table[0]);
    SpanUnique(s, 25 + c, 26 + c, IsSpace);
    SpanOver(s, 26 + c, table, IsWordChar);
  }

  lemma FkRefSpans(s: string, cols: string, table: string, refs: string)
    requires FkParts(cols, table, refs) && FkChars(s, cols, table, refs)
    ensures var c := |cols|; var t := |table|;
      && Span(s, 26 + c + t, IsSpace) == 26 + c + t
      && Span(s, 27 + c + t, NotCloseParen) == 27 + c + t + |refs|
  {
    var c := |cols|;
    var t := |table|;
    SpanUnique(s, 26 + c + t, 26 + c + t, IsSpace);
    NoCloseParen(refs);
    SpanOver(s, 27 + c + t, refs, NotCloseParen);
  }

  /** The list pattern at an opening parenthesis whose run of non-`)`
      characters is non-empty and closed. */
  lemma ListAtParts(s: string, i: nat, e: nat)
    requires i + 1 < e < |s| && s[i] == '(' && Span(s, i + 1, NotCloseParen) == e
    ensures ListAt(s, i) == Some(Slice(i + 1, e))
  {
  }

  /** The references pattern at `j` when `REFERENCES` starts at `b`, the table
      name runs over `[t0, t1)` without quotes, and the list follows at once. */
  lemma ReferencesAtParts(s: string, j: nat, b: nat, t0: nat, t1: nat, g: Slice)
    requires j <= b && b + 10 < t0 < t1 < |s|
    requires Span(s, j, IsSpace) == b && KeywordAt(s, b, "REFERENCES") && Span(s, b + 10, IsSpace) == t0
    requires !IsQuote(s[t0]) && Span(s, t0, IsWordChar) == t1 && !IsQuote(s[t1]) && Span(s, t1, IsSpace) == t1
    requires ListAt(s, t1) == Some(g)
    ensures ReferencesAt(s, j) == Some((Slice(t0, t1), g))
  {
  }

  lemma FkReferencesMatch(s: string, cols: string, table: string, refs: string)
    requires FkParts(cols, table, refs) && FkChars(s, cols, table, refs)
    ensures var c := |cols|; var t := |table|;
      ReferencesAt(s, 14 + c) == Some((Slice(26 + c, 26 + c + t), Slice(27 + c + t, 27 + c + t + |refs|)))
  {
    var c := |cols|;
    var t := |table|;
    FkTableSpans(s, cols, table, refs);
    FkRefSpans(s, cols, table, refs);
    ListAtParts(s, 26 + c + t, 27 + c + t + |refs|);
    ReferencesAtParts(s, 14 + c, 15 + c, 26 + c, 26 + c + t, Slice(27 + c + t, 27 + c + t + |refs|));
  }

  lemma FkAtStart(s: string, cols: string, table: string, refs: string)
    requires FkParts(cols, table, refs) && FkChars(s, cols, table, refs)
    ensures var c := |cols|; var t := |table|;
      FkAt(s, 0) == Some(FkMatch(Slice(13, 13 + c), Slice(26 + c, 26 + c + t), Slice(27 + c + t, 27 + c + t + |refs|)))
  {
    FkColumnsMatch(s, cols, table, refs);
    FkReferencesMatch(s, cols, table, refs);
  }

  /** The search when the pattern matches at the very start. */
  lemma FkSearchAt(s: string, m: FkMatch, cols: string, table: string, refs: string)
    requires FkAt(s, 0) == Some(m)
    requires ValidSlice(s, m.columns) && ValidSlice(s, m.refTable) && ValidSlice(s, m.refColumns)
    requires s[m.columns.lo..m.columns.hi] == cols && s[m.refTable.lo..m.refTable.hi] == table
    requires s[m.refColumns.lo..m.refColumns.hi] == refs
    ensures SearchFk(s) == Some(FkText(cols, table, refs))
  {
    LeftmostAt(s, 0, 0, FkAt);
    SearchFkFound(s, 0, m);
  }

  lemma FkMatchOf(s: string, cols: string, table: string, refs: string)
    requires FkParts(cols, table, refs) && FkLayout(s, cols, table, refs)
    ensures var c := |cols|; var t := |table|;
      FkAt(s, 0) == Some(FkMatch(Slice(13, 13 + c), Slice(26 + c, 26 + c + t), Slice(27 + c + t, 27 + c + t + |refs|)))
  {
    FkLayoutChars(s, cols, table, refs);
    FkAtStart(s, cols, table, refs);
  }

  lemma FkSearchOf(s: string, cols: string, table: string, refs: string)
    requires FkParts(cols, table, refs) && FkLayout(s, cols, table, refs)
    ensures SearchFk(s) == Some(FkText(cols, table, refs))
  {
    var c := |cols|;
    var t := |table|;
    var m := FkMatch(Slice(13, 13 + c), Slice(26 + c, 26 + c + t), Slice(27 + c + t, 27 + c + t + |refs|));
    FkMatchOf(s, cols, table, refs);
    FkSearchAt(s, m, cols, table, refs);
  }

  /** A canonical foreign key clause yields back its column list, referenced
      table and referenced column list. */
  lemma FkRoundTrip(cols: string, table: string, refs: string)
    requires FkParts(cols, table, refs)
    ensures SearchFk(FkClauseText(cols, table, refs)) == Some(FkText(cols, table, refs))
  {
    FkTextChars(cols, table, refs);
    FkSearchOf(FkClauseText(cols, table, refs), cols, table, refs);
  }

  /** The search reports the groups of the leftmost match. */
  lemma SearchFkFound(s: string, i: nat, m: FkMatch)
    requires Leftmost(s, 0, FkAt) == Some((i, m))
    requires ValidSlice(s, m.columns) && ValidSlice(s, m.refTable) && ValidSlice(s, m.refColumns)
    ensures SearchFk(s) == Some(FkText(s[m.columns.lo..m.columns.hi], s[m.refTable.lo..m.refTable.hi], s[m.refColumns.lo..m.refColumns.hi]))
  {
  }

  /** The column pattern on a clause whose name run ends at `n`, followed by
      one space and a type run ending at `e`. */
  lemma ColumnAt(s: string, n: nat, e: nat)
    requires 0 < n && n + 1 < e <= |s| && s[n] == ' ' && !IsQuote(s[0]) && !IsQuote(s[n])
    requires Span(s, 0, IsSpace) == 0 && Span(s, 0, IsWordChar) == n
    requires Span(s, n, IsSpace) == n + 1 && Span(s, n + 1, IsTypeChar) == e
    ensures MatchColumn(s) == Some(ColumnMatch(s[..n], s[n + 1..e]))
  {
  }

  /** The column pattern reads the same clause as a column `FOREIGN` of type
      `KEY`. */
  lemma FkClauseAsColumn(cols: string, table: string, refs: string)
    ensures MatchColumn(FkClauseText(cols, table, refs)) == Some(ColumnMatch("FOREIGN", "KEY"))
  {
    var s := FkClauseText(cols, table, refs);
    FkTextChars(cols, table, refs);
    FkHeadSpans(s);
    ColumnAt(s, 7, 11);
  }

  /** A string opening with `FOREIGN KEY `, read by the column pattern. */
  lemma FkHeadSpans(s: string)
    requires 11 < |s| && s[..7] == "FOREIGN" && s[7] == ' ' && s[8..11] == "KEY" && s[11] == ' '
    ensures
      && !IsQuote(s[0]) && !IsQuote(s[7])
      && Span(s, 0, IsSpace) == 0 && Span(s, 0, IsWordChar) == 7
      && Span(s, 7, IsSpace) == 8 && Span(s, 8, IsTypeChar) == 11
  {
    var w := s[..7];
    var k := s[8..11];
    assert forall j :: 0 <= j < 7 ==> s[j] == w[j];
    assert forall j :: 0 <= j < 3 ==> s[8 + j] == k[j];
    assert s[0] == 'F' && s[8] == 'K';
    SpanUnique(s, 0, 0, IsSpace);
    SpanOver(s, 0, "FOREIGN", IsWordChar);
    SpanUnique(s, 7, 8, IsSpace);
    SpanOver(s, 8, "KEY", IsTypeChar);
  }

  // ---------------------------------------------------------------------------
  // Column definitions and key clauses
  // ---------------------------------------------------------------------------

  /** A column definition `<name> <type><rest>`, where `rest` does not continue
      the type, yields back its name and type. */
  lemma ColumnRoundTrip(name: string, typ: string, rest: string)
    requires |name| > 0 && All(name, IsWordChar)
    requires |typ| > 0 && All(typ, IsTypeChar)
    requires rest == [] || !IsTypeChar(rest[0])
    ensures MatchColumn(name + " " + typ + rest) == Some(ColumnMatch(name, typ))
  {
    ColumnSpans(name, typ, rest);
    ColumnAt(name + " " + typ + rest, |name|, |name| + 1 + |typ|);
  }

  lemma ColumnSpans(name: string, typ: string, rest: string)
    requires |name| > 0 && All(name, IsWordChar)
    requires |typ| > 0 && All(typ, IsTypeChar)
    requires rest == [] || !IsTypeChar(rest[0])
    ensures var s := name + " " + typ + rest; var n := |name|; var e := n + 1 + |typ|;
      && e <= |s| && s[n] == ' ' && !IsQuote(s[0]) && !IsQuote(s[n])
      && Span(s, 0, IsSpace) == 0 && Span(s, 0, IsWordChar) == n
      && Span(s, n, IsSpace) == n + 1 && Span(s, n + 1, IsTypeChar) == e
      && s[..n] == name && s[n + 1..e] == typ
  {
    var s := name + " " + typ + rest;
    var n := |name|;
    var e := n + 1 + |typ|;
    assert forall k :: 0 <= k < n ==> s[k] == name[k];
    assert forall k :: n + 1 <= k < e ==> s[k] == typ[k - n - 1];
    assert s[n] == ' ' && s[0] == name[0];
    assert e < |s| ==> s[e] == rest[0];
    SpanUnique(s, 0, 0, IsSpace);
    SpanUnique(s, 0, n, IsWordChar);
    SpanUnique(s, n, n + 1, IsSpace);
    SpanUnique(s, n + 1, e, IsTypeChar);
    assert s[..n] == name && s[n + 1..e] == typ;
  }

  /** Any clause ending in ` PRIMARY KEY` carries the inline marker. */
  lemma InlineMarker(x: string)
    ensures HasPrimaryKey(x + " PRIMARY KEY")
  {
    var s := x + " PRIMARY KEY";
    var n := |x|;
    var tail := " PRIMARY KEY";
    assert forall k :: 0 <= k < 12 ==> s[n + k] == tail[k];
    assert s[n + 1] == 'P' && s[n + 2] == 'R' && s[n + 3] == 'I' && s[n + 4] == 'M';
    assert s[n + 5] == 'A' && s[n + 6] == 'R' && s[n + 7] == 'Y' && s[n + 8] == ' ';
    assert s[n + 9] == 'K' && s[n + 10] == 'E' && s[n + 11] == 'Y';
    assert KeywordAt(s, n + 1, "PRIMARY");
    SpanUnique(s, n + 8, n + 9, IsSpace);
    assert KeywordAt(s, n + 9, "KEY");
    assert PrimaryKeyAt(s, n + 1).Some?;
  }

  /** `PRIMARY KEY (<cols>)` */
  function TablePkText(cols: string): (s: string)
    ensures |s| == 14 + |cols|
  {
    "PRIMARY KEY (" + cols + ")"
  }

  /** A table-level key clause yields back its column list. */
  lemma TablePkRoundTrip(cols: string)
    requires |cols| > 0 && ')' !in cols
    ensures SearchTablePk(TablePkText(cols)) == Some(cols)
  {
    var s := TablePkText(cols);
    var c := |cols|;
    var head := "PRIMARY KEY (";
    assert forall k :: 0 <= k < 13 ==> s[k] == head[k];
    assert forall k :: 0 <= k < c ==> s[13 + k] == cols[k];
    assert s[7] == ' ' && s[11] == ' ' && s[12] == '(' && s[13 + c] == ')';
    assert KeywordAt(s, 0, "PRIMARY") && KeywordAt(s, 8, "KEY");
    SpanUnique(s, 7, 8, IsSpace);
    assert PrimaryKeyAt(s, 0) == Some(11);
    SpanUnique(s, 11, 12, IsSpace);
    assert forall k :: 13 <= k < 13 + c ==> s[k] == cols[k - 13];
    SpanUnique(s, 13, 13 + c, NotCloseParen);
    assert TablePkAt(s, 0) == Some(Slice(13, 13 + c));
    LeftmostAt(s, 0, 0, TablePkAt);
    assert s[13..13 + c] == cols;
  }

  // ---------------------------------------------------------------------------
  // Clause splitting
  // ---------------------------------------------------------------------------

  /** The whitespace a piece starts with holds no newline. */
  predicate QuietStart(x: string) {
    forall k :: 0 <= k < Span(x, 0, IsSpace) ==> x[k] != '\n'
  }

  /** Pieces that splitting gives back unchanged once joined with `,` and a
      newline: no comma inside, and no newline in the whitespace a later
      piece starts with (it would be taken into the separator). */
  predicate Splittable(xs: seq<string>) {
    && |xs| >= 1
    && (forall k :: 0 <= k < |xs| ==> ',' !in xs[k])
    && (forall k :: 1 <= k < |xs| ==> QuietStart(xs[k]))
  }

  lemma QuietStartAppend(a: string, b: string)
    requires QuietStart(a)
    requires b == [] || !IsSpace(b[0])
    ensures QuietStart(a + b)
  {
    var j := Span(a, 0, IsSpace);
    SpanAll(a, 0, IsSpace);
    assert forall k :: 0 <= k < |a| ==> (a + b)[k] == a[k];
    assert j == |a| + |b| || !IsSpace((a + b)[j]);
    SpanUnique(a + b, 0, j, IsSpace);
  }

  /** A join of at least two pieces is the first piece, a separator, and
      the join of the rest. */
  lemma JoinFirst(xs: seq<string>)
    requires |xs| >= 2
    ensures JoinWith(xs, ",\n") == xs[0] + ",\n" + JoinWith(xs[1..], ",\n")
  {
  }

  /** A join starts the way its first piece does. */
  lemma JoinQuietStart(xs: seq<string>)
    requires |xs| >= 1 && QuietStart(xs[0])
    ensures QuietStart(JoinWith(xs, ",\n"))
  {
    if |xs| >= 2 {
      JoinFirst(xs);
      var rest := ",\n" + JoinWith(xs[1..], ",\n");
      assert JoinWith(xs, ",\n") == xs[0] + rest;
      QuietStartAppend(xs[0], rest);
    } else {
      assert JoinWith(xs, ",\n") == xs[0] + [];
      QuietStartAppend(xs[0], []);
    }
  }

  /** No separator can start inside a piece without commas. */
  lemma NoSeparatorIn(s: string, n: nat, atEnd: bool)
    requires n <= |s| && ',' !in s[..n]
    ensures forall k :: 0 <= k < n ==> SeparatorAt(s, k, atEnd).None?
  {
    assert forall k :: 0 <= k < n ==> s[k] == s[..n][k];
  }

  /** A separator at `p` whose whitespace run ends at `q` and holds exactly one
      newline, right after the comma. */
  lemma SeparatorAtParts(s: string, p: nat, q: nat, atEnd: bool)
    requires p + 2 <= q <= |s| && s[p] == ','
    requires Span(s, p + 1, IsSpace) == q && SpanBack(s, p + 1, q, NotNewline) == p + 2
    ensures SeparatorAt(s, p, atEnd) == Some(p + 2)
  {
  }

  /** The whitespace run after a comma that starts with a newline and holds no
      other one. */
  lemma SeparatorRun(s: string, p: nat, q: nat)
    requires p + 2 <= q <= |s| && s[p + 1] == '\n'
    requires forall k :: p + 2 <= k < q ==> IsSpace(s[k]) && s[k] != '\n'
    requires q == |s| || !IsSpace(s[q])
    ensures Span(s, p + 1, IsSpace) == q && SpanBack(s, p + 1, q, NotNewline) == p + 2
  {
    SpanUnique(s, p + 1, q, IsSpace);
    SpanBackUnique(s, p + 1, q, p + 2, NotNewline);
  }

  /** A run found in `tail` is found, shifted by `off`, in a string that ends
      with `tail`. */
  lemma ShiftedRun(s: string, tail: string, off: nat, j: nat, p: char -> bool)
    requires off + |tail| == |s| && j <= |tail|
    requires forall i :: 0 <= i < |tail| ==> s[off + i] == tail[i]
    requires forall k :: 0 <= k < j ==> p(tail[k]) && tail[k] != '\n'
    requires j == |tail| || !p(tail[j])
    ensures forall k :: off <= k < off + j ==> p(s[k]) && s[k] != '\n'
    ensures off + j == |s| || !p(s[off + j])
  {
    forall k | off <= k < off + j
      ensures p(s[k]) && s[k] != '\n'
    {
      assert s[k] == tail[k - off];
    }
    if off + j < |s| {
      assert s[off + j] == tail[j];
    }
  }

  lemma JoinFacts(a: string, tail: string)
    ensures var s := a + ",\n" + tail;
      && |s| == |a| + 2 + |tail| && s[|a|] == ',' && s[|a| + 1] == '\n'
      && forall i :: 0 <= i < |tail| ==> s[|a| + 2 + i] == tail[i]
  {
  }

  /** The separator spans in any string that holds `tail` from `off` on,
      right after a comma and a newline. */
  lemma SeparatorSpansAt(s: string, off: nat, tail: string)
    requires 2 <= off && off + |tail| == |s| && s[off - 2] == ',' && s[off - 1] == '\n'
    requires forall i :: 0 <= i < |tail| ==> s[off + i] == tail[i]
    requires QuietStart(tail)
    ensures var q := off + Span(tail, 0, IsSpace);
      Span(s, off - 1, IsSpace) == q && SpanBack(s, off - 1, q, NotNewline) == off
  {
    var j := Span(tail, 0, IsSpace);
    SpanAll(tail, 0, IsSpace);
    ShiftedRun(s, tail, off, j, IsSpace);
    SeparatorRun(s, off - 2, off + j);
  }

  lemma SeparatorSpans(a: string, tail: string)
    requires QuietStart(tail)
    ensures var s := a + ",\n" + tail; var p := |a|; var q := p + 2 + Span(tail, 0, IsSpace);
      && q <= |s| && s[p] == ','
      && Span(s, p + 1, IsSpace) == q && SpanBack(s, p + 1, q, NotNewline) == p + 2
  {
    JoinFacts(a, tail);
    SeparatorSpansAt(a + ",\n" + tail, |a| + 2, tail);
  }

  /** A comma and newline followed by whitespace without another newline form
      exactly one separator. */
  lemma SeparatorBefore(a: string, tail: string, atEnd: bool)
    requires QuietStart(tail)
    ensures SeparatorAt(a + ",\n" + tail, |a|, atEnd) == Some(|a| + 2)
  {
    SeparatorSpans(a, tail);
    SeparatorAtParts(a + ",\n" + tail, |a|, |a| + 2 + Span(tail, 0, IsSpace), atEnd);
  }

  lemma FirstSeparatorBefore(a: string, tail: string, atEnd: bool)
    requires ',' !in a && QuietStart(tail)
    ensures FirstSeparator(a + ",\n" + tail, atEnd) == Some((|a|, |a| + 2))
  {
    var s := a + ",\n" + tail;
    assert s[..|a|] == a;
    NoSeparatorIn(s, |a|, atEnd);
    SeparatorBefore(a, tail, atEnd);
    if atEnd {
      LeftmostAt(s, 0, |a|, CurrentSeparatorAt);
    } else {
      LeftmostAt(s, 0, |a|, LegacySeparatorAt);
    }
  }

  lemma SingleClause(x: string, atEnd: bool)
    requires ',' !in x
    ensures SplitClauses(x, atEnd) == [x]
  {
    assert x[..|x|] == x;
    NoSeparatorIn(x, |x|, atEnd);
    assert SeparatorAt(x, |x|, atEnd).None?;
  }

  lemma SplitAfterFirst(a: string, tail: string, atEnd: bool)
    requires ',' !in a && QuietStart(tail)
    ensures SplitClauses(a + ",\n" + tail, atEnd) == [a] + SplitClauses(tail, atEnd)
  {
    var s := a + ",\n" + tail;
    FirstSeparatorBefore(a, tail, atEnd);
    assert s[..|a|] == a;
    assert s[|a| + 2..] == tail;
  }

  lemma SplitJoinStep(xs: seq<string>, atEnd: bool)
    requires |xs| >= 2 && ',' !in xs[0] && QuietStart(xs[1])
    requires SplitClauses(JoinWith(xs[1..], ",\n"), atEnd) == xs[1..]
    ensures SplitClauses(JoinWith(xs, ",\n"), atEnd) == xs
  {
    var tail := JoinWith(xs[1..], ",\n");
    JoinFirst(xs);
    JoinQuietStart(xs[1..]);
    SplitAfterFirst(xs[0], tail, atEnd);
    assert xs == [xs[0]] + xs[1..];
  }

  /** Pieces joined with `,` and a newline split back into the same pieces,
      under either separator pattern. */
  lemma {:induction false} SplitJoinRoundTrip(xs: seq<string>, atEnd: bool)
    requires Splittable(xs)
    ensures SplitClauses(JoinWith(xs, ",\n"), atEnd) == xs
    decreases |xs|
  {
    if |xs| == 1 {
      SingleClause(xs[0], atEnd);
    } else {
      assert Splittable(xs[1..]) by {
        assert forall k :: 1 <= k < |xs[1..]| ==> xs[1..][k] == xs[k + 1];
      }
      SplitJoinRoundTrip(xs[1..], atEnd);
      SplitJoinStep(xs, atEnd);
    }
  }

  // ---------------------------------------------------------------------------
  // CREATE TABLE statements
  // ---------------------------------------------------------------------------

  /** `<pre>CREATE TABLE <name> (<body>);<post>` */
  function CreateText(pre: string, name: string, body: string, post: string): (s: string)
    ensures |s| == |pre| + |name| + |body| + |post| + 17
  {
    pre + "CREATE TABLE " + name + " (" + body + ");" + post
  }

  /** `body` holds no `);`. */
  predicate NoTerminator(body: string) {
    forall i :: 0 <= i < |body| - 1 ==> !(body[i] == ')' && body[i + 1] == ';')
  }

  /** A statement starts with the letter C. */
  lemma CreateNeedsC(s: string, k: nat)
    ensures CreateAt(s, k).Some? ==> k < |s| && Lower(s[k]) == 'c'
  {
    if CreateAt(s, k).Some? {
      assert KeywordAt(s, k, "CREATE");
      assert Lower(s[k + 0]) == Lower("CREATE"[0]);
    }
  }

  lemma CreatePoints(pre: string, name: string, body: string, post: string)
    ensures var s := CreateText(pre, name, body, post); var P := |pre|; var n := |name|;
      var b := P + 15 + n; var e := b + |body| + 2;
      && (forall k :: 0 <= k < P ==> s[k] == pre[k])
      && (forall k :: 0 <= k < n ==> s[P + 13 + k] == name[k])
      && (forall k :: 0 <= k < |body| ==> s[b + k] == body[k])
      && (forall k :: 0 <= k < |post| ==> s[e + k] == post[k])
      && s[P + 6] == ' ' && s[P + 12] == ' ' && s[P + 13 + n] == ' ' && s[P + 14 + n] == '('
      && s[b + |body|] == ')' && s[b + |body| + 1] == ';'
      && KeywordAt(s, P, "CREATE") && KeywordAt(s, P + 7, "TABLE")
      && s[P + 13..P + 13 + n] == name && s[b..b + |body|] == body
  {
    var s := CreateText(pre, name, body, post);
    var P := |pre|;
    var n := |name|;
    var h := "CREATE TABLE ";
    var s1 := pre + h;
    var s2 := s1 + name;
    var s3 := s2 + " (";
    var s4 := s3 + body;
    var s5 := s4 + ");";
    assert s == s5 + post;
    assert forall k :: 0 <= k < 13 ==> s[P + k] == h[k];
    assert s[P..P + 13] == h;
  }

  lemma CreateHeadSpans(pre: string, name: string, body: string, post: string)
    requires |name| > 0 && All(name, IsWordChar)
    ensures var s := CreateText(pre, name, body, post); var P := |pre|; var n := |name|;
      && Span(s, P + 6, IsSpace) == P + 7
      && Span(s, P + 12, IsSpace) == P + 13
      && Span(s, P + 13, IsWordChar) == P + 13 + n
      && Span(s, P + 13 + n, IsSpace) == P + 14 + n
      && !IsQuote(s[P + 13]) && !IsQuote(s[P + 13 + n])
  {
    var s := CreateText(pre, name, body, post);
    var P := |pre|;
    var n := |name|;
    CreatePoints(pre, name, body, post);
    assert s[P + 13] == name[0];
    SpanUnique(s, P + 6, P + 7, IsSpace);
    SpanUnique(s, P + 12, P + 13, IsSpace);
    assert forall k :: P + 13 <= k < P + 13 + n ==> s[k] == name[k - P - 13];
    SpanUnique(s, P + 13, P + 13 + n, IsWordChar);
    SpanUnique(s, P + 13 + n, P + 14 + n, IsSpace);
  }

  lemma CreateHead(pre: string, name: string, body: string, post: string)
    requires |name| > 0 && All(name, IsWordChar)
    ensures var P := |pre|; var n := |name|;
      HeadAt(CreateText(pre, name, body, post), P) == Some(Head(Slice(P + 13, P + 13 + n), P + 14 + n))
  {
    CreateHeadSpans(pre, name, body, post);
    CreatePoints(pre, name, body, post);
  }

  lemma CreateBodyEnd(pre: string, name: string, body: string, post: string)
    requires NoTerminator(body)
    ensures var b := |pre| + 15 + |name|; var s := CreateText(pre, name, body, post);
      && (forall k :: b <= k < b + |body| ==> TerminatorAt(s, k).None?)
      && TerminatorAt(s, b + |body|).Some?
  {
    var s := CreateText(pre, name, body, post);
    var b := |pre| + 15 + |name|;
    CreatePoints(pre, name, body, post);
    forall k | b <= k < b + |body|
      ensures !LiteralAt(s, k, ");")
    {
      LiteralChars(s, k, ");");
      if k < b + |body| - 1 {
        assert s[k] == body[k - b] && s[k + 1] == body[k - b + 1];
      }
    }
    assert s[b + |body|..b + |body| + 2] == ");";
  }

  lemma CreateMatchAt(pre: string, name: string, body: string, post: string)
    requires |name| > 0 && All(name, IsWordChar) && NoTerminator(body)
    ensures var P := |pre|; var n := |name|; var b := P + 15 + n;
      CreateAt(CreateText(pre, name, body, post), P)
        == Some(CreateMatch(Slice(P + 13, P + 13 + n), Slice(b, b + |body|)))
  {
    CreateHead(pre, name, body, post);
    CreateTerminator(pre, name, body, post);
  }

  lemma CreateTerminator(pre: string, name: string, body: string, post: string)
    requires NoTerminator(body)
    ensures var b := |pre| + 15 + |name|;
      Leftmost(CreateText(pre, name, body, post), b, TerminatorAt) == Some((b + |body|, ()))
  {
    var s := CreateText(pre, name, body, post);
    var b := |pre| + 15 + |name|;
    CreateBodyEnd(pre, name, body, post);
    LeftmostAt(s, b, b + |body|, TerminatorAt);
  }

  lemma NoCreateIn(s: string, lo: nat, hi: nat)
    requires lo <= hi <= |s| && forall k :: lo <= k < hi ==> Lower(s[k]) != 'c'
    ensures forall k :: lo <= k < hi ==> CreateAt(s, k).None?
  {
    forall k | lo <= k < hi
      ensures CreateAt(s, k).None?
    {
      CreateNeedsC(s, k);
    }
  }

  lemma CreateLeftmost(pre: string, name: string, body: string, post: string)
    requires NoLetter(pre, 'c') && |name| > 0 && All(name, IsWordChar) && NoTerminator(body)
    ensures var P := |pre|; var n := |name|; var b := P + 15 + n;
      Leftmost(CreateText(pre, name, body, post), 0, CreateAt)
        == Some((P, CreateMatch(Slice(P + 13, P + 13 + n), Slice(b, b + |body|))))
  {
    var s := CreateText(pre, name, body, post);
    CreatePoints(pre, name, body, post);
    NoCreateIn(s, 0, |pre|);
    CreateMatchAt(pre, name, body, post);
    LeftmostAt(s, 0, |pre|, CreateAt);
  }

  lemma NothingAfter(pre: string, name: string, body: string, post: string)
    requires NoLetter(post, 'c')
    ensures var s := CreateText(pre, name, body, post);
      StatementsFrom(s, |pre| + |name| + |body| + 17) == []
  {
    var s := CreateText(pre, name, body, post);
    var e := |pre| + |name| + |body| + 17;
    CreatePoints(pre, name, body, post);
    NoCreateIn(s, e, |s|);
    CreateNeedsC(s, |s|);
  }

  /** What a scan needs to see one statement and nothing else: the first
      match of `m`, at `p`, captures `name` and `body`, and nothing follows its
      end. */
  ghost predicate LoneStatement(s: string, p: nat, name: string, body: string, m: (string, nat) -> Option<CreateMatch>)
    requires Advancing(m)
  {
    var b := p + 15 + |name|;
    && b + |body| + 2 <= |s|
    && Leftmost(s, 0, m) == Some((p, CreateMatch(Slice(p + 13, p + 13 + |name|), Slice(b, b + |body|))))
    && s[p + 13..p + 13 + |name|] == name
    && s[b..b + |body|] == body
    && Scan(s, b + |body| + 2, m) == []
  }

  lemma CreateIsLone(pre: string, name: string, body: string, post: string)
    requires NoLetter(pre, 'c') && NoLetter(post, 'c')
    requires |name| > 0 && All(name, IsWordChar) && NoTerminator(body)
    ensures Advancing(CreateAt) && LoneStatement(CreateText(pre, name, body, post), |pre|, name, body, CreateAt)
  {
    CreateAdvancing();
    CreateLeftmost(pre, name, body, post);
    CreateSlices(pre, name, body, post);
    NothingAfter(pre, name, body, post);
  }

  lemma LoneStatements(s: string, p: nat, name: string, body: string, m: (string, nat) -> Option<CreateMatch>)
    requires Advancing(m) && LoneStatement(s, p, name, body, m)
    ensures Scan(s, 0, m) == [Named(name, body)]
  {
    var b := p + 15 + |name|;
    StatementsStep(s, 0, p, CreateMatch(Slice(p + 13, p + 13 + |name|), Slice(b, b + |body|)), m);
  }

  /** A lone statement between text without the letter C is found, and its
      name and body come back unchanged. */
  lemma StatementRoundTrip(pre: string, name: string, body: string, post: string)
    requires NoLetter(pre, 'c') && NoLetter(post, 'c')
    requires |name| > 0 && All(name, IsWordChar) && NoTerminator(body)
    ensures Statements(CreateText(pre, name, body, post)) == [Named(name, body)]
  {
    CreateIsLone(pre, name, body, post);
    LoneStatements(CreateText(pre, name, body, post), |pre|, name, body, CreateAt);
  }

  lemma CreateSlices(pre: string, name: string, body: string, post: string)
    ensures var s := CreateText(pre, name, body, post); var P := |pre|; var n := |name|; var b := P + 15 + n;
      s[P + 13..P + 13 + n] == name && s[b..b + |body|] == body
  {
    CreatePoints(pre, name, body, post);
  }
}
