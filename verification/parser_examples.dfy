/** The schemas of the repository's test suite (tests/test_parsing.py) worked
    through the model, under both copies of the parser, built up from
    clause-level facts that hold for any names. */
module ParserExamples {
  import opened Wrappers
  import opened Text
  import opened Schema
  import opened Patterns
  import opened PatternFacts
  import opened Parser

  // ---------------------------------------------------------------------------
  // Clauses
  // ---------------------------------------------------------------------------

  /** A clause without the letter P has no primary key of either kind. */
  lemma NoPrimaryClause(s: string)
    requires NoLetter(s, 'p')
    ensures !HasPrimaryKey(s) && SearchTablePk(s).None?
  {
    PrimaryKeyNeedsKeyword(s);
    KeywordNeedsLetter(s, "PRIMARY", 0);
  }

  /** A clause without the letter F, or without `(`, has no foreign key. */
  lemma NoForeignClause(s: string)
    requires NoLetter(s, 'f') || '(' !in s
    ensures SearchFk(s).None?
  {
    FkNeedsKeyword(s);
    KeywordNeedsLetter(s, "FOREIGN", 0);
  }

  /** `<name> <type>`: the column definition both copies accept. */
  function ColumnText(name: string, typ: string): (s: string)
    ensures |s| == |name| + |typ| + 1
  {
    name + " " + typ
  }

  /** `<name> <type> PRIMARY KEY`: the current parser records a column and
      an inline key; the legacy copies record only the column. */
  lemma InlineKeyColumn(t: TableSchema, name: string, typ: string)
    requires |name| > 0 && All(name, IsWordChar)
    requires |typ| > 0 && All(typ, IsTypeChar) && '(' !in typ
    ensures var clause := ColumnText(name, typ) + " PRIMARY KEY";
      && Step(t, clause, Current) == t.(columns := t.columns + [Column(name, typ)], primaryKey := t.primaryKey + [name])
      && Step(t, clause, Legacy) == t.(columns := t.columns + [Column(name, typ)])
  {
    var clause := ColumnText(name, typ) + " PRIMARY KEY";
    ColumnRoundTrip(name, typ, " PRIMARY KEY");
    InlineMarker(ColumnText(name, typ));
    InlineKeyNoParen(name, typ);
    TablePkNeedsParen(clause);
    NoForeignClause(clause);
  }

  lemma InlineKeyNoParen(name: string, typ: string)
    requires All(name, IsWordChar) && '(' !in typ
    ensures '(' !in ColumnText(name, typ) + " PRIMARY KEY"
  {
    assert '(' !in name by {
      forall k | 0 <= k < |name| ensures name[k] != '(' {
        assert IsWordChar(name[k]);
      }
    }
    assert '(' !in " PRIMARY KEY";
  }

  /** `<name> <type>` with no letter P or F: a plain column under both parsers. */
  lemma PlainColumn(t: TableSchema, name: string, typ: string, v: Variant)
    requires |name| > 0 && All(name, IsWordChar)
    requires |typ| > 0 && All(typ, IsTypeChar)
    requires NoLetter(ColumnText(name, typ), 'p') && NoLetter(ColumnText(name, typ), 'f')
    ensures Step(t, ColumnText(name, typ), v) == t.(columns := t.columns + [Column(name, typ)])
  {
    ColumnRoundTrip(name, typ, "");
    assert ColumnText(name, typ) + "" == ColumnText(name, typ);
    NoPrimaryClause(ColumnText(name, typ));
    NoForeignClause(ColumnText(name, typ));
  }

  /** A list naming one column, with no commas and no padding, is that column. */
  lemma SingleName(g: string)
    requires |g| > 0 && ',' !in g && !IsItemPad(g[0]) && !IsItemPad(g[|g| - 1])
    ensures NameList(g) == [g]
  {
    CountAbsent(g, ',');
    assert SplitOn(g, ',') == [g];
    StripPadded([], g, [], IsItemPad);
    assert [] + g + [] == g;
  }

  /** `FOREIGN KEY (<cols>) REFERENCES <table>(<refs>)` with no letter P: the
      current parser records the key; the legacy copies also record a column
      named `FOREIGN` of type `KEY`. */
  lemma ForeignKeyLine(t: TableSchema, cols: string, table: string, refs: string)
    requires FkParts(cols, table, refs)
    requires NoLetter(cols, 'p') && NoLetter(table, 'p') && NoLetter(refs, 'p')
    ensures var clause := FkClauseText(cols, table, refs);
      var fk := ForeignKey(NameList(cols), table, NameList(refs));
      && Step(t, clause, Current) == t.(foreignKeys := t.foreignKeys + [fk])
      && Step(t, clause, Legacy) == t.(columns := t.columns + [Column("FOREIGN", "KEY")], foreignKeys := t.foreignKeys + [fk])
  {
    FkLacksP(cols, table, refs);
    NoPrimaryClause(FkClauseText(cols, table, refs));
    FkRoundTrip(cols, table, refs);
    FkClauseAsColumn(cols, table, refs);
  }

  lemma FkLacksP(cols: string, table: string, refs: string)
    requires NoLetter(cols, 'p') && NoLetter(table, 'p') && NoLetter(refs, 'p')
    ensures NoLetter(FkClauseText(cols, table, refs), 'p')
  {
    var a := "FOREIGN KEY (";
    var b := ") REFERENCES ";
    assert NoLetter(a, 'p') && NoLetter(b, 'p') && NoLetter("(", 'p') && NoLetter(")", 'p');
    NoLetterAppend(a, cols, 'p');
    NoLetterAppend(a + cols, b, 'p');
    NoLetterAppend(a + cols + b, table, 'p');
    NoLetterAppend(a + cols + b + table, "(", 'p');
    NoLetterAppend(a + cols + b + table + "(", refs, 'p');
    NoLetterAppend(a + cols + b + table + "(" + refs, ")", 'p');
  }

  // ---------------------------------------------------------------------------
  // Bodies and statements
  // ---------------------------------------------------------------------------

  /** One line of a statement body: the clause with its surrounding layout. */
  function Line(lead: string, clause: string, trail: string): (s: string)
    ensures |s| == |lead| + |clause| + |trail|
  {
    lead + clause + trail
  }

  /** Each piece with its surrounding whitespace removed, as the parser does. */
  function Trimmed(xs: seq<string>): (r: seq<string>)
    ensures |r| == |xs|
    ensures forall k :: 0 <= k < |xs| ==> r[k] == Strip(xs[k], IsSpace)
  {
    seq(|xs|, k requires 0 <= k < |xs| => Strip(xs[k], IsSpace))
  }

  /** Pieces joined by `,` and a line break come back as the clauses, trimmed. */
  lemma BodyClauses(xs: seq<string>, v: Variant)
    requires Splittable(xs)
    ensures Clauses(JoinWith(xs, ",\n"), v) == Trimmed(xs)
  {
    SplitJoinRoundTrip(xs, v == Current);
  }

  lemma NoSemicolonNoTerminator(body: string)
    requires ';' !in body
    ensures NoTerminator(body)
  {
    forall i | 0 <= i < |body| - 1 ensures !(body[i] == ')' && body[i + 1] == ';') {
      assert body[i + 1] in body;
    }
  }

  /** A line whose lead is blanks without a line break starts quietly. */
  lemma QuietLine(lead: string, clause: string, trail: string)
    requires forall k :: 0 <= k < |lead| ==> IsSpace(lead[k]) && lead[k] != '\n'
    requires |clause| > 0 && !IsSpace(clause[0])
    ensures QuietStart(Line(lead, clause, trail))
  {
    var s := Line(lead, clause, trail);
    assert forall k :: 0 <= k < |lead| ==> s[k] == lead[k];
    assert s[|lead|] == clause[0];
    SpanUnique(s, 0, |lead|, IsSpace);
  }

  /** A text holding one CREATE TABLE statement, and no other letter C around
      it, parses to one table whose record is built from the body's clauses. */
  lemma SingleTableSchema(pre: string, name: string, xs: seq<string>, post: string, v: Variant)
    requires NoLetter(pre, 'c') && NoLetter(post, 'c')
    requires |name| > 0 && All(name, IsWordChar)
    requires Splittable(xs) && ';' !in JoinWith(xs, ",\n")
    ensures ParseSchema(CreateText(pre, name, JoinWith(xs, ",\n"), post), v)
      == [Named(name, AnalyzeClauses(Trimmed(xs), v))]
  {
    NoSemicolonNoTerminator(JoinWith(xs, ",\n"));
    StatementRoundTrip(pre, name, JoinWith(xs, ",\n"), post);
    SchemaOfOne(CreateText(pre, name, JoinWith(xs, ",\n"), post), Named(name, JoinWith(xs, ",\n")), v);
    BodyClauses(xs, v);
  }

  lemma SchemaOfOne(sql: string, st: Statement, v: Variant)
    requires Statements(sql) == [st]
    ensures ParseSchema(sql, v) == [Named(st.name, AnalyzeBody(st.item, v))]
  {
    BuildOne(st, v);
  }

  lemma BuildOne(st: Statement, v: Variant)
    ensures BuildSchema([st], v) == [Named(st.name, AnalyzeBody(st.item, v))]
  {
    assert [st][..0] == [];
  }

  lemma AnalyzeSnoc(cs: seq<string>, c: string, v: Variant)
    ensures AnalyzeClauses(cs + [c], v) == Step(AnalyzeClauses(cs, v), c, v)
  {
    assert (cs + [c])[..|cs|] == cs;
  }

  /** Two clauses are analysed in order, starting from the empty record. */
  lemma AnalyzeTwo(a: string, b: string, v: Variant)
    ensures AnalyzeClauses([a, b], v) == Step(Step(EmptyTable, a, v), b, v)
  {
    AnalyzeSnoc([], a, v);
    AnalyzeSnoc([a], b, v);
    assert [] + [a] == [a] && [a] + [b] == [a, b];
  }

  lemma AnalyzeThree(a: string, b: string, c: string, v: Variant)
    ensures AnalyzeClauses([a, b, c], v) == Step(Step(Step(EmptyTable, a, v), b, v), c, v)
  {
    AnalyzeTwo(a, b, v);
    AnalyzeSnoc([a, b], c, v);
    assert [a, b] + [c] == [a, b, c];
  }

  // ---------------------------------------------------------------------------
  // The tests' schemas
  // ---------------------------------------------------------------------------

  /** The layout around the statements in the tests. */
  const Margin := "\n    "
  const Indent := "        "

  /** Two clauses laid out as the tests lay them out: the first on its own
      line after the opening parenthesis, the last followed by the margin. */
  function TwoLines(c0: string, c1: string): seq<string> {
    [Line("\n" + Indent, c0, ""), Line(Indent, c1, Margin)]
  }

  lemma TwoLinesSplit(c0: string, c1: string)
    requires ',' !in c0 && ',' !in c1 && ';' !in c0 && ';' !in c1
    requires |c1| > 0 && !IsSpace(c1[0])
    ensures Splittable(TwoLines(c0, c1)) && ';' !in JoinWith(TwoLines(c0, c1), ",\n")
  {
    var xs := TwoLines(c0, c1);
    QuietLine(Indent, c1, Margin);
    assert xs[1..] == [xs[1]];
    assert JoinWith(xs, ",\n") == xs[0] + ",\n" + xs[1];
  }

  lemma TwoLinesTrimmed(c0: string, c1: string)
    requires |c0| > 0 && !IsSpace(c0[0]) && !IsSpace(c0[|c0| - 1])
    requires |c1| > 0 && !IsSpace(c1[0]) && !IsSpace(c1[|c1| - 1])
    ensures Trimmed(TwoLines(c0, c1)) == [c0, c1]
  {
    TrimmedOne("\n" + Indent, c0, "");
    TrimmedOne(Indent, c1, Margin);
    TrimmedAppend([Line("\n" + Indent, c0, "")], [Line(Indent, c1, Margin)]);
    assert [Line("\n" + Indent, c0, "")] + [Line(Indent, c1, Margin)] == TwoLines(c0, c1);
  }

  /** The body of `CREATE TABLE users (...)`, line by line. */
  function UsersLines(): seq<string> {
    TwoLines(ColumnText("id", "INT") + " PRIMARY KEY", ColumnText("name", "VARCHAR(100)"))
  }

  lemma UsersSplittable()
    ensures Splittable(UsersLines()) && ';' !in JoinWith(UsersLines(), ",\n")
  {
    TwoLinesSplit(ColumnText("id", "INT") + " PRIMARY KEY", ColumnText("name", "VARCHAR(100)"));
  }

  lemma UsersTrimmed()
    ensures Trimmed(UsersLines()) == [ColumnText("id", "INT") + " PRIMARY KEY", ColumnText("name", "VARCHAR(100)")]
  {
    TwoLinesTrimmed(ColumnText("id", "INT") + " PRIMARY KEY", ColumnText("name", "VARCHAR(100)"));
  }

  /** A column with an inline key followed by a plain column. */
  lemma KeyedThenPlain(a: string, ta: string, b: string, tb: string, v: Variant)
    requires |a| > 0 && All(a, IsWordChar) && |ta| > 0 && All(ta, IsTypeChar) && '(' !in ta
    requires |b| > 0 && All(b, IsWordChar) && |tb| > 0 && All(tb, IsTypeChar)
    requires NoLetter(ColumnText(b, tb), 'p') && NoLetter(ColumnText(b, tb), 'f')
    ensures AnalyzeClauses([ColumnText(a, ta) + " PRIMARY KEY", ColumnText(b, tb)], v)
      == TableSchema([Column(a, ta), Column(b, tb)], if v == Current then [a] else [], [])
  {
    AnalyzeTwo(ColumnText(a, ta) + " PRIMARY KEY", ColumnText(b, tb), v);
    KeyedFirst(a, ta, v);
    PlainColumn(TableSchema([Column(a, ta)], if v == Current then [a] else [], []), b, tb, v);
  }

  lemma KeyedFirst(a: string, ta: string, v: Variant)
    requires |a| > 0 && All(a, IsWordChar) && |ta| > 0 && All(ta, IsTypeChar) && '(' !in ta
    ensures Step(EmptyTable, ColumnText(a, ta) + " PRIMARY KEY", v)
      == TableSchema([Column(a, ta)], if v == Current then [a] else [], [])
  {
    InlineKeyColumn(EmptyTable, a, ta);
  }

  /** The users table: two columns; the inline key on `id` is seen by the
      current parser only. */
  lemma UsersAnalysis(v: Variant)
    ensures AnalyzeClauses([ColumnText("id", "INT") + " PRIMARY KEY", ColumnText("name", "VARCHAR(100)")], v)
      == TableSchema([Column("id", "INT"), Column("name", "VARCHAR(100)")], if v == Current then ["id"] else [], [])
  {
    KeyedThenPlain("id", "INT", "name", "VARCHAR(100)", v);
  }

  /** First test: the users table, its two columns and the key on `id`. */
  lemma UsersSchema(v: Variant)
    ensures ParseSchema(CreateText(Margin, "users", JoinWith(UsersLines(), ",\n"), Margin), v)
      == [Named("users", TableSchema([Column("id", "INT"), Column("name", "VARCHAR(100)")], if v == Current then ["id"] else [], []))]
  {
    UsersSplittable();
    SingleTableSchema(Margin, "users", UsersLines(), Margin, v);
    UsersTrimmed();
    UsersAnalysis(v);
  }

  /** A column with an inline key, a plain column and a foreign key line. */
  lemma KeyedPlainForeign(a: string, ta: string, b: string, tb: string,
                          cols: string, table: string, refs: string, v: Variant)
    requires |a| > 0 && All(a, IsWordChar) && |ta| > 0 && All(ta, IsTypeChar) && '(' !in ta
    requires |b| > 0 && All(b, IsWordChar) && |tb| > 0 && All(tb, IsTypeChar)
    requires NoLetter(ColumnText(b, tb), 'p') && NoLetter(ColumnText(b, tb), 'f')
    requires FkParts(cols, table, refs)
    requires NoLetter(cols, 'p') && NoLetter(table, 'p') && NoLetter(refs, 'p')
    ensures AnalyzeClauses([ColumnText(a, ta) + " PRIMARY KEY", ColumnText(b, tb), FkClauseText(cols, table, refs)], v)
      == TableSchema([Column(a, ta), Column(b, tb)] + (if v == Legacy then [Column("FOREIGN", "KEY")] else []),
                     if v == Current then [a] else [],
                     [ForeignKey(NameList(cols), table, NameList(refs))])
  {
    AnalyzeSnoc([ColumnText(a, ta) + " PRIMARY KEY", ColumnText(b, tb)], FkClauseText(cols, table, refs), v);
    assert [ColumnText(a, ta) + " PRIMARY KEY", ColumnText(b, tb)] + [FkClauseText(cols, table, refs)]
      == [ColumnText(a, ta) + " PRIMARY KEY", ColumnText(b, tb), FkClauseText(cols, table, refs)];
    KeyedThenPlain(a, ta, b, tb, v);
    ForeignKeyLast(TableSchema([Column(a, ta), Column(b, tb)], if v == Current then [a] else [], []), cols, table, refs, v);
  }

  /** ... where the foreign key names one column on each side. */
  lemma KeyedPlainSingleForeign(a: string, ta: string, b: string, tb: string,
                                col: string, table: string, ref: string, v: Variant)
    requires |a| > 0 && All(a, IsWordChar) && |ta| > 0 && All(ta, IsTypeChar) && '(' !in ta
    requires |b| > 0 && All(b, IsWordChar) && |tb| > 0 && All(tb, IsTypeChar)
    requires NoLetter(ColumnText(b, tb), 'p') && NoLetter(ColumnText(b, tb), 'f')
    requires FkParts(col, table, ref)
    requires NoLetter(col, 'p') && NoLetter(table, 'p') && NoLetter(ref, 'p')
    requires ',' !in col && !IsItemPad(col[0]) && !IsItemPad(col[|col| - 1])
    requires ',' !in ref && !IsItemPad(ref[0]) && !IsItemPad(ref[|ref| - 1])
    ensures AnalyzeClauses([ColumnText(a, ta) + " PRIMARY KEY", ColumnText(b, tb), FkClauseText(col, table, ref)], v)
      == TableSchema([Column(a, ta), Column(b, tb)] + (if v == Legacy then [Column("FOREIGN", "KEY")] else []),
                     if v == Current then [a] else [],
                     [ForeignKey([col], table, [ref])])
  {
    KeyedPlainForeign(a, ta, b, tb, col, table, ref, v);
    SingleName(col);
    SingleName(ref);
  }

  /** `PRIMARY KEY (<col>)`: the current parser adds the key name and nothing
      else; the legacy copies make it the whole key and also record a column
      `PRIMARY` of type `KEY`. */
  lemma KeyClause(t: TableSchema, col: string)
    requires |col| > 0 && ',' !in col && ')' !in col
    requires !IsItemPad(col[0]) && !IsItemPad(col[|col| - 1]) && NoLetter(col, 'f')
    ensures Step(t, TablePkText(col), Current) == t.(primaryKey := t.primaryKey + [col])
    ensures Step(t, TablePkText(col), Legacy) == TableSchema(t.columns + [Column("PRIMARY", "KEY")], [col], t.foreignKeys)
  {
    TablePkRoundTrip(col);
    SingleName(col);
    KeyClauseNotForeign(col);
    KeyClauseAsColumn(col);
  }

  lemma KeyClauseNotForeign(col: string)
    requires NoLetter(col, 'f')
    ensures SearchFk(TablePkText(col)).None?
  {
    NoLetterAppend("PRIMARY KEY (", col, 'f');
    NoLetterAppend("PRIMARY KEY (" + col, ")", 'f');
    NoForeignClause(TablePkText(col));
  }

  /** The column pattern reads a key clause as a column `PRIMARY` of type `KEY`. */
  lemma KeyClauseAsColumn(col: string)
    ensures MatchColumn(TablePkText(col)) == Some(ColumnMatch("PRIMARY", "KEY"))
  {
    var rest := " (" + col + ")";
    KeyWords();
    assert rest[0] == ' ';
    ColumnRoundTrip("PRIMARY", "KEY", rest);
    KeyClauseParts(col);
  }

  lemma KeyWords()
    ensures All("PRIMARY", IsWordChar) && All("KEY", IsTypeChar)
  {
  }

  lemma KeyClauseParts(col: string)
    ensures TablePkText(col) == "PRIMARY" + " " + "KEY" + (" (" + col + ")")
  {
  }

  /** `UNIQUE (<cols>)` written with a space is read as a column `UNIQUE` whose
      type is the parenthesised list, by both parsers. */
  lemma UniqueClause(t: TableSchema, cols: string, v: Variant)
    requires All(cols, IsTypeChar) && NoLetter(cols, 'p') && NoLetter(cols, 'f')
    ensures Step(t, "UNIQUE (" + cols + ")", v) == t.(columns := t.columns + [Column("UNIQUE", "(" + cols + ")")])
  {
    var typ := "(" + cols + ")";
    assert All("UNIQUE", IsWordChar);
    assert All(typ, IsTypeChar) by {
      forall k | 0 <= k < |typ| ensures IsTypeChar(typ[k]) {
        if 0 < k < |typ| - 1 { assert typ[k] == cols[k - 1]; }
      }
    }
    NoLetterAppend("UNIQUE (", cols, 'p');
    NoLetterAppend("UNIQUE (" + cols, ")", 'p');
    NoLetterAppend("UNIQUE (", cols, 'f');
    NoLetterAppend("UNIQUE (" + cols, ")", 'f');
    assert ColumnText("UNIQUE", typ) == "UNIQUE (" + cols + ")";
    PlainColumn(t, "UNIQUE", typ, v);
  }

  lemma ForeignKeyLast(t: TableSchema, cols: string, table: string, refs: string, v: Variant)
    requires FkParts(cols, table, refs)
    requires NoLetter(cols, 'p') && NoLetter(table, 'p') && NoLetter(refs, 'p')
    ensures Step(t, FkClauseText(cols, table, refs), v)
      == TableSchema(t.columns + (if v == Legacy then [Column("FOREIGN", "KEY")] else []),
                     t.primaryKey, t.foreignKeys + [ForeignKey(NameList(cols), table, NameList(refs))])
  {
    ForeignKeyLine(t, cols, table, refs);
  }

  /** The foreign key line has no comma or semicolon of its own, and it starts
      and ends with a visible character. */
  lemma FkClauseShape(cols: string, table: string, refs: string, c: char)
    requires c == ',' || c == ';'
    requires c !in cols && c !in table && c !in refs
    ensures var s := FkClauseText(cols, table, refs);
      c !in s && s[0] == 'F' && s[|s| - 1] == ')'
  {
    FkTextChars(cols, table, refs);
    var s := FkClauseText(cols, table, refs);
    assert s[0] == (s[..13])[0];
    assert c !in "FOREIGN KEY (" && c !in ") REFERENCES " && c !in "(" && c !in ")";
  }

  /** The body of `CREATE TABLE orders (...)`, line by line. */
  function OrdersLines(): seq<string> {
    ThreeLines(ColumnText("order_id", "INT") + " PRIMARY KEY", ColumnText("user_id", "INT"), FkClauseText("user_id", "users", "id"))
  }

  /** Three clauses laid out as the tests lay them out. */
  lemma ThreeLinesSplit(c0: string, c1: string, c2: string)
    requires ',' !in c0 && ',' !in c1 && ',' !in c2
    requires ';' !in c0 && ';' !in c1 && ';' !in c2
    requires |c1| > 0 && !IsSpace(c1[0]) && |c2| > 0 && !IsSpace(c2[0])
    ensures Splittable(ThreeLines(c0, c1, c2)) && ';' !in JoinWith(ThreeLines(c0, c1, c2), ",\n")
  {
    var xs := ThreeLines(c0, c1, c2);
    QuietLine(Indent, c1, "");
    QuietLine(Indent, c2, Margin);
    assert xs[1..] == [xs[1], xs[2]];
    assert xs[1..][1..] == [xs[2]];
    assert JoinWith(xs[1..], ",\n") == xs[1] + ",\n" + xs[2];
    assert JoinWith(xs, ",\n") == xs[0] + ",\n" + (xs[1] + ",\n" + xs[2]);
  }

  function ThreeLines(c0: string, c1: string, c2: string): seq<string> {
    [Line("\n" + Indent, c0, ""), Line(Indent, c1, ""), Line(Indent, c2, Margin)]
  }

  lemma ThreeLinesTrimmed(c0: string, c1: string, c2: string)
    requires |c0| > 0 && !IsSpace(c0[0]) && !IsSpace(c0[|c0| - 1])
    requires |c1| > 0 && !IsSpace(c1[0]) && !IsSpace(c1[|c1| - 1])
    requires |c2| > 0 && !IsSpace(c2[0]) && !IsSpace(c2[|c2| - 1])
    ensures Trimmed(ThreeLines(c0, c1, c2)) == [c0, c1, c2]
  {
    var l0 := Line("\n" + Indent, c0, "");
    var l1 := Line(Indent, c1, "");
    var l2 := Line(Indent, c2, Margin);
    TrimmedOne("\n" + Indent, c0, "");
    TrimmedOne(Indent, c1, "");
    TrimmedOne(Indent, c2, Margin);
    TrimmedAppend([l0], [l1]);
    TrimmedAppend([l0] + [l1], [l2]);
    assert [l0] + [l1] + [l2] == ThreeLines(c0, c1, c2);
  }

  lemma TrimmedOne(lead: string, clause: string, trail: string)
    requires All(lead, IsSpace) && All(trail, IsSpace)
    requires |clause| > 0 && !IsSpace(clause[0]) && !IsSpace(clause[|clause| - 1])
    ensures Trimmed([Line(lead, clause, trail)]) == [clause]
  {
    LineTrimmed(lead, clause, trail);
  }

  lemma TrimmedAppend(xs: seq<string>, ys: seq<string>)
    ensures Trimmed(xs + ys) == Trimmed(xs) + Trimmed(ys)
  {
  }

  /** The parser's trimming recovers a clause from its line. */
  lemma LineTrimmed(lead: string, clause: string, trail: string)
    requires All(lead, IsSpace) && All(trail, IsSpace)
    requires |clause| > 0 && !IsSpace(clause[0]) && !IsSpace(clause[|clause| - 1])
    ensures Strip(Line(lead, clause, trail), IsSpace) == clause
  {
    StripPadded(lead, clause, trail, IsSpace);
  }

  lemma OrdersSplittable()
    ensures Splittable(OrdersLines()) && ';' !in JoinWith(OrdersLines(), ",\n")
  {
    FkClauseShape("user_id", "users", "id", ',');
    FkClauseShape("user_id", "users", "id", ';');
    ThreeLinesSplit(ColumnText("order_id", "INT") + " PRIMARY KEY", ColumnText("user_id", "INT"), FkClauseText("user_id", "users", "id"));
  }

  lemma OrdersTrimmed()
    ensures Trimmed(OrdersLines())
      == [ColumnText("order_id", "INT") + " PRIMARY KEY", ColumnText("user_id", "INT"), FkClauseText("user_id", "users", "id")]
  {
    FkClauseShape("user_id", "users", "id", ',');
    ThreeLinesTrimmed(ColumnText("order_id", "INT") + " PRIMARY KEY", ColumnText("user_id", "INT"), FkClauseText("user_id", "users", "id"));
  }

  /** The orders table: two columns, the inline key on `order_id` (current
      parser only) and one foreign key to `users(id)`; the legacy copies also
      list the foreign key line as a column. */
  lemma OrdersAnalysis(v: Variant)
    ensures AnalyzeClauses([ColumnText("order_id", "INT") + " PRIMARY KEY", ColumnText("user_id", "INT"), FkClauseText("user_id", "users", "id")], v)
      == TableSchema([Column("order_id", "INT"), Column("user_id", "INT")] + (if v == Legacy then [Column("FOREIGN", "KEY")] else []),
                     if v == Current then ["order_id"] else [],
                     [ForeignKey(["user_id"], "users", ["id"])])
  {
    KeyedPlainSingleForeign("order_id", "INT", "user_id", "INT", "user_id", "users", "id", v);
  }

  /** Second test: the orders table and its foreign key. */
  lemma OrdersSchema(v: Variant)
    ensures ParseSchema(CreateText(Margin, "orders", JoinWith(OrdersLines(), ",\n"), Margin), v)
      == [Named("orders", TableSchema([Column("order_id", "INT"), Column("user_id", "INT")] + (if v == Legacy then [Column("FOREIGN", "KEY")] else []),
                                      if v == Current then ["order_id"] else [],
                                      [ForeignKey(["user_id"], "users", ["id"])]))]
  {
    OrdersSplittable();
    SingleTableSchema(Margin, "orders", OrdersLines(), Margin, v);
    OrdersTrimmed();
    OrdersAnalysis(v);
  }

  /** Text without the letter C declares no table. */
  lemma NoLetterCNoSchema(sql: string, v: Variant)
    requires NoLetter(sql, 'c')
    ensures ParseSchema(sql, v) == []
  {
    NoCreateIn(sql, 0, |sql|);
    CreateNeedsC(sql, |sql|);
  }

  /** Third test: the empty text gives the empty schema. */
  lemma EmptySchema(v: Variant)
    ensures ParseSchema("", v) == []
  {
    NoLetterCNoSchema("", v);
  }
}
