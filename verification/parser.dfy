/** `parse_schema_local`: the statement scan, the clause splitter, the clause
    classifier and the merge into an insertion-ordered mapping.

    Two copies of the function exist. `Current` is the one in src/main.py:
    clauses split on `,\s*\n|,\s*$`, each clause feeds exactly one of the
    three lists (`continue` after a key clause), table-level keys extend the
    primary key and an inline `PRIMARY KEY` marker adds the column. `Legacy` is
    the copy in src/app/2.py, 3.py and 4.py: clauses split on `,\s*\n` only,
    every clause is tried against all three patterns, a table-level key
    replaces the primary key and there is no inline marker. */
module Parser {
  import opened Wrappers
  import opened Text
  import opened Schema
  import opened Patterns

  datatype Variant = Current | Legacy

  /** The characters `str.strip(" `\"")` removes from list items. */
  predicate IsItemPad(c: char) {
    c == ' ' || IsQuote(c)
  }

  /** A list item as the parser leaves it: no comma inside, nothing to strip at
      either end. */
  predicate CleanName(x: string) {
    ',' !in x && (|x| > 0 ==> !IsItemPad(x[0]) && !IsItemPad(x[|x| - 1]))
  }

  /** A name captured by `(\w+)`. */
  predicate Identifier(x: string) {
    |x| > 0 && All(x, IsWordChar)
  }

  lemma IdentifierIsClean(x: string)
    requires Identifier(x)
    ensures CleanName(x)
  {
    assert x[0] == x[0..1][0];
    assert forall k :: 0 <= k < |x| ==> IsWordChar(x[k]) && x[k] != ',';
  }

  /** `[c.strip(" `\"") for c in group.split(",")]`: one item more than there
      are commas, each item a piece of the group with padding removed. */
  function NameList(group: string): (r: seq<string>)
    ensures |r| == Count(group, ',') + 1 == |SplitOn(group, ',')|
    ensures forall k :: 0 <= k < |r| ==> CleanName(r[k])
    ensures forall k :: 0 <= k < |r| ==> PaddedBy(SplitOn(group, ',')[k], r[k], IsItemPad)
  {
    var parts := SplitOn(group, ',');
    SplitOnCount(group, ',');
    var r := seq(|parts|, k requires 0 <= k < |parts| => Strip(parts[k], IsItemPad));
    assert forall k :: 0 <= k < |r| ==> CleanName(r[k]) by {
      forall k | 0 <= k < |r|
        ensures CleanName(r[k])
      {
        StrippedPieceClean(parts[k]);
      }
    }
    r
  }

  /** Stripping the padding from a comma-free piece leaves a clean name. */
  lemma StrippedPieceClean(piece: string)
    requires ',' !in piece
    ensures CleanName(Strip(piece, IsItemPad))
  {
  }

  function ForeignKeyOf(m: FkText): ForeignKey {
    ForeignKey(NameList(m.columns), m.refTable, NameList(m.refColumns))
  }

  /** What a clause is, checked in the fixed order of src/main.py: table-level
      key first, then foreign key, then column definition. */
  datatype ClauseKind =
    | TablePrimaryKey(names: seq<string>)
    | ForeignKeyClause(fk: ForeignKey)
    | ColumnDefinition(column: Column, inlinePk: bool)
    | Unrecognized

  function Classify(clause: string): (k: ClauseKind)
    ensures k.TablePrimaryKey? <==> SearchTablePk(clause).Some?
    ensures k.ForeignKeyClause? <==> SearchTablePk(clause).None? && SearchFk(clause).Some?
    ensures k.ColumnDefinition? <==> SearchTablePk(clause).None? && SearchFk(clause).None? && MatchColumn(clause).Some?
  {
    match SearchTablePk(clause)
    case Some(group) => TablePrimaryKey(NameList(group))
    case None =>
      match SearchFk(clause)
      case Some(m) => ForeignKeyClause(ForeignKeyOf(m))
      case None =>
        match MatchColumn(clause)
        case Some(c) => ColumnDefinition(Column(c.name, c.typ), HasPrimaryKey(clause))
        case None => Unrecognized
  }

  /** One clause's effect on the record being built (src/main.py). */
  function Apply(t: TableSchema, k: ClauseKind): TableSchema {
    match k
    case TablePrimaryKey(names) => t.(primaryKey := t.primaryKey + names)
    case ForeignKeyClause(fk) => t.(foreignKeys := t.foreignKeys + [fk])
    case ColumnDefinition(c, pk) =>
      t.(columns := t.columns + [c], primaryKey := if pk then t.primaryKey + [c.name] else t.primaryKey)
    case Unrecognized => t
  }

  /** The column the column pattern finds in a clause, if any. */
  function ColumnOf(clause: string): seq<Column> {
    match MatchColumn(clause) case Some(c) => [Column(c.name, c.typ)] case None => []
  }

  /** The foreign key the foreign key pattern finds in a clause, if any. */
  function ForeignKeysOf(clause: string): seq<ForeignKey> {
    match SearchFk(clause) case Some(m) => [ForeignKeyOf(m)] case None => []
  }

  /** One clause's effect in the legacy copies: all three patterns are tried,
      and a table-level key replaces the primary key. */
  function ApplyLegacy(t: TableSchema, clause: string): TableSchema {
    var pks := match SearchTablePk(clause) case Some(g) => NameList(g) case None => t.primaryKey;
    TableSchema(t.columns + ColumnOf(clause), pks, t.foreignKeys + ForeignKeysOf(clause))
  }

  function Step(t: TableSchema, clause: string, v: Variant): TableSchema {
    match v
    case Current => Apply(t, Classify(clause))
    case Legacy => ApplyLegacy(t, clause)
  }

  /** The loop over the clauses of one body, in order. */
  function AnalyzeClauses(clauses: seq<string>, v: Variant): TableSchema
    decreases |clauses|
  {
    if |clauses| == 0 then EmptyTable
    else Step(AnalyzeClauses(clauses[..|clauses| - 1], v), clauses[|clauses| - 1], v)
  }

  /** `[l.strip() for l in re.split(..., body)]` */
  function Clauses(body: string, v: Variant): (r: seq<string>)
    ensures |r| == |SplitClauses(body, v == Current)|
    ensures forall k :: 0 <= k < |r| ==> r[k] == Strip(SplitClauses(body, v == Current)[k], IsSpace)
  {
    var pieces := SplitClauses(body, v == Current);
    seq(|pieces|, k requires 0 <= k < |pieces| => Strip(pieces[k], IsSpace))
  }

  function AnalyzeBody(body: string, v: Variant): TableSchema {
    AnalyzeClauses(Clauses(body, v), v)
  }

  /** `schema[table] = record` for every statement, in scan order. */
  function BuildSchema(stmts: seq<Statement>, v: Variant): (r: Schema)
    ensures DistinctKeys(r)
    decreases |stmts|
  {
    if |stmts| == 0 then []
    else
      var prev := BuildSchema(stmts[..|stmts| - 1], v);
      var last := stmts[|stmts| - 1];
      PutDistinct(prev, last.name, AnalyzeBody(last.item, v));
      Put(prev, last.name, AnalyzeBody(last.item, v))
  }

  /** `parse_schema_local(sql_text)`. The mapping is empty exactly when the
      statement pattern matches nowhere, and no name appears twice. */
  function ParseSchema(sql: string, v: Variant): (r: Schema)
    ensures r == [] <==> forall k :: 0 <= k <= |sql| ==> CreateAt(sql, k).None?
    ensures DistinctKeys(r)
  {
    NoStatementsNoKeys(Statements(sql), v);
    CreateAdvancing();
    StatementsEmpty(sql, 0, CreateAt);
    BuildSchema(Statements(sql), v)
  }

  /** Text without the word CREATE, in any case, yields an empty mapping; so
      does the empty string. */
  lemma NoCreateNoTables(sql: string, v: Variant)
    requires forall k :: 0 <= k <= |sql| ==> !KeywordAt(sql, k, "CREATE")
    ensures ParseSchema(sql, v) == []
  {
  }

  // ---------------------------------------------------------------------------
  // Merge: keys in first-seen order, values from the last declaration
  // ---------------------------------------------------------------------------

  /** The names in order of first appearance, without repeats. */
  function FirstSeen(xs: seq<string>): seq<string>
    decreases |xs|
  {
    if |xs| == 0 then []
    else
      var prev := FirstSeen(xs[..|xs| - 1]);
      if xs[|xs| - 1] in prev then prev else prev + [xs[|xs| - 1]]
  }

  lemma {:induction false} FirstSeenNames(xs: seq<string>)
    ensures forall x :: x in FirstSeen(xs) <==> x in xs
    ensures |xs| > 0 ==> |FirstSeen(xs)| > 0
    decreases |xs|
  {
    if |xs| > 0 {
      FirstSeenNames(xs[..|xs| - 1]);
      assert xs == xs[..|xs| - 1] + [xs[|xs| - 1]];
    }
  }

  /** The body of the last statement declaring `name`. */
  function LastBody(stmts: seq<Statement>, name: string): Option<string>
    decreases |stmts|
  {
    if |stmts| == 0 then None
    else if stmts[|stmts| - 1].name == name then Some(stmts[|stmts| - 1].item)
    else LastBody(stmts[..|stmts| - 1], name)
  }

  /** The keys of the mapping are the declared names in first-seen order. */
  lemma {:induction false} BuildKeys(stmts: seq<Statement>, v: Variant)
    ensures Names(BuildSchema(stmts, v)) == FirstSeen(Names(stmts))
    decreases |stmts|
  {
    if |stmts| > 0 {
      var init := stmts[..|stmts| - 1];
      BuildKeys(init, v);
      assert Names(init) == Names(stmts)[..|stmts| - 1];
    }
  }

  lemma NoStatementsNoKeys(stmts: seq<Statement>, v: Variant)
    ensures BuildSchema(stmts, v) == [] <==> stmts == []
  {
    BuildKeys(stmts, v);
    FirstSeenNames(Names(stmts));
    if stmts != [] {
      assert |Names(BuildSchema(stmts, v))| > 0;
    }
  }

  /** Each name maps to the record of its last declaration, rebuilt from that
      body alone: a redeclaration replaces, it does not merge. */
  lemma {:induction false} BuildLookup(stmts: seq<Statement>, v: Variant, name: string)
    ensures Lookup(BuildSchema(stmts, v), name) ==
      match LastBody(stmts, name) case None => None case Some(b) => Some(AnalyzeBody(b, v))
    decreases |stmts|
  {
    if |stmts| > 0 {
      var init := stmts[..|stmts| - 1];
      var last := stmts[|stmts| - 1];
      BuildLookup(init, v, name);
      if last.name == name {
        PutLookupSame(BuildSchema(init, v), name, AnalyzeBody(last.item, v));
      } else {
        PutLookupOther(BuildSchema(init, v), last.name, AnalyzeBody(last.item, v), name);
      }
    }
  }

  /** `parse_schema_local` looked up by table name. */
  lemma ParseLookup(sql: string, v: Variant, name: string)
    ensures Lookup(ParseSchema(sql, v), name) ==
      match LastBody(Statements(sql), name) case None => None case Some(b) => Some(AnalyzeBody(b, v))
    ensures Names(ParseSchema(sql, v)) == FirstSeen(Names(Statements(sql)))
  {
    BuildLookup(Statements(sql), v, name);
    BuildKeys(Statements(sql), v);
  }

  /** A later declaration of a name already seen leaves the key order as it was
      and replaces the record entirely. */
  lemma Redeclaration(stmts: seq<Statement>, st: Statement, v: Variant)
    requires st.name in Names(stmts)
    ensures Names(BuildSchema(stmts + [st], v)) == Names(BuildSchema(stmts, v))
    ensures Lookup(BuildSchema(stmts + [st], v), st.name) == Some(AnalyzeBody(st.item, v))
  {
    var all := stmts + [st];
    assert all[..|all| - 1] == stmts;
    BuildKeys(stmts, v);
    FirstSeenNames(Names(stmts));
    PutLookupSame(BuildSchema(stmts, v), st.name, AnalyzeBody(st.item, v));
  }

  // ---------------------------------------------------------------------------
  // src/main.py: every clause contributes to one list only
  // ---------------------------------------------------------------------------

  /** What one clause adds to an empty record under src/main.py. A table-level
      key clause adds only key names, a foreign key clause exactly one foreign
      key and nothing else, a column clause one column and, with an inline
      marker, its name as key. */
  function Contribution(clause: string): (t: TableSchema)
    ensures SearchTablePk(clause).Some? ==>
      t == TableSchema([], NameList(SearchTablePk(clause).value), [])
    ensures SearchTablePk(clause).None? && SearchFk(clause).Some? ==>
      t == TableSchema([], [], [ForeignKeyOf(SearchFk(clause).value)])
    ensures SearchTablePk(clause).None? && SearchFk(clause).None? && MatchColumn(clause).Some? ==>
      var c := MatchColumn(clause).value;
      t == TableSchema([Column(c.name, c.typ)], if HasPrimaryKey(clause) then [c.name] else [], [])
    ensures SearchTablePk(clause).None? && SearchFk(clause).None? && MatchColumn(clause).None? ==>
      t == EmptyTable
  {
    Apply(EmptyTable, Classify(clause))
  }

  function Merge(a: TableSchema, b: TableSchema): TableSchema {
    TableSchema(a.columns + b.columns, a.primaryKey + b.primaryKey, a.foreignKeys + b.foreignKeys)
  }

  /** The contributions of all clauses, concatenated list by list. */
  function MergeAll(ts: seq<TableSchema>): TableSchema
    decreases |ts|
  {
    if |ts| == 0 then EmptyTable else Merge(MergeAll(ts[..|ts| - 1]), ts[|ts| - 1])
  }

  function Contributions(clauses: seq<string>): (r: seq<TableSchema>)
    ensures |r| == |clauses|
    ensures forall k :: 0 <= k < |clauses| ==> r[k] == Contribution(clauses[k])
  {
    seq(|clauses|, k requires 0 <= k < |clauses| => Contribution(clauses[k]))
  }

  lemma ApplyIsMerge(t: TableSchema, clause: string)
    ensures Apply(t, Classify(clause)) == Merge(t, Contribution(clause))
  {
  }

  /** The record src/main.py builds is the clause-by-clause concatenation of
      the contributions, so every clause lands in one list only (except the
      inline-key column) and order is declaration order. */
  lemma {:induction false} CurrentIsConcatenation(clauses: seq<string>)
    ensures AnalyzeClauses(clauses, Current) == MergeAll(Contributions(clauses))
    decreases |clauses|
  {
    if |clauses| > 0 {
      var init := clauses[..|clauses| - 1];
      var last := clauses[|clauses| - 1];
      CurrentIsConcatenation(init);
      ApplyIsMerge(AnalyzeClauses(init, Current), last);
      assert Contributions(clauses)[..|clauses| - 1] == Contributions(init);
    }
  }

  // ---------------------------------------------------------------------------
  // Legacy copies: no early exit, the last table-level key wins
  // ---------------------------------------------------------------------------

  /** Columns of every clause the column pattern accepts, whatever else it is. */
  function ColumnMatches(clauses: seq<string>): seq<Column>
    decreases |clauses|
  {
    if |clauses| == 0 then []
    else ColumnMatches(clauses[..|clauses| - 1]) + ColumnOf(clauses[|clauses| - 1])
  }

  /** Foreign keys of every clause the foreign key pattern accepts. */
  function ForeignKeyMatches(clauses: seq<string>): seq<ForeignKey>
    decreases |clauses|
  {
    if |clauses| == 0 then []
    else ForeignKeyMatches(clauses[..|clauses| - 1]) + ForeignKeysOf(clauses[|clauses| - 1])
  }

  /** In the legacy copies the columns and foreign keys are those of every
      matching clause, including key clauses the column pattern also accepts
      (`FOREIGN KEY (...)` gives a column `FOREIGN` of type `KEY`). */
  lemma {:induction false} LegacyCollectsAll(clauses: seq<string>)
    ensures AnalyzeClauses(clauses, Legacy).columns == ColumnMatches(clauses)
    ensures AnalyzeClauses(clauses, Legacy).foreignKeys == ForeignKeyMatches(clauses)
    decreases |clauses|
  {
    if |clauses| > 0 {
      var init := clauses[..|clauses| - 1];
      var last := clauses[|clauses| - 1];
      LegacyCollectsAll(init);
    }
  }

  /** In the legacy copies the primary key is the list of the last clause with
      a table-level key ... */
  lemma {:induction false} LegacyLastKeyWins(clauses: seq<string>, k: nat)
    requires k < |clauses| && SearchTablePk(clauses[k]).Some?
    requires forall j :: k < j < |clauses| ==> SearchTablePk(clauses[j]).None?
    ensures AnalyzeClauses(clauses, Legacy).primaryKey == NameList(SearchTablePk(clauses[k]).value)
    decreases |clauses|
  {
    var init := clauses[..|clauses| - 1];
    var last := clauses[|clauses| - 1];
    var prev := AnalyzeClauses(init, Legacy);
    assert AnalyzeClauses(clauses, Legacy) == ApplyLegacy(prev, last);
    if k < |clauses| - 1 {
      forall j | k < j < |init|
        ensures SearchTablePk(init[j]).None?
      {
        assert init[j] == clauses[j];
      }
      assert init[k] == clauses[k];
      LegacyLastKeyWins(init, k);
      assert SearchTablePk(last).None?;
    }
  }

  /** ... and empty when there is none: inline markers are ignored. */
  lemma {:induction false} LegacyNoKeyClause(clauses: seq<string>)
    requires forall j :: 0 <= j < |clauses| ==> SearchTablePk(clauses[j]).None?
    ensures AnalyzeClauses(clauses, Legacy).primaryKey == []
    decreases |clauses|
  {
    if |clauses| > 0 {
      LegacyNoKeyClause(clauses[..|clauses| - 1]);
    }
  }

  /** Clauses without any `PRIMARY KEY` text and without a foreign key are
      treated alike by both copies. */
  lemma {:induction false} VariantsAgreeOnPlainClauses(clauses: seq<string>)
    requires forall j :: 0 <= j < |clauses| ==> !HasPrimaryKey(clauses[j]) && SearchFk(clauses[j]).None?
    ensures AnalyzeClauses(clauses, Current) == AnalyzeClauses(clauses, Legacy)
    decreases |clauses|
  {
    if |clauses| > 0 {
      VariantsAgreeOnPlainClauses(clauses[..|clauses| - 1]);
      var last := clauses[|clauses| - 1];
      assert SearchTablePk(last).None?;
    }
  }

  /** A body that also ends without a bare comma is analysed alike by both. */
  lemma VariantsAgreeOnPlainBody(body: string)
    requires !EndsWithBareComma(body)
    requires forall c :: c in Clauses(body, Current) ==> !HasPrimaryKey(c) && SearchFk(c).None?
    ensures AnalyzeBody(body, Current) == AnalyzeBody(body, Legacy)
  {
    SplitAgreesWithoutBareComma(body);
    assert Clauses(body, Current) == Clauses(body, Legacy);
    VariantsAgreeOnPlainClauses(Clauses(body, Current));
  }

  // ---------------------------------------------------------------------------
  // Shape of what the parser produces
  // ---------------------------------------------------------------------------

  /** A column name is an identifier; a type is a non-empty run of
      characters that are neither whitespace nor a comma. */
  predicate WellFormedColumn(c: Column) {
    Identifier(c.name) && |c.typ| > 0 && All(c.typ, IsTypeChar)
  }

  predicate CleanNames(xs: seq<string>) {
    forall k :: 0 <= k < |xs| ==> CleanName(xs[k])
  }

  predicate WellFormedForeignKey(fk: ForeignKey) {
    CleanNames(fk.columns) && Identifier(fk.refTable) && CleanNames(fk.refColumns)
  }

  predicate WellFormedTable(t: TableSchema) {
    && (forall k :: 0 <= k < |t.columns| ==> WellFormedColumn(t.columns[k]))
    && CleanNames(t.primaryKey)
    && (forall k :: 0 <= k < |t.foreignKeys| ==> WellFormedForeignKey(t.foreignKeys[k]))
  }

  predicate WellFormedKind(k: ClauseKind) {
    match k
    case TablePrimaryKey(names) => CleanNames(names)
    case ForeignKeyClause(fk) => WellFormedForeignKey(fk)
    case ColumnDefinition(c, _) => WellFormedColumn(c)
    case Unrecognized => true
  }

  lemma ForeignKeyOfWellFormed(m: FkText)
    requires |m.refTable| > 0 && All(m.refTable, IsWordChar)
    ensures WellFormedForeignKey(ForeignKeyOf(m))
  {
  }

  lemma ClassifyWellFormed(clause: string)
    ensures WellFormedKind(Classify(clause))
  {
    match SearchFk(clause) {
      case Some(m) => ForeignKeyOfWellFormed(m);
      case None =>
    }
  }

  lemma ApplyWellFormed(t: TableSchema, k: ClauseKind)
    requires WellFormedTable(t) && WellFormedKind(k)
    ensures WellFormedTable(Apply(t, k))
  {
    if k.ColumnDefinition? {
      IdentifierIsClean(k.column.name);
    }
  }

  lemma LegacyStepWellFormed(t: TableSchema, clause: string)
    requires WellFormedTable(t)
    ensures WellFormedTable(ApplyLegacy(t, clause))
  {
    var r := ApplyLegacy(t, clause);
    assert CleanNames(r.primaryKey);
    LegacyColumnWellFormed(t.columns, clause);
    LegacyForeignKeyWellFormed(t.foreignKeys, clause);
  }

  lemma LegacyColumnWellFormed(cs: seq<Column>, clause: string)
    requires forall k :: 0 <= k < |cs| ==> WellFormedColumn(cs[k])
    ensures forall k :: 0 <= k < |cs + ColumnOf(clause)| ==> WellFormedColumn((cs + ColumnOf(clause))[k])
  {
  }

  lemma LegacyForeignKeyWellFormed(fks: seq<ForeignKey>, clause: string)
    requires forall k :: 0 <= k < |fks| ==> WellFormedForeignKey(fks[k])
    ensures forall k :: 0 <= k < |fks + ForeignKeysOf(clause)| ==> WellFormedForeignKey((fks + ForeignKeysOf(clause))[k])
  {
    match SearchFk(clause) {
      case Some(m) => ForeignKeyOfWellFormed(m);
      case None =>
    }
  }

  lemma StepWellFormed(t: TableSchema, clause: string, v: Variant)
    requires WellFormedTable(t)
    ensures WellFormedTable(Step(t, clause, v))
  {
    if v == Current {
      ClassifyWellFormed(clause);
      ApplyWellFormed(t, Classify(clause));
    } else {
      LegacyStepWellFormed(t, clause);
    }
  }

  lemma {:induction false} AnalyzeWellFormed(clauses: seq<string>, v: Variant)
    ensures WellFormedTable(AnalyzeClauses(clauses, v))
    decreases |clauses|
  {
    if |clauses| > 0 {
      AnalyzeWellFormed(clauses[..|clauses| - 1], v);
      StepWellFormed(AnalyzeClauses(clauses[..|clauses| - 1], v), clauses[|clauses| - 1], v);
    }
  }

  /** Every record of the mapping is well formed: quotes never survive around
      table, column or referenced-table names, and list items carry no comma
      and no surrounding space or quote. */
  lemma ParseWellFormed(sql: string, v: Variant, name: string)
    ensures Lookup(ParseSchema(sql, v), name).Some? ==>
      Identifier(name) && WellFormedTable(Lookup(ParseSchema(sql, v), name).value)
  {
    if Lookup(ParseSchema(sql, v), name).Some? {
      ParseLookup(sql, v, name);
      FirstSeenNames(Names(Statements(sql)));
      CreateAdvancing();
      StatementNames(sql, 0, CreateAt);
      var b := LastBody(Statements(sql), name).value;
      AnalyzeWellFormed(Clauses(b, v), v);
    }
  }
}
