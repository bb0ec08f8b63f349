/** The regular expressions of `parse_schema_local` as hand-written matchers.

    Each pattern is matched by a function `XAt(s, i)` that tries it at one
    position. Every pattern here is deterministic under Python's backtracking:
    each greedy run (`\s+`, `\w+`, `[^)]+`, `[^\s,]+`) is followed by a
    character the run cannot contain, and each optional quote is followed by
    something a quote cannot start, so giving characters back never produces a
    different match. `re.search` and `re.finditer` then become a left-to-right
    scan over start positions (`Leftmost`). */
module Patterns {
  import opened Wrappers
  import opened Text
  import opened Schema

  /** The text `s[lo..hi]` captured by a group. */
  datatype Slice = Slice(lo: nat, hi: nat)

  predicate ValidSlice(s: string, g: Slice) {
    g.lo <= g.hi <= |s|
  }

  function Captured(s: string, g: Slice): string
    requires ValidSlice(s, g)
  {
    s[g.lo..g.hi]
  }

  /** The first position at or after `from` where the matcher `m` succeeds. */
  function Leftmost<T>(s: string, from: nat, m: (string, nat) -> Option<T>): (r: Option<(nat, T)>)
    ensures r.Some? ==> from <= r.value.0 <= |s| && m(s, r.value.0) == Some(r.value.1)
    ensures r.Some? ==> forall k :: from <= k < r.value.0 ==> m(s, k).None?
    ensures r.None? ==> forall k :: from <= k <= |s| ==> m(s, k).None?
    decreases |s| + 1 - from
  {
    if from > |s| then None
    else match m(s, from)
      case Some(v) => Some((from, v))
      case None => Leftmost(s, from + 1, m)
  }

  /** Two matchers that agree everywhere on `s` find the same leftmost match. */
  lemma {:induction false} LeftmostAgree<T>(s: string, from: nat, m1: (string, nat) -> Option<T>, m2: (string, nat) -> Option<T>)
    requires forall k :: from <= k <= |s| ==> m1(s, k) == m2(s, k)
    ensures Leftmost(s, from, m1) == Leftmost(s, from, m2)
    decreases |s| + 1 - from
  {
    if from <= |s| && m1(s, from).None? {
      LeftmostAgree(s, from + 1, m1, m2);
    }
  }

  /** `[`"]?`: one optional quote. */
  function OptQuote(s: string, i: nat): (j: nat)
    requires i <= |s|
    ensures j <= |s|
    ensures j == i || (j == i + 1 && IsQuote(s[i]))
    ensures i < |s| && IsQuote(s[i]) ==> j == i + 1
  {
    if i < |s| && IsQuote(s[i]) then i + 1 else i
  }

  predicate NotCloseParen(c: char) {
    c != ')'
  }

  /** `[^\s,]`, the characters of a column type. */
  predicate IsTypeChar(c: char) {
    !IsSpace(c) && c != ','
  }

  /** An identifier group `(\w+)`: a non-empty run of word characters that no
      word character follows. */
  predicate WordGroup(s: string, g: Slice) {
    g.lo < g.hi <= |s| && All(s[g.lo..g.hi], IsWordChar) && (g.hi == |s| || !IsWordChar(s[g.hi]))
  }

  /** A list group `\(([^)]+)\)`: a non-empty run without `)` between `(` and `)`. */
  predicate ListGroup(s: string, g: Slice) {
    1 <= g.lo < g.hi < |s| && s[g.lo - 1] == '(' && s[g.hi] == ')' && All(s[g.lo..g.hi], NotCloseParen)
  }

  // ---------------------------------------------------------------------------
  // CREATE\s+TABLE\s+[`"]?(\w+)[`"]?\s*\((.*?)\);   (re.I | re.S)
  // ---------------------------------------------------------------------------

  /** `\);` at `i`. */
  function TerminatorAt(s: string, i: nat): (r: Option<()>)
    ensures r.Some? <==> LiteralAt(s, i, ");")
  {
    if LiteralAt(s, i, ");") then Some(()) else None
  }

  datatype CreateMatch = CreateMatch(name: Slice, body: Slice)

  datatype Head = Head(name: Slice, open: nat)

  /** `CREATE\s+TABLE\s+[`"]?(\w+)[`"]?\s*\(` at `i`: the table name and the
      position of the opening parenthesis. */
  function HeadAt(s: string, i: nat): (r: Option<Head>)
    ensures r.Some? ==> KeywordAt(s, i, "CREATE")
    ensures r.Some? ==> i + 6 < r.value.name.lo && r.value.name.hi <= r.value.open < |s|
    ensures r.Some? ==> WordGroup(s, r.value.name) && s[r.value.open] == '('
  {
    if !KeywordAt(s, i, "CREATE") then None
    else
      var a := Span(s, i + 6, IsSpace);
      if a == i + 6 || !KeywordAt(s, a, "TABLE") then None
      else
        var b := Span(s, a + 5, IsSpace);
        var n0 := OptQuote(s, b);
        var n1 := Span(s, n0, IsWordChar);
        SpanAll(s, n0, IsWordChar);
        if b == a + 5 || n1 == n0 then None
        else
          var p := Span(s, OptQuote(s, n1), IsSpace);
          if p == |s| || s[p] != '(' then None
          else Some(Head(Slice(n0, n1), p))
  }

  /** The statement pattern tried at `i`. The body is non-greedy: it ends at the
      first `);` after the opening parenthesis. */
  function CreateAt(s: string, i: nat): (r: Option<CreateMatch>)
    ensures r.Some? ==> HeadAt(s, i).Some? && r.value.name == HeadAt(s, i).value.name
    ensures r.Some? ==> r.value.body.lo == HeadAt(s, i).value.open + 1
    ensures r.Some? ==> i < r.value.body.lo <= r.value.body.hi && LiteralAt(s, r.value.body.hi, ");")
    ensures r.Some? ==> forall k :: r.value.body.lo <= k < r.value.body.hi ==> !LiteralAt(s, k, ");")
  {
    match HeadAt(s, i)
    case None => None
    case Some(h) =>
      var found := Leftmost(s, h.open + 1, TerminatorAt);
      if found.None? then None
      else
        var t := found.value.0;
        assert forall k :: h.open + 1 <= k < t ==> TerminatorAt(s, k).None? && !LiteralAt(s, k, ");");
        Some(CreateMatch(h.name, Slice(h.open + 1, t)))
  }

  /** One `(name, body)` pair produced by the statement scan. */
  type Statement = Named<string>

  /** What every statement match satisfies: the name is an identifier group
      and the body ends at a `);` past the start of the match. */
  predicate Shaped(s: string, k: nat, r: Option<CreateMatch>) {
    r.Some? ==> k < r.value.body.lo <= r.value.body.hi && r.value.body.hi + 2 <= |s| && WordGroup(s, r.value.name)
  }

  /** A statement matcher all of whose matches are shaped. */
  ghost predicate Advancing(m: (string, nat) -> Option<CreateMatch>) {
    forall s: string, k: nat :: Shaped(s, k, m(s, k))
  }

  lemma CreateAdvancing()
    ensures Advancing(CreateAt)
  {
  }

  /** `finditer` with the statement matcher `m` from position `from`: the
      leftmost match, then the scan resumes after its `);`. */
  function Scan(s: string, from: nat, m: (string, nat) -> Option<CreateMatch>): seq<Statement>
    requires Advancing(m)
    decreases |s| + 1 - from
  {
    match Leftmost(s, from, m)
    case None => []
    case Some((i, c)) => [Named(Captured(s, c.name), Captured(s, c.body))] + Scan(s, c.body.hi + 2, m)
  }

  /** `CREATE_RE.finditer(s)` from position `from`. */
  function StatementsFrom(s: string, from: nat): seq<Statement> {
    CreateAdvancing();
    Scan(s, from, CreateAt)
  }

  function Statements(s: string): seq<Statement> {
    StatementsFrom(s, 0)
  }

  /** Every statement found is named by a non-empty run of word characters. */
  lemma {:induction false} StatementNames(s: string, from: nat, m: (string, nat) -> Option<CreateMatch>)
    requires Advancing(m)
    ensures forall k :: 0 <= k < |Scan(s, from, m)| ==>
      |Scan(s, from, m)[k].name| > 0 && All(Scan(s, from, m)[k].name, IsWordChar)
    decreases |s| + 1 - from
  {
    match Leftmost(s, from, m)
    case None =>
    case Some((i, c)) =>
      assert Shaped(s, i, m(s, i));
      StatementNames(s, c.body.hi + 2, m);
  }

  /** The scan finds nothing exactly when the pattern matches nowhere. */
  lemma StatementsEmpty(s: string, from: nat, m: (string, nat) -> Option<CreateMatch>)
    requires Advancing(m)
    ensures Scan(s, from, m) == [] <==> forall k :: from <= k <= |s| ==> m(s, k).None?
  {
  }

  /** A match found by the scan contributes its statement, and the scan
      carries on after its `);`. */
  lemma StatementsStep(s: string, from: nat, i: nat, c: CreateMatch, m: (string, nat) -> Option<CreateMatch>)
    requires Advancing(m) && Leftmost(s, from, m) == Some((i, c))
    ensures ValidSlice(s, c.name) && ValidSlice(s, c.body)
    ensures Scan(s, from, m) == [Named(Captured(s, c.name), Captured(s, c.body))] + Scan(s, c.body.hi + 2, m)
  {
    assert Shaped(s, i, m(s, i));
  }

  // ---------------------------------------------------------------------------
  // re.split(r",\s*\n|,\s*$", body)  and  re.split(r",\s*\n", body)
  // ---------------------------------------------------------------------------

  /** A clause separator tried at `p`. `,\s*\n` ends at the last newline of the
      whitespace run after the comma; when `atEnd` holds, `,\s*$` is the
      alternative, for a run that reaches the end of the text. */
  function SeparatorAt(s: string, p: nat, atEnd: bool): (r: Option<nat>)
    ensures r.Some? ==> p < |s| && s[p] == ',' && p < r.value <= |s| && All(s[p + 1..r.value], IsSpace)
    ensures r.Some? ==> (p + 1 < r.value && s[r.value - 1] == '\n') || (atEnd && r.value == |s| && '\n' !in s[p + 1..])
    ensures r.Some? && s[r.value - 1] == '\n' ==> '\n' !in s[r.value..Span(s, p + 1, IsSpace)]
  {
    if p >= |s| || s[p] != ',' then None
    else
      var q := Span(s, p + 1, IsSpace);
      SpanAll(s, p + 1, IsSpace);
      var nl := SpanBack(s, p + 1, q, NotNewline);
      SpanBackAll(s, p + 1, q, NotNewline);
      if nl > p + 1 then Some(nl)
      else if atEnd && q == |s| then
        assert forall k :: p + 1 <= k < |s| ==> s[k] != '\n';
        Some(q)
      else None
  }

  function CurrentSeparatorAt(s: string, p: nat): Option<nat> {
    SeparatorAt(s, p, true)
  }

  function LegacySeparatorAt(s: string, p: nat): Option<nat> {
    SeparatorAt(s, p, false)
  }

  /** The leftmost separator of either pattern: where it starts and ends. */
  function FirstSeparator(s: string, atEnd: bool): (r: Option<(nat, nat)>)
    ensures r.Some? ==> r.value.0 < r.value.1 <= |s| && s[r.value.0] == ','
    ensures r.Some? ==> All(s[r.value.0 + 1..r.value.1], IsSpace)
  {
    if atEnd then Leftmost(s, 0, CurrentSeparatorAt) else Leftmost(s, 0, LegacySeparatorAt)
  }

  /** Text that a clause separator may consist of. */
  predicate IsSeparatorText(sep: string) {
    |sep| >= 1 && sep[0] == ',' && All(sep[1..], IsSpace)
  }

  /** `xs[0] + seps[0] + xs[1] + ... + xs[n]` */
  function Interleave(xs: seq<string>, seps: seq<string>): string
    requires |xs| == |seps| + 1
    decreases |seps|
  {
    if |seps| == 0 then xs[0] else xs[0] + seps[0] + Interleave(xs[1..], seps[1..])
  }

  /** The pieces of `re.split` together with the separators it removed. */
  function SplitParts(s: string, atEnd: bool): (r: (seq<string>, seq<string>))
    ensures |r.0| == |r.1| + 1
    ensures Interleave(r.0, r.1) == s
    ensures forall k :: 0 <= k < |r.1| ==> IsSeparatorText(r.1[k])
    decreases |s|
  {
    match FirstSeparator(s, atEnd)
    case None => ([s], [])
    case Some((p, e)) =>
      var rest := SplitParts(s[e..], atEnd);
      SplitStep(s, p, e, rest.0, rest.1);
      ([s[..p]] + rest.0, [s[p..e]] + rest.1)
  }

  /** One more piece and separator in front of the split of `s[e..]`. */
  lemma SplitStep(s: string, p: nat, e: nat, xs: seq<string>, seps: seq<string>)
    requires p < e <= |s| && s[p] == ',' && All(s[p + 1..e], IsSpace)
    requires |xs| == |seps| + 1 && Interleave(xs, seps) == s[e..]
    requires forall k :: 0 <= k < |seps| ==> IsSeparatorText(seps[k])
    ensures Interleave([s[..p]] + xs, [s[p..e]] + seps) == s
    ensures forall k :: 0 <= k < |seps| + 1 ==> IsSeparatorText(([s[p..e]] + seps)[k])
  {
    var ys := [s[..p]] + xs;
    var ts := [s[p..e]] + seps;
    assert ys[1..] == xs && ts[1..] == seps;
    assert s == s[..p] + s[p..e] + s[e..];
    assert s[p..e][1..] == s[p + 1..e];
  }

  /** The clause pieces of a table body, before stripping. */
  function SplitClauses(s: string, atEnd: bool): (r: seq<string>)
    ensures |r| >= 1
  {
    SplitParts(s, atEnd).0
  }

  /** The body ends in a comma followed only by non-newline whitespace: the one
      place where `,\s*$` can match and `,\s*\n` cannot. */
  predicate EndsWithBareComma(s: string) {
    exists p | 0 <= p < |s| :: s[p] == ',' && All(s[p + 1..], IsSpace) && '\n' !in s[p + 1..]
  }

  /** The two separator patterns differ only at a bare comma at the end. */
  lemma SeparatorCases(s: string, p: nat)
    ensures EndsWithBareComma(s) || CurrentSeparatorAt(s, p) == LegacySeparatorAt(s, p)
  {
    if p < |s| && s[p] == ',' {
      var q := Span(s, p + 1, IsSpace);
      SpanAll(s, p + 1, IsSpace);
      SpanBackAll(s, p + 1, q, NotNewline);
      if q == |s| && SpanBack(s, p + 1, q, NotNewline) == p + 1 {
        assert All(s[p + 1..], IsSpace);
        assert '\n' !in s[p + 1..];
      }
    }
  }

  lemma SuffixBareComma(s: string, e: nat)
    requires e <= |s|
    ensures EndsWithBareComma(s[e..]) ==> EndsWithBareComma(s)
  {
    if EndsWithBareComma(s[e..]) {
      var p :| 0 <= p < |s[e..]| && s[e..][p] == ',' && All(s[e..][p + 1..], IsSpace) && '\n' !in s[e..][p + 1..];
      assert s[e..][p + 1..] == s[e + p + 1..];
      assert s[e + p] == ',';
    }
  }

  /** Without a bare comma at its end, a body splits the same way under the
      current pattern `,\s*\n|,\s*$` and the legacy pattern `,\s*\n`. */
  lemma {:induction false} SplitAgreesWithoutBareComma(s: string)
    requires !EndsWithBareComma(s)
    ensures SplitClauses(s, true) == SplitClauses(s, false)
    decreases |s|
  {
    forall p | 0 <= p <= |s|
      ensures CurrentSeparatorAt(s, p) == LegacySeparatorAt(s, p)
    {
      SeparatorCases(s, p);
    }
    LeftmostAgree(s, 0, CurrentSeparatorAt, LegacySeparatorAt);
    match FirstSeparator(s, true)
    case None =>
    case Some((p, e)) =>
      SuffixBareComma(s, e);
      SplitAgreesWithoutBareComma(s[e..]);
  }

  // ---------------------------------------------------------------------------
  // PRIMARY\s+KEY            (inline marker, re.I)
  // PRIMARY\s+KEY\s*\(([^)]+)\)   (table-level key, re.I)
  // ---------------------------------------------------------------------------

  /** `PRIMARY\s+KEY` at `i`; the position after `KEY`. */
  function PrimaryKeyAt(s: string, i: nat): (r: Option<nat>)
    ensures r.Some? ==> KeywordAt(s, i, "PRIMARY") && i + 7 < r.value - 3 && r.value <= |s|
    ensures r.Some? ==> All(s[i + 7..r.value - 3], IsSpace) && KeywordAt(s, r.value - 3, "KEY")
  {
    if !KeywordAt(s, i, "PRIMARY") then None
    else
      var a := Span(s, i + 7, IsSpace);
      SpanAll(s, i + 7, IsSpace);
      if a > i + 7 && KeywordAt(s, a, "KEY") then Some(a + 3) else None
  }

  /** `\(([^)]+)\)` at `i`. It fails exactly when there is no `(` at `i`, when
      the `(` is directly closed, or when no `)` follows. */
  function ListAt(s: string, i: nat): (r: Option<Slice>)
    requires i <= |s|
    ensures r.Some? ==> r.value.lo == i + 1 && ListGroup(s, r.value)
    ensures r.None? && i < |s| && s[i] == '(' ==> (i + 1 < |s| && s[i + 1] == ')') || ')' !in s[i + 1..]
  {
    if i < |s| && s[i] == '(' then
      var e := Span(s, i + 1, NotCloseParen);
      SpanAll(s, i + 1, NotCloseParen);
      if e > i + 1 && e < |s| then Some(Slice(i + 1, e))
      else
        assert e == |s| ==> forall k :: i + 1 <= k < |s| ==> s[k] != ')';
        None
    else None
  }

  /** The table-level primary key pattern tried at `i`; the group is the list. */
  function TablePkAt(s: string, i: nat): (r: Option<Slice>)
    ensures r.Some? ==> PrimaryKeyAt(s, i).Some? && ListGroup(s, r.value)
    ensures r.Some? ==> PrimaryKeyAt(s, i).value < r.value.lo
    ensures r.Some? ==> All(s[PrimaryKeyAt(s, i).value..r.value.lo - 1], IsSpace)
  {
    match PrimaryKeyAt(s, i)
    case None => None
    case Some(a) => SpanAll(s, a, IsSpace); ListAt(s, Span(s, a, IsSpace))
  }

  /** `PK_INLINE_RE.search(s)` succeeds. */
  predicate HasPrimaryKey(s: string) {
    Leftmost(s, 0, PrimaryKeyAt).Some?
  }

  /** `PK_TABLE_RE.search(s)`: the captured column list. */
  function SearchTablePk(s: string): (r: Option<string>)
    ensures r.Some? ==> HasPrimaryKey(s) && |r.value| > 0 && ')' !in r.value
  {
    match Leftmost(s, 0, TablePkAt)
    case None => None
    case Some((i, g)) =>
      assert PrimaryKeyAt(s, i).Some?;
      assert Leftmost(s, 0, PrimaryKeyAt).Some?;
      Some(Captured(s, g))
  }

  /** A table-level key needs an opening parenthesis in the clause. */
  lemma TablePkNeedsParen(s: string)
    ensures SearchTablePk(s).Some? ==> '(' in s
  {
    match Leftmost(s, 0, TablePkAt)
    case None =>
    case Some((i, g)) => assert s[g.lo - 1] == '(';
  }

  /** Both key patterns need the word PRIMARY. */
  lemma PrimaryKeyNeedsKeyword(s: string)
    ensures HasPrimaryKey(s) ==> exists i :: 0 <= i <= |s| && KeywordAt(s, i, "PRIMARY")
  {
    match Leftmost(s, 0, PrimaryKeyAt)
    case None =>
    case Some((i, _)) => assert KeywordAt(s, i, "PRIMARY");
  }

  // ---------------------------------------------------------------------------
  // FOREIGN\s+KEY\s*\(([^)]+)\)\s*REFERENCES\s+[`"]?(\w+)[`"]?\s*\(([^)]+)\)   (re.I)
  // ---------------------------------------------------------------------------

  datatype FkMatch = FkMatch(columns: Slice, refTable: Slice, refColumns: Slice)

  /** `FOREIGN\s+KEY\s*\(([^)]+)\)` at `i`: the local column list. */
  function ForeignKeyListAt(s: string, i: nat): (r: Option<Slice>)
    ensures r.Some? ==> KeywordAt(s, i, "FOREIGN") && ListGroup(s, r.value)
  {
    if !KeywordAt(s, i, "FOREIGN") then None
    else
      var a := Span(s, i + 7, IsSpace);
      if a == i + 7 || !KeywordAt(s, a, "KEY") then None
      else ListAt(s, Span(s, a + 3, IsSpace))
  }

  /** `\s*REFERENCES\s+[`"]?(\w+)[`"]?\s*\(([^)]+)\)` at `j`: the referenced
      table and its column list. */
  function ReferencesAt(s: string, j: nat): (r: Option<(Slice, Slice)>)
    requires j <= |s|
    ensures r.Some? ==> j < r.value.0.lo && WordGroup(s, r.value.0) && ListGroup(s, r.value.1)
    ensures r.Some? ==> r.value.0.hi < r.value.1.lo
  {
    var b := Span(s, j, IsSpace);
    if !KeywordAt(s, b, "REFERENCES") then None
    else
      var c := Span(s, b + 10, IsSpace);
      var n0 := OptQuote(s, c);
      var n1 := Span(s, n0, IsWordChar);
      SpanAll(s, n0, IsWordChar);
      if c == b + 10 || n1 == n0 then None
      else match ListAt(s, Span(s, OptQuote(s, n1), IsSpace))
        case None => None
        case Some(g) => Some((Slice(n0, n1), g))
  }

  /** The foreign key pattern tried at `i`. */
  function FkAt(s: string, i: nat): (r: Option<FkMatch>)
    ensures r.Some? ==> KeywordAt(s, i, "FOREIGN")
    ensures r.Some? ==> ListGroup(s, r.value.columns) && WordGroup(s, r.value.refTable) && ListGroup(s, r.value.refColumns)
    ensures r.Some? ==> r.value.columns.hi < r.value.refTable.lo && r.value.refTable.hi < r.value.refColumns.lo
  {
    match ForeignKeyListAt(s, i)
    case None => None
    case Some(g1) =>
      match ReferencesAt(s, g1.hi + 1)
      case None => None
      case Some((t, g3)) => Some(FkMatch(g1, t, g3))
  }

  /** The three groups of `FK_RE.search(s)`. */
  datatype FkText = FkText(columns: string, refTable: string, refColumns: string)

  function SearchFk(s: string): (r: Option<FkText>)
    ensures r.Some? ==> |r.value.columns| > 0 && ')' !in r.value.columns
    ensures r.Some? ==> |r.value.refColumns| > 0 && ')' !in r.value.refColumns
    ensures r.Some? ==> |r.value.refTable| > 0 && All(r.value.refTable, IsWordChar)
  {
    match Leftmost(s, 0, FkAt)
    case None => None
    case Some((_, m)) => Some(FkText(Captured(s, m.columns), Captured(s, m.refTable), Captured(s, m.refColumns)))
  }

  /** A foreign key needs the word FOREIGN and an opening parenthesis. */
  lemma FkNeedsKeyword(s: string)
    ensures SearchFk(s).Some? ==> exists i :: 0 <= i <= |s| && KeywordAt(s, i, "FOREIGN")
    ensures SearchFk(s).Some? ==> '(' in s
  {
    match Leftmost(s, 0, FkAt)
    case None =>
    case Some((i, m)) =>
      assert KeywordAt(s, i, "FOREIGN");
      assert s[m.columns.lo - 1] == '(';
  }

  // ---------------------------------------------------------------------------
  // ^\s*[`"]?(\w+)[`"]?\s+([^\s,]+)   (COLUMN_RE.match)
  // ---------------------------------------------------------------------------

  datatype ColumnMatch = ColumnMatch(name: string, typ: string)

  /** The column pattern anchored at the start of the clause. The name is a
      word run; the type is the maximal run of characters that are neither
      whitespace nor a comma. */
  function MatchColumn(s: string): (r: Option<ColumnMatch>)
    ensures r.Some? ==> |r.value.name| > 0 && All(r.value.name, IsWordChar)
    ensures r.Some? ==> |r.value.typ| > 0 && All(r.value.typ, IsTypeChar)
    ensures r.Some? ==> exists w: nat :: LiteralAt(s, w, r.value.typ) && (w + |r.value.typ| == |s| || !IsTypeChar(s[w + |r.value.typ|]))
  {
    var n0 := OptQuote(s, Span(s, 0, IsSpace));
    var n1 := Span(s, n0, IsWordChar);
    SpanAll(s, n0, IsWordChar);
    if n1 == n0 then None
    else
      var w0 := OptQuote(s, n1);
      var w1 := Span(s, w0, IsSpace);
      if w1 == w0 then None
      else
        var t1 := Span(s, w1, IsTypeChar);
        SpanAll(s, w1, IsTypeChar);
        if t1 == w1 then None
        else
          assert LiteralAt(s, w1, s[w1..t1]);
          Some(ColumnMatch(s[n0..n1], s[w1..t1]))
  }
}
