/** The local markdown report: a title, then one section per table in the
    schema's key order, built as the concatenation of the fragments the
    scripts append to their `md` list. Besides the text itself the module gives
    its line-by-line reading, so that what a reader of the file sees (which
    line is a heading, a table row, the foreign key block) can be stated. */
module Markdown {
  import opened Text
  import opened Schema
  import opened Parser

  const Arrow: char := '\U{2192}'

  /** The first fragment: src/main.py adds "Determinístico", the legacy
      scripts do not. */
  function TitleLine(v: Variant): (r: string)
    ensures |r| > 2 && r[0] == '#' && r[1] == ' ' && '\n' !in r
  {
    match v
    case Current => "# Esquema detectado (Local Determin\U{ED}stico)"
    case Legacy => "# Esquema detectado (Local)"
  }

  /** `", ".join(names) if names else "-"` */
  function PkText(pk: seq<string>): (r: string)
    ensures |pk| == 0 ==> r == "-"
  {
    if |pk| == 0 then "-" else JoinWith(pk, ", ")
  }

  function RowLine(c: Column): string {
    "| " + c.name + " | " + c.typ + " |"
  }

  function FkLine(fk: ForeignKey): string {
    "- (" + JoinWith(fk.columns, ", ") + ") " + [Arrow] + " " + fk.refTable + "(" + JoinWith(fk.refColumns, ", ") + ")"
  }

  /** Lines terminated by a line break, joined. */
  function Unlines(ls: seq<string>): (r: string)
    decreases |ls|
  {
    if |ls| == 0 then "" else Unlines(ls[..|ls| - 1]) + ls[|ls| - 1] + "\n"
  }

  function RowLines(cs: seq<Column>): (r: seq<string>)
    ensures |r| == |cs|
    ensures forall k :: 0 <= k < |cs| ==> r[k] == RowLine(cs[k])
  {
    seq(|cs|, k requires 0 <= k < |cs| => RowLine(cs[k]))
  }

  function FkLines(fks: seq<ForeignKey>): (r: seq<string>)
    ensures |r| == |fks|
    ensures forall k :: 0 <= k < |fks| ==> r[k] == FkLine(fks[k])
  {
    seq(|fks|, k requires 0 <= k < |fks| => FkLine(fks[k]))
  }

  // ---------------------------------------------------------------------------
  // The text, fragment by fragment
  // ---------------------------------------------------------------------------

  /** The section of one table, as the scripts append it. */
  function Section(name: string, t: TableSchema): string {
    "## " + name + "\n"
    + "**Primary Key**: " + PkText(t.primaryKey) + "\n\n"
    + "| Columna | Tipo |\n|---|---|\n"
    + Unlines(RowLines(t.columns))
    + (if |t.foreignKeys| > 0 then "\n**FK**:\n" + Unlines(FkLines(t.foreignKeys)) else "")
    + "\n"
  }

  function Sections(m: Schema): (r: seq<string>)
    ensures |r| == |m|
    ensures forall k :: 0 <= k < |m| ==> r[k] == Section(m[k].name, m[k].item)
  {
    seq(|m|, k requires 0 <= k < |m| => Section(m[k].name, m[k].item))
  }

  /** `"".join(md)` */
  function Render(m: Schema, v: Variant): string {
    TitleLine(v) + "\n" + Concat(Sections(m))
  }

  // ---------------------------------------------------------------------------
  // The text, line by line
  // ---------------------------------------------------------------------------

  /** The lines of one section, without their line breaks. */
  function SectionLines(name: string, t: TableSchema): (r: seq<string>)
    ensures |r| == 6 + |t.columns| + (if |t.foreignKeys| > 0 then 2 + |t.foreignKeys| else 0)
  {
    ["## " + name, "**Primary Key**: " + PkText(t.primaryKey), "", "| Columna | Tipo |", "|---|---|"]
    + RowLines(t.columns)
    + (if |t.foreignKeys| > 0 then ["", "**FK**:"] + FkLines(t.foreignKeys) else [])
    + [""]
  }

  function Flatten(lss: seq<seq<string>>): seq<string>
    decreases |lss|
  {
    if |lss| == 0 then [] else Flatten(lss[..|lss| - 1]) + lss[|lss| - 1]
  }

  function AllSectionLines(m: Schema): (r: seq<seq<string>>)
    ensures |r| == |m|
    ensures forall k :: 0 <= k < |m| ==> r[k] == SectionLines(m[k].name, m[k].item)
  {
    seq(|m|, k requires 0 <= k < |m| => SectionLines(m[k].name, m[k].item))
  }

  function DocumentLines(m: Schema, v: Variant): seq<string> {
    [TitleLine(v)] + Flatten(AllSectionLines(m))
  }

  // ---------------------------------------------------------------------------
  // The two readings agree
  // ---------------------------------------------------------------------------

  lemma {:induction false} UnlinesAppend(a: seq<string>, b: seq<string>)
    ensures Unlines(a + b) == Unlines(a) + Unlines(b)
    decreases |b|
  {
    if |b| == 0 {
      assert a + b == a;
    } else {
      assert (a + b)[..|a + b| - 1] == a + b[..|b| - 1];
      UnlinesAppend(a, b[..|b| - 1]);
    }
  }

  /** Terminating every line is joining them, and one empty line more, with
      line breaks. */
  lemma {:induction false} UnlinesIsJoin(ls: seq<string>)
    ensures Unlines(ls) == JoinWith(ls + [""], "\n")
    decreases |ls|
  {
    if |ls| > 0 {
      UnlinesAppend([ls[0]], ls[1..]);
      assert [ls[0]] + ls[1..] == ls;
      assert Unlines([ls[0]]) == ls[0] + "\n" by {
        assert [ls[0]][..0] == [];
      }
      UnlinesIsJoin(ls[1..]);
      assert (ls + [""])[1..] == ls[1..] + [""];
    }
  }

  /** Splitting the text at its line breaks gives the lines back, followed by
      the empty piece after the last break. */
  lemma LinesRoundTrip(ls: seq<string>)
    requires forall k :: 0 <= k < |ls| ==> '\n' !in ls[k]
    ensures SplitOn(Unlines(ls), '\n') == ls + [""]
  {
    UnlinesIsJoin(ls);
    assert forall k :: 0 <= k < |ls + [""]| ==> '\n' !in (ls + [""])[k];
    SplitOnJoin(ls + [""], '\n');
  }

  lemma UnlinesSnoc(ls: seq<string>, l: string)
    ensures Unlines(ls + [l]) == Unlines(ls) + l + "\n"
  {
    assert (ls + [l])[..|ls|] == ls;
  }

  lemma UnlinesFive(a: string, b: string, c: string, d: string, e: string)
    ensures Unlines([a, b, c, d, e]) == a + "\n" + b + "\n" + c + "\n" + d + "\n" + e + "\n"
  {
    UnlinesSnoc([], a);
    UnlinesSnoc([a], b);
    UnlinesSnoc([a, b], c);
    UnlinesSnoc([a, b, c], d);
    UnlinesSnoc([a, b, c, d], e);
    assert [] + [a] == [a] && [a] + [b] == [a, b] && [a, b] + [c] == [a, b, c];
    assert [a, b, c] + [d] == [a, b, c, d] && [a, b, c, d] + [e] == [a, b, c, d, e];
  }

  lemma SectionHead(name: string, pk: string)
    ensures Unlines(["## " + name, "**Primary Key**: " + pk, "", "| Columna | Tipo |", "|---|---|"])
      == "## " + name + "\n" + "**Primary Key**: " + pk + "\n\n" + "| Columna | Tipo |\n|---|---|\n"
  {
    UnlinesFive("## " + name, "**Primary Key**: " + pk, "", "| Columna | Tipo |", "|---|---|");
    assert "\n\n" == "\n" + "" + "\n";
    assert "| Columna | Tipo |\n|---|---|\n" == "| Columna | Tipo |" + "\n" + "|---|---|" + "\n";
  }

  lemma FkBlockLines(fks: seq<ForeignKey>)
    ensures Unlines(["", "**FK**:"] + FkLines(fks)) == "\n**FK**:\n" + Unlines(FkLines(fks))
  {
    UnlinesAppend(["", "**FK**:"], FkLines(fks));
    assert ["", "**FK**:"][..1][..0] == [];
    assert "\n**FK**:\n" == "" + "\n" + "**FK**:" + "\n";
  }

  /** The section text is its lines, each followed by a line break. */
  lemma SectionAsLines(name: string, t: TableSchema)
    ensures Section(name, t) == Unlines(SectionLines(name, t))
  {
    var head := ["## " + name, "**Primary Key**: " + PkText(t.primaryKey), "", "| Columna | Tipo |", "|---|---|"];
    var fk := if |t.foreignKeys| > 0 then ["", "**FK**:"] + FkLines(t.foreignKeys) else [];
    SectionHead(name, PkText(t.primaryKey));
    FkBlockLines(t.foreignKeys);
    UnlinesAppend(head, RowLines(t.columns));
    UnlinesAppend(head + RowLines(t.columns), fk);
    UnlinesAppend(head + RowLines(t.columns) + fk, [""]);
    assert Unlines([""]) == "\n" by {
      assert [""][..0] == [];
    }
  }

  lemma {:induction false} FlattenAppend(a: seq<seq<string>>, b: seq<seq<string>>)
    ensures Flatten(a + b) == Flatten(a) + Flatten(b)
    decreases |b|
  {
    if |b| == 0 {
      assert a + b == a;
    } else {
      assert (a + b)[..|a + b| - 1] == a + b[..|b| - 1];
      FlattenAppend(a, b[..|b| - 1]);
    }
  }

  lemma SectionsSnoc(m: Schema)
    requires |m| > 0
    ensures Concat(Sections(m)) == Concat(Sections(m[..|m| - 1])) + Section(m[|m| - 1].name, m[|m| - 1].item)
  {
    assert Sections(m)[..|m| - 1] == Sections(m[..|m| - 1]);
  }

  lemma {:induction false} SectionsAsLines(m: Schema)
    ensures Concat(Sections(m)) == Unlines(Flatten(AllSectionLines(m)))
    decreases |m|
  {
    if |m| > 0 {
      var init, last := m[..|m| - 1], m[|m| - 1];
      SectionsAsLines(init);
      SectionsSnoc(m);
      FlattenSnoc(m);
      SectionAsLines(last.name, last.item);
      UnlinesAppend(Flatten(AllSectionLines(init)), SectionLines(last.name, last.item));
    }
  }

  lemma UnlinesOne(l: string)
    ensures Unlines([l]) == l + "\n"
  {
    assert [l][..0] == [];
  }

  /** The whole report is its lines, each followed by a line break. */
  lemma RenderAsLines(m: Schema, v: Variant)
    ensures Render(m, v) == Unlines(DocumentLines(m, v))
  {
    var title, rest := TitleLine(v), Flatten(AllSectionLines(m));
    SectionsAsLines(m);
    UnlinesAppend([title], rest);
    UnlinesOne(title);
  }

  // ---------------------------------------------------------------------------
  // Reading the report back
  // ---------------------------------------------------------------------------

  /** No name, type or key item holds a line break, so each fragment stays on
      its line. */
  predicate NoBreaks(xs: seq<string>) {
    forall k :: 0 <= k < |xs| ==> '\n' !in xs[k]
  }

  predicate TableWithoutBreaks(t: TableSchema) {
    && (forall k :: 0 <= k < |t.columns| ==> '\n' !in t.columns[k].name && '\n' !in t.columns[k].typ)
    && NoBreaks(t.primaryKey)
    && (forall k :: 0 <= k < |t.foreignKeys| ==>
          NoBreaks(t.foreignKeys[k].columns) && '\n' !in t.foreignKeys[k].refTable && NoBreaks(t.foreignKeys[k].refColumns))
  }

  predicate SchemaWithoutBreaks(m: Schema) {
    forall k :: 0 <= k < |m| ==> '\n' !in m[k].name && TableWithoutBreaks(m[k].item)
  }

  lemma {:induction false} JoinWithout(xs: seq<string>, sep: string, c: char)
    requires c !in sep && forall k :: 0 <= k < |xs| ==> c !in xs[k]
    ensures c !in JoinWith(xs, sep)
    decreases |xs|
  {
    if |xs| > 1 {
      JoinWithout(xs[1..], sep, c);
    }
  }

  lemma NoBreaksAppend(a: seq<string>, b: seq<string>)
    requires NoBreaks(a) && NoBreaks(b)
    ensures NoBreaks(a + b)
  {
  }

  lemma HeadWithoutBreaks(name: string, pk: seq<string>)
    requires '\n' !in name && NoBreaks(pk)
    ensures NoBreaks(["## " + name, "**Primary Key**: " + PkText(pk), "", "| Columna | Tipo |", "|---|---|"])
  {
    JoinWithout(pk, ", ", '\n');
  }

  lemma RowsWithoutBreaks(t: TableSchema)
    requires TableWithoutBreaks(t)
    ensures NoBreaks(RowLines(t.columns))
  {
  }

  lemma FkBlockWithoutBreaks(t: TableSchema)
    requires TableWithoutBreaks(t)
    ensures NoBreaks(["", "**FK**:"] + FkLines(t.foreignKeys))
  {
    forall k | 0 <= k < |t.foreignKeys|
      ensures '\n' !in FkLine(t.foreignKeys[k])
    {
      JoinWithout(t.foreignKeys[k].columns, ", ", '\n');
      JoinWithout(t.foreignKeys[k].refColumns, ", ", '\n');
    }
  }

  lemma SectionLinesWithoutBreaks(name: string, t: TableSchema)
    requires '\n' !in name && TableWithoutBreaks(t)
    ensures NoBreaks(SectionLines(name, t))
  {
    var head := ["## " + name, "**Primary Key**: " + PkText(t.primaryKey), "", "| Columna | Tipo |", "|---|---|"];
    var fk := if |t.foreignKeys| > 0 then ["", "**FK**:"] + FkLines(t.foreignKeys) else [];
    HeadWithoutBreaks(name, t.primaryKey);
    RowsWithoutBreaks(t);
    FkBlockWithoutBreaks(t);
    NoBreaksAppend(head, RowLines(t.columns));
    NoBreaksAppend(head + RowLines(t.columns), fk);
    NoBreaksAppend(head + RowLines(t.columns) + fk, [""]);
  }

  lemma {:induction false} FlattenWithoutBreaks(m: Schema)
    requires SchemaWithoutBreaks(m)
    ensures NoBreaks(Flatten(AllSectionLines(m)))
    decreases |m|
  {
    if |m| > 0 {
      var init := m[..|m| - 1];
      FlattenWithoutBreaks(init);
      assert AllSectionLines(m)[..|m| - 1] == AllSectionLines(init);
      SectionLinesWithoutBreaks(m[|m| - 1].name, m[|m| - 1].item);
    }
  }

  /** Splitting the report at its line breaks gives exactly its lines. */
  lemma RenderedLines(m: Schema, v: Variant)
    requires SchemaWithoutBreaks(m)
    ensures SplitOn(Render(m, v), '\n') == DocumentLines(m, v) + [""]
  {
    RenderAsLines(m, v);
    DocumentLinesWithoutBreaks(m, v);
    LinesRoundTrip(DocumentLines(m, v));
  }

  lemma DocumentLinesWithoutBreaks(m: Schema, v: Variant)
    requires SchemaWithoutBreaks(m)
    ensures NoBreaks(DocumentLines(m, v))
  {
    FlattenWithoutBreaks(m);
    TitleWithoutBreak(v);
    DocumentWithoutBreaks(TitleLine(v), Flatten(AllSectionLines(m)));
  }

  lemma TitleWithoutBreak(v: Variant)
    ensures '\n' !in TitleLine(v)
  {
    match v
    case Current =>
    case Legacy =>
  }

  lemma DocumentWithoutBreaks(title: string, rest: seq<string>)
    requires '\n' !in title && NoBreaks(rest)
    ensures NoBreaks([title] + rest)
  {
  }

  // ---------------------------------------------------------------------------
  // Headings
  // ---------------------------------------------------------------------------

  /** The second-level headings of a list of lines, in order: every line that
      starts with "## ", without that marker. */
  function Headings(ls: seq<string>): (r: seq<string>)
    ensures |r| <= |ls|
    decreases |ls|
  {
    if |ls| == 0 then []
    else
      var l := ls[|ls| - 1];
      Headings(ls[..|ls| - 1]) + (if StartsWith(l, "## ") then [l[3..]] else [])
  }

  lemma {:induction false} HeadingsAppend(a: seq<string>, b: seq<string>)
    ensures Headings(a + b) == Headings(a) + Headings(b)
    decreases |b|
  {
    if |b| == 0 {
      assert a + b == a;
    } else {
      assert (a + b)[..|a + b| - 1] == a + b[..|b| - 1];
      HeadingsAppend(a, b[..|b| - 1]);
    }
  }

  /** Empty, or not opened by "##". */
  predicate NotHeading(l: string) {
    |l| == 0 || l[0] != '#' || (|l| > 1 && l[1] != '#')
  }

  lemma {:induction false} NoHeadings(ls: seq<string>)
    requires forall k :: 0 <= k < |ls| ==> NotHeading(ls[k])
    ensures Headings(ls) == []
    decreases |ls|
  {
    if |ls| > 0 {
      NoHeadings(ls[..|ls| - 1]);
    }
  }

  lemma BodyNotHeadings(t: TableSchema)
    ensures forall k :: 0 <= k < |t.columns| ==> NotHeading(RowLines(t.columns)[k])
    ensures forall k :: 0 <= k < |t.foreignKeys| ==> NotHeading(FkLines(t.foreignKeys)[k])
  {
  }

  /** Each section contributes exactly one heading: its table's name. */
  lemma SectionHeadings(name: string, t: TableSchema)
    ensures Headings(SectionLines(name, t)) == [name]
  {
    var h: string := "## " + name;
    var rest := ["**Primary Key**: " + PkText(t.primaryKey), "", "| Columna | Tipo |", "|---|---|"]
      + RowLines(t.columns)
      + (if |t.foreignKeys| > 0 then ["", "**FK**:"] + FkLines(t.foreignKeys) else [])
      + [""];
    assert SectionLines(name, t) == [h] + rest;
    BodyNotHeadings(t);
    NoHeadings(rest);
    HeadingsAppend([h], rest);
    var single: seq<string> := [h];
    assert single[..0] == [];
    assert StartsWith(h, "## ") && h[3..] == name;
  }

  lemma KeysSnoc(m: Schema)
    requires |m| > 0
    ensures Names(m) == Names(m[..|m| - 1]) + [m[|m| - 1].name]
  {
  }

  lemma FlattenSnoc(m: Schema)
    requires |m| > 0
    ensures Flatten(AllSectionLines(m))
      == Flatten(AllSectionLines(m[..|m| - 1])) + SectionLines(m[|m| - 1].name, m[|m| - 1].item)
  {
    assert AllSectionLines(m)[..|m| - 1] == AllSectionLines(m[..|m| - 1]);
  }

  lemma {:induction false} FlattenHeadings(m: Schema)
    ensures Headings(Flatten(AllSectionLines(m))) == Names(m)
    decreases |m|
  {
    if |m| > 0 {
      var init, last := m[..|m| - 1], m[|m| - 1];
      FlattenHeadings(init);
      FlattenSnoc(m);
      SectionHeadings(last.name, last.item);
      HeadingsAppend(Flatten(AllSectionLines(init)), SectionLines(last.name, last.item));
      KeysSnoc(m);
    }
  }

  lemma TitleNotHeading(v: Variant)
    ensures NotHeading(TitleLine(v))
  {
    var t := TitleLine(v);
    assert t[0] == '#' && t[1] == ' ' by {
      match v
      case Current =>
      case Legacy =>
    }
  }

  /** The report's headings are the schema's table names, in insertion order:
      the title is a first-level heading and no other line starts with "##". */
  lemma DocumentHeadings(m: Schema, v: Variant)
    ensures Headings(DocumentLines(m, v)) == Names(m)
  {
    FlattenHeadings(m);
    HeadingsAppend([TitleLine(v)], Flatten(AllSectionLines(m)));
    TitleNotHeading(v);
    NoHeadings([TitleLine(v)]);
  }

  /** Read from the written text: splitting the report into lines and keeping
      the "## " lines gives back the table names in order. */
  lemma ReportHeadings(m: Schema, v: Variant)
    requires SchemaWithoutBreaks(m)
    ensures Headings(SplitOn(Render(m, v), '\n')) == Names(m)
  {
    RenderedLines(m, v);
    DocumentHeadings(m, v);
    HeadingsAppend(DocumentLines(m, v), [""]);
    NoHeadings([""]);
  }

  // ---------------------------------------------------------------------------
  // The key line read back
  // ---------------------------------------------------------------------------

  /** What a reader recovers from the text after "**Primary Key**: ": the dash
      stands for no key, anything else is a comma-separated list. */
  function ReadKey(text: string): seq<string> {
    if text == "-" then [] else NameList(text)
  }

  /** Each item with `pad` in front. */
  function Padded(ys: seq<string>, pad: string): (r: seq<string>)
    ensures |r| == |ys|
    ensures forall k :: 0 <= k < |ys| ==> r[k] == pad + ys[k]
  {
    seq(|ys|, k requires 0 <= k < |ys| => pad + ys[k])
  }

  lemma {:induction false} PaddedJoin(ys: seq<string>, sep: string, pad: string)
    requires |ys| >= 1
    ensures JoinWith(Padded(ys, pad), sep) == pad + JoinWith(ys, sep + pad)
    decreases |ys|
  {
    if |ys| > 1 {
      PaddedJoin(ys[1..], sep, pad);
      assert Padded(ys, pad)[1..] == Padded(ys[1..], pad);
    }
  }

  /** Joining with `sep + pad` is joining with `sep` the items after the first
      given `pad` in front. */
  lemma PaddedSeparator(xs: seq<string>, sep: string, pad: string)
    requires |xs| >= 1
    ensures JoinWith(xs, sep + pad) == JoinWith([xs[0]] + Padded(xs[1..], pad), sep)
  {
    var ys := [xs[0]] + Padded(xs[1..], pad);
    if |xs| > 1 {
      PaddedJoin(xs[1..], sep, pad);
      assert ys[1..] == Padded(xs[1..], pad);
    }
  }

  lemma StripClean(a: string, x: string)
    requires All(a, IsItemPad) && CleanName(x)
    ensures Strip(a + x, IsItemPad) == x
  {
    if |x| > 0 {
      StripPadded(a, x, "", IsItemPad);
      assert a + x + "" == a + x;
    } else {
      assert a + x == a;
    }
  }

  /** The key line gives the key back, except for a key whose only column is
      literally named "-", which reads as no key (see KeyDash). */
  lemma KeyReadBack(pk: seq<string>)
    requires CleanNames(pk) && pk != ["-"]
    ensures ReadKey(PkText(pk)) == pk
  {
    if |pk| > 0 {
      var parts := [pk[0]] + Padded(pk[1..], " ");
      KeyTextNotDash(pk);
      KeyPieces(pk);
      NameListPieces(JoinWith(pk, ", "), parts);
      KeyItems(pk);
    }
  }

  lemma NameListPieces(group: string, parts: seq<string>)
    requires SplitOn(group, ',') == parts
    ensures |NameList(group)| == |parts|
    ensures forall k :: 0 <= k < |parts| ==> NameList(group)[k] == Strip(parts[k], IsItemPad)
  {
  }

  lemma KeyItems(pk: seq<string>)
    requires |pk| >= 1 && CleanNames(pk)
    ensures forall k :: 0 <= k < |pk| ==> Strip(([pk[0]] + Padded(pk[1..], " "))[k], IsItemPad) == pk[k]
  {
    var parts := [pk[0]] + Padded(pk[1..], " ");
    forall k | 0 <= k < |pk|
      ensures Strip(parts[k], IsItemPad) == pk[k]
    {
      if k == 0 {
        StripClean("", pk[0]);
        assert "" + pk[0] == pk[0];
      } else {
        assert parts[k] == " " + pk[k];
        StripClean(" ", pk[k]);
      }
    }
  }

  lemma KeyTextNotDash(pk: seq<string>)
    requires |pk| >= 1 && pk != ["-"]
    ensures JoinWith(pk, ", ") != "-"
  {
    if |pk| > 1 {
      assert |JoinWith(pk, ", ")| >= 2;
    }
  }

  /** The pieces between the separators of a list joined with `[c] + pad`:
      the first item, then each further item after its padding. */
  lemma PaddedPieces(xs: seq<string>, c: char, pad: string)
    requires |xs| >= 1 && c !in pad
    requires forall k :: 0 <= k < |xs| ==> c !in xs[k]
    ensures SplitOn(JoinWith(xs, [c] + pad), c) == [xs[0]] + Padded(xs[1..], pad)
  {
    var parts := [xs[0]] + Padded(xs[1..], pad);
    PaddedSeparator(xs, [c], pad);
    assert forall k :: 1 <= k < |parts| ==> parts[k] == pad + xs[k];
    SplitOnJoin(parts, c);
  }

  lemma KeyPieces(pk: seq<string>)
    requires |pk| >= 1 && CleanNames(pk)
    ensures SplitOn(JoinWith(pk, ", "), ',') == [pk[0]] + Padded(pk[1..], " ")
  {
    assert ", " == [','] + " ";
    PaddedPieces(pk, ',', " ");
  }

  /** The dash is ambiguous between no key and a key on a column named "-". */
  lemma KeyDash(pk: seq<string>)
    ensures PkText(pk) == "-" <==> pk == [] || pk == ["-"]
  {
    if |pk| > 1 {
      assert |JoinWith(pk, ", ")| >= 2;
    }
  }

  // ---------------------------------------------------------------------------
  // The layout of a section
  // ---------------------------------------------------------------------------

  /** After the heading, the key line, a blank line and the two header lines of
      the table come the columns, one row each and in order. */
  lemma SectionRows(name: string, t: TableSchema)
    ensures forall k :: 0 <= k < |t.columns| ==> SectionLines(name, t)[5 + k] == RowLine(t.columns[k])
  {
  }

  const FkMarker := "**FK**:"

  lemma MarkerNotInHead(name: string, pk: string)
    ensures FkMarker !in ["## " + name, "**Primary Key**: " + pk, "", "| Columna | Tipo |", "|---|---|"]
  {
    assert ("## " + name)[0] == '#';
    assert |"**Primary Key**: " + pk| > |FkMarker|;
    assert "| Columna | Tipo |"[0] == '|' && "|---|---|"[0] == '|';
  }

  lemma MarkerNotARow(cs: seq<Column>)
    ensures FkMarker !in RowLines(cs)
  {
    forall k | 0 <= k < |cs|
      ensures RowLines(cs)[k][0] == '|'
    {
    }
  }

  /** The "**FK**:" line appears in a section exactly when the table has a
      foreign key. */
  lemma FkMarkerIffKeys(name: string, t: TableSchema)
    ensures FkMarker in SectionLines(name, t) <==> |t.foreignKeys| > 0
  {
    var head := ["## " + name, "**Primary Key**: " + PkText(t.primaryKey), "", "| Columna | Tipo |", "|---|---|"];
    if |t.foreignKeys| > 0 {
      assert SectionLines(name, t)[5 + |t.columns| + 1] == FkMarker;
    } else {
      MarkerNotInHead(name, PkText(t.primaryKey));
      MarkerNotARow(t.columns);
      assert SectionLines(name, t) == head + RowLines(t.columns) + [""];
    }
  }
}
