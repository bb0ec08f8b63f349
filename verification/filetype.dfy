/** The guess of src/detectar_extension.py at what an extensionless file
    holds, made from its first 2048 bytes decoded as text and lowered: an SQL
    dump when a statement keyword occurs anywhere, otherwise by the signature
    the text starts with. */
module FileType {
  import opened Text

  datatype Kind = SqlDump | Zip | Pdf | Json | PlainText | Binary

  /** The label `guess_type` returns for each kind. */
  function Label(k: Kind): string {
    match k
    case SqlDump => "SQL dump (texto con sentencias SQL)"
    case Zip => "ZIP (binario comprimido)"
    case Pdf => "PDF"
    case Json => "JSON (probable)"
    case PlainText => "Texto (sin patrones SQL claros)"
    case Binary => "Binario (no texto)"
  }

  const HeaderBytes := 2048
  const SqlMarkers: seq<string> := ["create table", "insert into", "alter table"]
  const ZipSignature := "pk\U{3}\U{4}"
  const PdfSignature := "%pdf"

  predicate HasSqlMarker(lowered: string) {
    Contains(lowered, "create table") || Contains(lowered, "insert into") || Contains(lowered, "alter table")
  }

  /** The checks of `guess_type` on the decoded header, in their order. */
  function Classify(text: string): (r: Kind)
    ensures r != Binary
    ensures r == SqlDump <==> HasSqlMarker(LowerString(text))
  {
    var lowered := LowerString(text);
    if HasSqlMarker(lowered) then SqlDump
    else if StartsWith(lowered, ZipSignature) then Zip
    else if StartsWith(lowered, PdfSignature) then Pdf
    else if StartsWith(lowered, "{") || StartsWith(lowered, "[") then Json
    else PlainText
  }

  /** `guess_type` on the bytes of a file: only the first 2048 are read, and
      they are decoded by `decode`, which stands for UTF-8 with undecodable
      bytes dropped. */
  function GuessFile(bytes: seq<bv8>, decode: seq<bv8> -> string): (r: Kind)
    ensures r != Binary
  {
    Classify(decode(bytes[..Min(HeaderBytes, |bytes|)]))
  }

  /** Bytes past the first 2048 never change the guess. */
  lemma HeaderOnly(a: seq<bv8>, b: seq<bv8>, decode: seq<bv8> -> string)
    requires a[..Min(HeaderBytes, |a|)] == b[..Min(HeaderBytes, |b|)]
    ensures GuessFile(a, decode) == GuessFile(b, decode)
  {
  }

  lemma HeaderOnlyAppend(head: seq<bv8>, tail: seq<bv8>, decode: seq<bv8> -> string)
    requires |head| >= HeaderBytes
    ensures GuessFile(head + tail, decode) == GuessFile(head, decode)
  {
    assert (head + tail)[..HeaderBytes] == head[..HeaderBytes];
  }

  // ---------------------------------------------------------------------------
  // The same checks as a rule table
  // ---------------------------------------------------------------------------

  /** A check on the lowered text: one of several substrings anywhere, or a
      prefix. */
  datatype Test = AnyOf(needles: seq<string>) | Prefix(p: string)

  datatype Rule = Rule(test: Test, kind: Kind)

  predicate Passes(t: Test, lowered: string) {
    match t
    case AnyOf(needles) => exists k :: 0 <= k < |needles| && Contains(lowered, needles[k])
    case Prefix(p) => StartsWith(lowered, p)
  }

  /** The kind of the first rule that passes, plain text when none does. */
  function FirstMatch(rules: seq<Rule>, lowered: string): Kind
    decreases |rules|
  {
    if |rules| == 0 then PlainText
    else if Passes(rules[0].test, lowered) then rules[0].kind
    else FirstMatch(rules[1..], lowered)
  }

  const Rules: seq<Rule> := [
    Rule(AnyOf(SqlMarkers), SqlDump),
    Rule(Prefix(ZipSignature), Zip),
    Rule(Prefix(PdfSignature), Pdf),
    Rule(Prefix("{"), Json),
    Rule(Prefix("["), Json)
  ]

  lemma SqlRule(lowered: string)
    ensures Passes(AnyOf(SqlMarkers), lowered) <==> HasSqlMarker(lowered)
  {
    if HasSqlMarker(lowered) {
      if Contains(lowered, "create table") {
        assert SqlMarkers[0] == "create table";
      } else if Contains(lowered, "insert into") {
        assert SqlMarkers[1] == "insert into";
      } else {
        assert SqlMarkers[2] == "alter table";
      }
    }
  }

  /** The chain of checks is the first match over the rule table, in the order
      SQL, ZIP, PDF, JSON, plain text. */
  lemma ClassifyIsFirstMatch(text: string)
    ensures Classify(text) == FirstMatch(Rules, LowerString(text))
  {
    var lowered := LowerString(text);
    SqlRule(lowered);
    var r1 := Rules[1..];
    var r2 := r1[1..];
    var r3 := r2[1..];
    var r4 := r3[1..];
    assert r4 == [Rule(Prefix("["), Json)];
    assert FirstMatch(r4[1..], lowered) == PlainText;
    assert FirstMatch(r4, lowered) == if StartsWith(lowered, "[") then Json else PlainText;
    assert FirstMatch(r3, lowered) == if StartsWith(lowered, "{") then Json else FirstMatch(r4, lowered);
    assert FirstMatch(r2, lowered) == if StartsWith(lowered, PdfSignature) then Pdf else FirstMatch(r3, lowered);
    assert FirstMatch(r1, lowered) == if StartsWith(lowered, ZipSignature) then Zip else FirstMatch(r2, lowered);
  }

  // ---------------------------------------------------------------------------
  // Consequences
  // ---------------------------------------------------------------------------

  /** A lowercase keyword found in any case in the text is found in the
      lowered text. */
  lemma KeywordLowered(text: string, i: nat, kw: string)
    requires KeywordAt(text, i, kw) && LowerString(kw) == kw
    ensures LiteralAt(LowerString(text), i, kw)
  {
    var lowered := LowerString(text);
    forall k | 0 <= k < |kw|
      ensures lowered[i + k] == kw[k]
    {
      assert Lower(kw[k]) == LowerString(kw)[k];
    }
    assert lowered[i..i + |kw|] == kw;
  }

  /** An SQL keyword anywhere in the header, in any case, makes it an SQL dump,
      whatever the header starts with. */
  lemma SqlAnywhere(text: string, i: nat, m: nat)
    requires m < |SqlMarkers| && KeywordAt(text, i, SqlMarkers[m])
    ensures Classify(text) == SqlDump
  {
    var kw := SqlMarkers[m];
    assert LowerString(kw) == kw by {
      assert m == 0 || m == 1 || m == 2;
    }
    KeywordLowered(text, i, kw);
    var lowered := LowerString(text);
    assert Contains(lowered, kw);
  }

  /** Without an SQL keyword, a header opening with the ZIP signature in either
      case ("PK" or "pk" followed by the characters 3 and 4) is a ZIP
      archive. */
  lemma ZipAnyCase(text: string)
    requires !HasSqlMarker(LowerString(text)) && KeywordAt(text, 0, ZipSignature)
    ensures Classify(text) == Zip
  {
    assert LowerString(ZipSignature) == ZipSignature;
    KeywordLowered(text, 0, ZipSignature);
  }

  /** Likewise "%PDF" and "%pdf" both mark a PDF. */
  lemma PdfAnyCase(text: string)
    requires !HasSqlMarker(LowerString(text)) && KeywordAt(text, 0, PdfSignature)
    ensures Classify(text) == Pdf
  {
    assert LowerString(PdfSignature) == PdfSignature;
    KeywordLowered(text, 0, PdfSignature);
    assert !StartsWith(LowerString(text), ZipSignature) by {
      assert LowerString(text)[0] == '%';
    }
  }

  /** JSON is guessed exactly when there is no SQL keyword, no ZIP or PDF
      signature, and the very first character is '{' or '['; leading blanks
      are not skipped. */
  lemma JsonFirstCharacter(text: string)
    ensures Classify(text) == Json <==>
      && !HasSqlMarker(LowerString(text))
      && |text| > 0 && (text[0] == '{' || text[0] == '[')
  {
    var lowered := LowerString(text);
    if |text| > 0 {
      assert StartsWith(lowered, "{") <==> lowered[0] == '{';
      assert StartsWith(lowered, "[") <==> lowered[0] == '[';
      assert lowered[0] == Lower(text[0]);
      assert StartsWith(lowered, ZipSignature) ==> lowered[0] == 'p';
      assert StartsWith(lowered, PdfSignature) ==> lowered[0] == '%';
    }
  }
}
