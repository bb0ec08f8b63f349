# SQL dump analyser: schema parser, report, chunking and resume

A Dafny model of the deterministic parts of a set of Python scripts that
analyse a large SQL dump. The scripts do the following:

- They extract tables, columns, primary keys and foreign keys with regular
  expressions (`parse_schema_local`).
- They write that schema as a markdown report.
- They cut the dump into fixed-size character chunks for a language model.
- They name each chunk's answer file `api_chunk_###.txt`, so that an
  interrupted run can resume.
- They guess the type of an extensionless file from its first 2048 bytes.

The model has one module per concern:

- `Wrappers`: `Option`.
- `Text`: the character classes of Python's `re` (`\s` exactly as `str.isspace`,
  `\w` and `\d` as ASCII), `str.strip`, `str.split`, `str.join`, `str.lower`, and
  decimal digits.
- `Schema`: the column, foreign-key and table records, and the insertion-ordered
  `dict` from table name to record (a sequence of entries).
- `Patterns`: every regular expression of the parser as a deterministic
  scanner, plus the leftmost search that `re.search` and `re.finditer` perform.
  Each pattern is deterministic under Python's backtracking, because every greedy
  run is followed by a character the run cannot contain. So the scanner gives
  exactly the match Python would.
- `Parser`: `parse_schema_local` in two variants.
  - `Current` is `src/main.py`.
  - `Legacy` is the identical copies in `src/app/2.py`, `3.py` and `4.py`. These
    split only on `,\s*\n`, try all three patterns on every clause, let a
    table-level key replace the key, and have no inline marker.
- `PatternFacts`: round trips through the scanners on canonically written
  clauses and statements.
- `ParserExamples`: the three cases of `tests/test_parsing.py`, worked through
  both variants, and clause-level facts.
- `Markdown`: the report, built as `src/main.py` and `write_local_markdown` build
  it.
- `Chunks`: the chunk ranges of `src/main.py`, and the streamed reads of the
  scripts under `src/app`. It also covers the answer-file names, the set of
  completed chunks, the resume loops, the remote maximum and the start index of
  `src/app/4.py`.
- `FileType`: `guess_type`.

## Model

| member | source | states |
|---|---|---|
| Schema.Put | src/main.py:65 | `schema[table] = record`: an existing key keeps its position; a new key is appended at the end |
| Schema.PutLookupSame | src/main.py:65 | after the assignment, the name maps to the new record |
| Schema.PutLookupOther | src/main.py:65 | every other name keeps what it mapped to |
| Schema.PutDistinct | src/main.py:65 | assignment never duplicates a key |
| Schema.Lookup | src/main.py:65 | a lookup fails exactly for names that are not keys; a found record is the one stored under the name |
| Patterns.Leftmost | src/main.py:33 | the search returns a position where the pattern matches, and the pattern matches at no earlier position; no result means it matches nowhere |
| Patterns.LeftmostAgree | src/main.py:43 | two matchers that agree at every position find the same leftmost match |
| Patterns.OptQuote | src/main.py:26 | an optional quote consumes one backtick or `"` exactly when one is there |
| Patterns.HeadAt | src/main.py:26 | a statement head starts with CREATE in any case; the name is a maximal word run, followed by an opening parenthesis |
| Patterns.CreateAt | src/main.py:26 | the body starts after the opening parenthesis and is non-greedy: it ends at the first `);` after it |
| Patterns.CreateAdvancing | src/main.py:26 | every statement match has a non-empty name, its body starts after the match position, and the closing `);` lies inside the text, so the scan moves forward |
| Patterns.StatementNames | src/main.py:26 | every table name found is a non-empty run of word characters, so no quote survives |
| Patterns.StatementsEmpty | src/main.py:33 | the scan finds nothing exactly when the statement pattern matches at no position |
| Patterns.Scan | src/main.py:33 | `finditer` over the statement pattern: each leftmost match gives its name and body, and the search resumes after its `);`; StatementNames, StatementsEmpty and PatternFacts.StatementRoundTrip state what it finds |
| Patterns.StatementsFrom | src/main.py:33 | the scan from a position with the statement pattern, which CreateAdvancing shows always moves forward |
| Patterns.Statements | src/main.py:33-35 | the `(table, body)` pairs of `CREATE_RE.finditer(sql_text)` in text order; ParseSchema and ParseLookup state what is built from them |
| Patterns.SeparatorAt | src/main.py:37 | a separator is a comma and whitespace, ending at a newline, or, for `,\s*$`, at the end of a text with no further newline |
| Patterns.FirstSeparator | src/main.py:37 | the first separator found starts with a comma followed only by whitespace |
| Patterns.SplitParts | src/main.py:37 | the pieces, interleaved with the separators removed, give back the body |
| Patterns.SplitClauses | src/main.py:37 | splitting always yields at least one piece |
| Patterns.SeparatorCases | src/main.py:37 | the current and legacy separators differ only where the body ends in a comma followed by blanks without a newline |
| Patterns.SplitAgreesWithoutBareComma | src/app/2.py:43 | without such a bare comma at the end, `,\s*\n` and `,\s*\n\|,\s*$` split a body identically |
| Patterns.ListAt | src/main.py:28 | a parenthesised list is a non-empty run without `)`; it fails exactly when there is no `(`, the `(` is closed at once, or no `)` follows |
| Patterns.TablePkAt | src/main.py:28 | a table-level key is PRIMARY, blanks, KEY, optional blanks, then a list |
| Patterns.SearchTablePk | src/main.py:28 | a captured key list is non-empty, holds no `)`, and implies the inline marker too |
| Patterns.TablePkNeedsParen | src/main.py:28 | a table-level key needs a `(` in the clause |
| Patterns.PrimaryKeyNeedsKeyword | src/main.py:29 | the key markers need the word PRIMARY, in any case |
| Patterns.PrimaryKeyAt | src/main.py:29 | the inline marker is PRIMARY, at least one blank, then KEY |
| Patterns.ForeignKeyListAt | src/main.py:30 | a foreign key starts with FOREIGN and captures a list |
| Patterns.ReferencesAt | src/main.py:30 | REFERENCES is followed by a word-run table name and a list, in that order |
| Patterns.FkAt | src/main.py:30 | the three groups are a list, an identifier and a list, in that order |
| Patterns.SearchFk | src/main.py:30 | both captured lists are non-empty and hold no `)`; the referenced table is an identifier |
| Patterns.FkNeedsKeyword | src/main.py:30 | a foreign key needs the word FOREIGN and a `(` |
| Patterns.MatchColumn | src/main.py:27 | the column name is a word run; the type is a maximal run of characters that are neither whitespace nor a comma |
| Parser.IdentifierIsClean | src/main.py:26 | a captured identifier needs no stripping and has no comma |
| Parser.NameList | src/main.py:45 | a list has one more item than its commas; each item is its piece with spaces, backticks and `"` stripped from both ends |
| Text.Strip | src/main.py:37 | `str.strip`: the result is the input without maximal padding of the stripped characters at both ends, and it neither starts nor ends with one |
| Text.SplitOn | src/main.py:45 | `str.split(c)`: at least one piece, no piece holds `c`, and the pieces joined with `c` give back the text |
| Text.JoinWith | src/main.py:126 | `sep.join(xs)`; SplitOnJoin states splitting the joined text gives the pieces back when none holds the separator |
| Parser.Classify | src/main.py:43-63 | a clause is a table-level key if that pattern matches; otherwise a foreign key if that matches; otherwise a column if the column pattern matches |
| Parser.Apply | src/main.py:43-63 | one loop turn of src/main.py on a classified clause; ApplyIsMerge states it appends the clause's contribution and ApplyWellFormed that it keeps the record well formed |
| Parser.ApplyLegacy | src/app/2.py:45-58 | one loop turn of the copies: all three patterns tried, a table-level key replaces the key; LegacyCollectsAll and LegacyLastKeyWins state the result over a whole body |
| Parser.Step | src/app/3.py:44-57 | the loop turn of either variant; StepWellFormed states it keeps the record well formed |
| Parser.AnalyzeClauses | src/main.py:38-63 | the loop over the clauses in order, from empty lists; CurrentIsConcatenation, LegacyCollectsAll, LegacyLastKeyWins and LegacyNoKeyClause state its result |
| Parser.AnalyzeBody | src/main.py:37-65 | the record of one statement body: split, strip, then the loop; ParseLookup states each table maps to it for its last declaration |
| Parser.Clauses | src/main.py:37 | the clauses are the split pieces, each stripped of whitespace |
| Parser.BuildSchema | src/main.py:32-65 | the mapping never holds a name twice |
| Parser.ParseSchema | src/main.py:24-66 | the result is empty exactly when the statement pattern matches nowhere, and no name appears twice |
| Parser.NoCreateNoTables | src/main.py:32-33 | text without the word CREATE, including the empty string, gives the empty mapping |
| Parser.FirstSeenNames | src/main.py:65 | the first-seen order holds each declared name and nothing else |
| Parser.BuildKeys | src/main.py:65 | the keys are the declared names in order of first declaration |
| Parser.NoStatementsNoKeys | src/main.py:32-33 | the mapping is empty exactly when no statement was found |
| Parser.BuildLookup | src/main.py:33-65 | each name maps to the record built from its last declaration's body alone |
| Parser.ParseLookup | src/main.py:24-66 | looking a table up in the result gives the record of its last declaration; the keys are in first-seen order |
| Parser.Redeclaration | src/main.py:65 | redeclaring a table keeps the key order and replaces its record entirely |
| Parser.Contribution | src/main.py:41-63 | a key clause adds only key names, a foreign key clause exactly one foreign key, and a column clause one column, plus its name as key when the clause has the inline marker |
| Parser.ApplyIsMerge | src/main.py:41-63 | one loop turn appends that clause's contribution list by list |
| Parser.CurrentIsConcatenation | src/main.py:41-63 | the record is the concatenation of the clauses' contributions, so key, foreign key and column order is declaration order, and nothing is de-duplicated |
| Parser.LegacyCollectsAll | src/app/2.py:45-58 | in the copies, columns and foreign keys come from every clause the patterns accept, key clauses included |
| Parser.LegacyLastKeyWins | src/app/2.py:46-48 | in the copies, the primary key is the list of the last table-level key clause |
| Parser.LegacyNoKeyClause | src/app/3.py:44-57 | in the copies, without a table-level key clause the key is empty: inline markers are ignored |
| Parser.VariantsAgreeOnPlainClauses | src/app/4.py:51-64 | clauses without key text and without a foreign key are analysed alike by both variants |
| Parser.VariantsAgreeOnPlainBody | src/app/4.py:49-64 | so are whole bodies of such clauses that do not end in a bare comma |
| Parser.ForeignKeyOfWellFormed | src/main.py:51-54 | a foreign key record built from a match has clean lists and an identifier as table |
| Parser.ClassifyWellFormed | src/main.py:43-63 | every classified clause carries clean names |
| Parser.ApplyWellFormed | src/main.py:43-63 | the current loop turn keeps the record well formed |
| Parser.LegacyStepWellFormed | src/app/2.py:46-58 | the legacy loop turn keeps the record well formed |
| Parser.StepWellFormed | src/app/3.py:45-57 | either loop turn keeps the record well formed |
| Parser.AnalyzeWellFormed | src/main.py:41-63 | the record of any body is well formed |
| Parser.ParseWellFormed | src/main.py:24-66 | every table name is an identifier; column names are identifiers; types are non-empty runs without whitespace or comma; list items carry no comma and no surrounding space or quote |
| PatternFacts.LeftmostAt | src/main.py:43 | the leftmost match is at a matching position before which nothing matches |
| PatternFacts.ListAtParts | src/main.py:28 | a `(` followed by a non-empty run without `)` and then a `)` is a list whose group is that run |
| PatternFacts.ReferencesAtParts | src/main.py:30 | blanks, REFERENCES, blanks, an unquoted word run and a list at once after it give the referenced table and list |
| PatternFacts.ColumnAt | src/main.py:27 | a word run, one space and a type run are read as that column name and type |
| PatternFacts.FkRoundTrip | src/main.py:30 | `FOREIGN KEY (<cols>) REFERENCES <table>(<refs>)` gives back exactly its three parts |
| PatternFacts.FkSearchOf | src/main.py:30 | any text laid out as `FOREIGN KEY (<cols>) REFERENCES <table>(<refs>)` gives back exactly those three parts |
| PatternFacts.FkClauseAsColumn | src/app/2.py:55-58 | the column pattern reads that clause as a column `FOREIGN` of type `KEY` |
| PatternFacts.ColumnRoundTrip | src/main.py:27 | `<name> <type><rest>` gives back its name and type when the rest does not continue the type |
| PatternFacts.InlineMarker | src/main.py:29 | any clause ending in ` PRIMARY KEY` carries the inline marker |
| PatternFacts.TablePkRoundTrip | src/main.py:28 | `PRIMARY KEY (<cols>)` gives back its list |
| PatternFacts.SplitJoinRoundTrip | src/main.py:37 | pieces joined with a comma and a newline split back into the same pieces, under either separator pattern |
| PatternFacts.SingleClause | src/main.py:37 | a body without a comma is one clause |
| PatternFacts.CreateNeedsC | src/main.py:26 | a statement starts with the letter C |
| PatternFacts.StatementRoundTrip | src/main.py:26 | a lone `CREATE TABLE <name> (<body>);` surrounded by text without the letter C is found, and its name and body come back unchanged |
| ParserExamples.NoPrimaryClause | src/main.py:28-29 | a clause without the letter P has no key of either kind |
| ParserExamples.NoForeignClause | src/main.py:30 | a clause without the letter F, or without `(`, has no foreign key |
| ParserExamples.InlineKeyColumn | src/main.py:58-63 | `<name> <type> PRIMARY KEY` adds the column and the key name in the current parser, and only the column in the copies |
| ParserExamples.PlainColumn | src/main.py:58-61 | a plain column clause adds exactly that column under both variants |
| ParserExamples.UniqueClause | src/main.py:58-61 | `UNIQUE (<cols>)` becomes a column `UNIQUE` whose type is the parenthesised list |
| ParserExamples.KeyClause | src/main.py:43-46 | `PRIMARY KEY (<col>)` extends the key and does nothing else in the current parser; in the copies it replaces the key and adds a column `PRIMARY` of type `KEY` |
| ParserExamples.SingleName | src/main.py:45 | a list naming one unpadded column without commas is that column |
| ParserExamples.ForeignKeyLine | src/main.py:49-55 | a foreign key clause adds exactly one foreign key and, in the copies, also a column `FOREIGN` |
| ParserExamples.SingleTableSchema | src/main.py:33-65 | a text with one statement parses to one table whose record is built from the body's trimmed lines |
| ParserExamples.UsersAnalysis | tests/test_parsing.py:5-15 | the users body gives two columns, `id` first; the key is `["id"]` in the current parser and empty in the copies |
| ParserExamples.UsersSchema | tests/test_parsing.py:4-15 | the first test's text parses to the single table `users` with that record |
| ParserExamples.OrdersAnalysis | tests/test_parsing.py:18-31 | the orders body gives one foreign key `(user_id) → users(id)` and the inline key `order_id`; the copies add a column `FOREIGN` and no key |
| ParserExamples.OrdersSchema | tests/test_parsing.py:17-31 | the second test's text parses to the single table `orders` with that record |
| ParserExamples.NoLetterCNoSchema | src/main.py:32-33 | text without the letter C declares no table |
| ParserExamples.EmptySchema | tests/test_parsing.py:33-34 | the empty text gives the empty mapping |
| Markdown.PkText | src/main.py:126 | an empty key is shown as `-` |
| Markdown.TitleLine | src/main.py:122 | the report opens with one first-level heading line without a line break; the copies use the shorter title of src/app/2.py:63 |
| Markdown.RowLine | src/main.py:131 | `\| name \| type \|` for one column; SectionRows states these rows follow the head lines in column order |
| Markdown.FkLine | src/main.py:136 | `- (cols) → table(refs)` for one foreign key; FkMarkerIffKeys states when the block of these lines appears |
| Markdown.Section | src/main.py:125-137 | the fragments one table appends; SectionAsLines states it is SectionLines, each line followed by a line break |
| Markdown.Render | src/main.py:122-141 | `"".join(md)`; RenderAsLines, RenderedLines and ReportHeadings state its lines and its headings |
| Markdown.SectionLines | src/main.py:125-137 | a section has six lines around its rows, one row per column, and two lines plus one line per foreign key when there are any |
| Markdown.UnlinesIsJoin | src/main.py:141 | line-terminated lines are the lines joined with newlines, plus a final empty line |
| Markdown.LinesRoundTrip | src/main.py:141 | splitting line-terminated lines at newlines gives the lines back, then one empty piece |
| Markdown.SectionAsLines | src/main.py:125-137 | each table section is its lines, each followed by a newline |
| Markdown.RenderAsLines | src/main.py:122-141 | the whole report is its title and section lines, each followed by a newline |
| Markdown.RenderedLines | src/main.py:122-141 | when no table name, column name, column type, key item, foreign-key column, referenced table or referenced column holds a line break, splitting the report at line breaks gives exactly its lines |
| Markdown.SectionHeadings | src/main.py:125 | each section contributes exactly one second-level heading: its table name |
| Markdown.DocumentHeadings | src/main.py:122-125 | the report's second-level headings are the table names in insertion order |
| Markdown.ReportHeadings | src/app/2.py:62-77 | under the same no-line-break condition, the `## ` lines read back from the written text name the tables in order |
| Markdown.KeyReadBack | src/main.py:126-127 | the key line gives back the key list, unless the key is a single column named `-` |
| Markdown.KeyDash | src/app/3.py:65 | the key line shows `-` exactly for no key, or for a key whose only column is named `-` |
| Markdown.SectionRows | src/app/2.py:68-70 | after the five head lines come the columns, one row each, in order |
| Markdown.FkMarkerIffKeys | src/app/3.py:70-73 | the `**FK**:` line appears in a section exactly when the table has a foreign key |
| Chunks.PartCount | src/main.py:147-148 | the chunk count is the least count whose chunks cover the text; it is zero exactly for the empty text |
| Chunks.ChunkAt | src/main.py:154-156 | a chunk is non-empty and at most `C` long; every chunk but the last is exactly `C` long |
| Chunks.Partition | src/main.py:147-156 | the loop yields the chunk count of chunks, each non-empty and at most `C` long, all but the last full; concatenated they are the text |
| Chunks.PartCountUnique | src/main.py:148 | no other count covers the text without leaving an empty chunk |
| Chunks.Read | src/app/2.py:153 | `f_in.read(size)` at a position: the next `min(size, remaining)` characters, or all the rest for a negative size |
| Chunks.Reads | src/app/2.py:152-178 | the buffers of the read loop, each non-empty; ReadsCount and ReadsArePartition state they are the chunks of src/main.py |
| Chunks.ReadsDegenerate | src/app/2.py:153-154 | a zero size reads nothing; a negative size reads the whole text as one buffer |
| Chunks.ReadsCount | src/app/2.py:152-178 | a positive size gives as many buffers as `src/main.py` has chunks |
| Chunks.ReadsArePartition | src/app/2.py:152-178 | the buffers read are exactly the chunks `src/main.py` slices |
| Chunks.Format03 | src/app/2.py:169 | `{idx:03d}` is the decimal digits of `idx`, zero-padded to three; it is three long exactly below 1000, and from 1000 on it is the plain digits with no leading zero |
| Chunks.ChunkFileName | src/app/2.py:169 | `api_chunk_{idx:03d}.txt`; NameRoundTrip and NameInverse state how the listing scan reads it back |
| Chunks.LeadingZeros | src/app/2.py:118 | leading zeros do not change `int` of a digit string |
| Chunks.DecimalInjective | src/app/2.py:116-118 | equal-length digit strings with the same value are equal |
| Chunks.ParseChunkName | src/app/2.py:116-118 | a recognised index is below 1000 |
| Chunks.NameRoundTrip | src/app/2.py:116-118 | the name written for chunk `idx` is recognised as `idx` exactly when `idx < 1000` |
| Chunks.NameInverse | src/app/3.py:114-116 | a recognised name is the name written for its index, possibly with a final newline |
| Chunks.DetectCompleted | src/app/3.py:109-117 | every detected index is below 1000 |
| Chunks.DetectedIffWritten | src/app/2.py:110-119 | an index counts as done exactly when it is below 1000 and its file is in the listing |
| Chunks.HighChunkResent | src/app/2.py:148-162 | a resumed run sends every chunk from index 1000 on, with its text, whatever the directory listing holds, because the listing scan never reports it done |
| Chunks.ExistingNeverSent | src/app/4.py:196-199 | a run that checks existing answer files sends no job whose file `api_chunk_<idx>.txt` is already in the directory |
| Chunks.HighChunkFoundOnlyByExistence | src/app/4.py:163-197 | from index 1000 on, the resumed run of src/app/2.py sends the chunk again, while a run of src/app/4.py sends no job with that index once its answer file exists |
| Chunks.Pending | src/app/2.py:154-162 | the jobs the read loop sends from a list of buffers; PendingMembership and PendingIncreasing state which and in what order |
| Chunks.PendingMembership | src/app/2.py:154-162 | a job is sent exactly when its index lies in the run and is not skipped, and the job carries that buffer |
| Chunks.PendingIncreasing | src/app/3.py:138-145 | jobs go out in strictly increasing index order from the first index |
| Chunks.SendLoop | src/app/3.py:136-158 | the read loop sends the pending jobs of the buffers after the start offset |
| Chunks.ResumeRun | src/app/2.py:148-178 | the run numbers buffers from 1 and, when resuming, skips exactly the completed indices |
| Chunks.Drop | src/app/4.py:148-151 | the buffers after the first `k`, in order |
| Chunks.SkipChunks | src/app/4.py:148-151 | `count` discarded reads leave exactly the buffers after the first `count` |
| Chunks.ResumeFrom | src/app/4.py:187-215 | the run skips the buffers before the start index, numbers the rest from it, and passes over indices whose answer file exists |
| Chunks.Schedule | src/app/4.py:187-201 | job `i` is sent exactly when the start ≤ `i` ≤ chunk count, `i` is not skipped, and the job carries chunk `i`, which begins at offset `(i-1)·C` |
| Chunks.IndexAfter | src/app/4.py:138-141 | a recognised remote name starts with the prefix; IndexAfterIff gives its exact shape |
| Chunks.IndexAfterIff | src/app/4.py:139-141 | a name is recognised with value `n` exactly when it is the prefix, a non-empty digit run of value `n` and `.txt`, possibly followed by a line break (the `$` of `re.match`) |
| Chunks.RemoteName | src/app/4.py:137 | `(f.filename or "").lower().strip()`; RemoteNameRoundTrip states what a prefixed name gives back |
| Chunks.RemoteIndex | src/app/4.py:137-141 | the index a remote file name carries, if any; HighestRemote takes the largest over all names, and RemoteIndexIff says which names carry which index |
| Chunks.RemoteIndexIff | src/app/4.py:137-141 | a remote file carries index `n` exactly when its lower-cased, stripped name is the prefix, digits of value `n` and `.txt`, possibly with a line break |
| Chunks.RemoteNameRoundTrip | src/app/4.py:136-141 | a remote name of prefix, digits and `.txt` or `.TXT` gives back the digits' value |
| Chunks.Largest | src/app/4.py:135-144 | the result is -1 exactly when no value is present, and otherwise a present value bounding all others |
| Chunks.HighestRemote | src/app/4.py:135-144 | -1 exactly when no name carries an index; otherwise the largest index carried |
| Chunks.MaxLocal | src/app/4.py:163-164 | 0 when no chunk is done; otherwise the largest completed index |
| Chunks.StartIndex | src/app/4.py:166-173 | as written, the start is at least 1, above the last local chunk, and above `hr + 1` when a remote maximum `hr` exists |
| Chunks.StartIndexIntended | src/app/4.py:169 | the start the comment describes is the least index above the last local chunk and above the remote maximum |
| Chunks.StartIndexSkipsOne | src/app/4.py:166-173 | with the remote ahead, the computed start is `hr + 2` where `hr + 1` was meant |
| Chunks.ChunkAfterRemoteNeverSent | src/app/4.py:166-194 | as written, the run never sends chunk `hr + 1` |
| Chunks.ChunkAfterRemoteSentIntended | src/app/4.py:169-194 | from the intended start, chunk `hr + 1` is sent with its text |
| FileType.Classify | src/detectar_extension.py:23-32 | the label is never the binary one; it is the SQL label exactly when the lowered header contains an SQL marker |
| FileType.GuessFile | src/detectar_extension.py:16-32 | the decoded first 2048 bytes are classified; the binary label is unreachable |
| FileType.HeaderOnlyAppend | src/detectar_extension.py:17 | bytes past the first 2048 never change the guess |
| FileType.SqlRule | src/detectar_extension.py:24 | the SQL test passes exactly when one of the three markers occurs |
| FileType.ClassifyIsFirstMatch | src/detectar_extension.py:24-32 | the checks are a first match over the rules SQL, ZIP, PDF, JSON, with plain text as fallback |
| FileType.SqlAnywhere | src/detectar_extension.py:23-25 | an SQL marker anywhere, in any case, makes the header an SQL dump whatever it starts with |
| FileType.ZipAnyCase | src/detectar_extension.py:26-27 | without an SQL marker, a header starting `PK` or `pk` followed by the ZIP signature bytes is a ZIP archive |
| FileType.PdfAnyCase | src/detectar_extension.py:28-29 | without an SQL marker, `%PDF` or `%pdf` in front marks a PDF |
| FileType.JsonFirstCharacter | src/detectar_extension.py:30-31 | JSON is guessed exactly when there is no SQL marker and the very first character is `{` or `[`; leading blanks are not skipped |

## Left out

- Calls to the language models: Ollama, the OpenAI responses API, retries, back-off sleeps, and the OpenAI Files listing. These are network and clock. Only what the scripts compute from the answers is modelled.
- Chunks.Pending, Chunks.PendingMembership, Chunks.SendLoop, Chunks.ResumeRun, Chunks.ResumeFrom, Chunks.Schedule, Chunks.HighChunkResent, Chunks.HighChunkFoundOnlyByExistence, Chunks.ChunkAfterRemoteSentIntended: these describe a run in which every model call returns. In `src/app/2.py`, `src/app/3.py` and `src/app/4.py`, `call_openai_chunk_text` re-raises once its last retry fails (2.py:103-104, 3.py:102-103, 4.py:109-110). The calls at 2.py:166, 3.py:149 and 4.py:205 are not inside a `try`, so a failing call ends the whole run. By then a prefix of `Pending` has been sent, the failing chunk has no answer file, and the next resumed run starts again from the directory listing. `src/main.py` is different: it catches the failure per chunk and records an `ERROR` entry (main.py:158-163). The model has no failing call, so this early exit is not stated.
- File I/O is not modelled. Directory listings, file contents and the set of existing answer files become parameters. Also left out:
  - `argparse`;
  - `os.makedirs`;
  - prints;
  - the index log, whose lines are the sequence of jobs;
  - the final step that combines the answer files in sorted order, which only reads files back.
- Decoding is not modelled. The dump is modelled as the text `open(..., "r", errors="ignore")` yields after UTF-8 decoding and newline translation. `guess_type` receives the decoder as a function parameter, and `python-magic` is left out. Decoding with `errors="ignore"` cannot raise, so the binary label is unreachable, as `FileType.Classify` states.
- `\w`, `\d`, `re.I` and `str.lower()` are modelled on ASCII only. Python applies them to all of Unicode, where `lower()` can even change a string's length. `\s` is modelled exactly as `str.isspace`.
- `math.ceil(total_chars / CHUNK_CHARS)` is modelled as an exact integer ceiling. The float division can round only for texts longer than 2^53 characters.
- The remote maximum is modelled over the file names alone. The exception path of `highest_remote_chunk_index` (any failure gives -1) is left out, because it depends on the network.
- In `src/app/4.py` the existence check before each chunk is modelled on the directory contents at the start of the run. Because answer-file names are distinct per index, a run never finds its own output, so this is exact for a single run. A concurrent writer, which the source comments mention, is left out.
- Chunk answer files for index 1000 and above are written as `api_chunk_1000.txt`, but `\d{3}` does not recognise them, as `Chunks.NameRoundTrip` states. In `src/app/2.py` and `src/app/3.py` a resumed run therefore re-sends those chunks. `src/app/4.py` checks each answer file by its exact name before sending, so it passes over them; only its `max_local` ignores them, as `Chunks.HighChunkFoundOnlyByExistence` states.
- The parser can store a name holding a line break. For example, in the clause `PRIMARY KEY (a\n, b)` no newline follows the comma, so the split keeps it one clause, and stripping spaces and quotes leaves the item `a` followed by a line break. The report of such a schema has lines that `Markdown.RenderedLines` and `Markdown.ReportHeadings` do not describe; both require that no stored string hold a line break.
- `Markdown.KeyReadBack`: a key whose only column is named `-` renders as no key, so the read-back excludes that one input. `Markdown.KeyDash` states the ambiguity.
- The first test in `tests/test_parsing.py` asserts the primary key `["id"]`. That holds for `src/main.py` only; the legacy copies give an empty key for the same text, as `ParserExamples.UsersAnalysis` states.

## Findings

| source | as written | input that shows it | evidently intended | confidence | as-written member | corrected member |
|---|---|---|---|---|---|---|
| src/app/4.py:169-171 | `max_remote = hr + 1` and then `start_index = max(max_local + 1, max_remote + 1)`, so the start is `hr + 2` | remote maximum `hr = 26` and no local files: the run starts at chunk 28, and chunk 27 is never sent | the comment on line 169 says a remote maximum of 26 resumes from 27, so the start should be `max(max_local, hr) + 1` | medium (not executed) | Chunks.ChunkAfterRemoteNeverSent | Chunks.ChunkAfterRemoteSentIntended |
