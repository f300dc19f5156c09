# HttpReport report-assembly pipeline, in Dafny

This project models the HTTP-triggered report function `HttpReport/__init__.py`.
The function receives a multipart upload of a scored workbook, a Word template and
optional cover and narrative PDFs. It then:

- reads the category scores and the overall score from the "Summary Dashboard" worksheet;
- builds the scorecard table;
- writes the scores into the template's first table;
- merges cover, scorecard and narrative into one PDF;
- uploads that PDF and the filled template under timestamped names;
- answers with two signed links.

Every library it calls (pandas, python-docx, reportlab, pypdf, the Azure Blob SDK)
is a function-valued input. The model covers the decision logic between those
calls, and proves what that logic guarantees.

Modules, in dependency order:

- `Wrappers`: `Option` and `Result`. `Values`: bytes and an abstract `Float`
  (finite, NaN, infinite).
- `Text`: the Python string operations the code uses.
  - `strip()` over the characters `str.isspace` accepts, and `strip('"')`.
  - `lower()`, `startswith`, the `in` substring test, `split(";")` and `split("=", 1)[1]`.
  - Facts about them: strip idempotence, the split/join round trip, the substring witness.
- `PyDict`: a Python `dict` as an insertion-ordered association list.
  - Assigning to a present key keeps its position; a new key is appended.
  - `dict(items)` is proved equal to "the value of the last item with that key".
- `Multipart`: `_parse_multipart`.
  - The Content-Type gate.
  - The `;`-token scan of each part's Content-Disposition (`ScanDisposition`, a loop).
  - The field map built part by part (`CollectParts`, a loop).
- `ScoreTable`: `_read_scores_from_excel`.
  - The `cols_map` header lookup with the positional fallback.
  - The row loop (`ReadScores`), proved against the reference `Extract`.
- `Scorecard`: the `data` rows of `_build_scorecard_pdf`, built by appends
  (`BuildScorecardData`), and a reader that recovers scores from the table.
- `TemplateFill`: `_fill_word_scores`.
  - The `norm` comprehension.
  - The row loop that overwrites cell 1 in place on an `array` of rows (`FillFirstTable`).
- `PdfMerge`: `_merge_pdfs`, a `PdfWriter` class whose page sequence grows with `AddPage`.
- `ArtifactNames`: the `%Y%m%d-%H%M%S` timestamp, its parser and round trip, and
  the two artifact names.
- `Pipeline`: `main` and `_upload_with_sas`.
  - `Run` is the reference outcome: the response plus the blobs written, in order.
  - `HandleRequest` chains the component methods and updates a `BlobContainer`
    object; it is proved equal to `Run`.

Facts about the code that a reader could easily get wrong, each proved in the model:

- **Category case.** Categories keep their case. The code only strips them
  (`__init__.py:51`), so they are not lower-cased.
- **Blank score cells.** A blank score cell is not always dropped. `float(nan)` raises
  nothing, so a loader that reads a blank cell as NaN keeps that row with score NaN
  (`ScoreTable.BlankScoreKeptAsNaN`).
- **"Last seen wins" does not hold for categories that differ only in case.**
  Categories are already stripped (`__init__.py:51`), so case is the only thing
  the `norm` comprehension can still merge. The template lookup does not then
  take the score of the row read last.
  - `dict(zip(cats, scores))` keeps the first position of an exact repeat.
  - The `norm` comprehension then lets the later dict entry win.
  - So with rows `a, b, a` where `a` and `b` normalise alike, the template gets
    `b`'s score (`TemplateFill.NormalizeCaseVariants`).
- **The Content-Type test is case-sensitive**
  (`Multipart.ContentTypeCaseSensitive`).
- **A single worksheet column** that is not the score column fails with
  `list index out of range` before the category column is checked
  (`ScoreTable.SingleColumnIndexError`).

## Model

| member | source | states |
|---|---|---|
| Text.Strip | HttpReport/__init__.py:27 | defines `s.strip()` as cutting the characters `str.isspace` accepts from both ends |
| Text.StripQuotes | HttpReport/__init__.py:29-31 | defines `strip('"')` as cutting double quotes from both ends |
| Text.StartsWith | HttpReport/__init__.py:28-30 | defines `startswith(prefix)`: the prefix fits and the first characters equal it |
| Text.Contains | HttpReport/__init__.py:19 | defines the `in` substring test as a case-sensitive scan from the left |
| Text.DropLeadingSpec | HttpReport/__init__.py:27 | what `lstrip` of a character set keeps is a suffix of the input, does not start with a stripped character, and everything cut off is in the set |
| Text.DropTrailingSpec | HttpReport/__init__.py:27 | the mirror image for the trailing end: a prefix of the input, whatever is cut off is in the set, and the kept text does not end in one |
| Text.StripCharsSlice | HttpReport/__init__.py:27 | `strip(chars)` returns a contiguous slice with no stripped character at either end, and everything cut from either side belongs to the set |
| Text.StripCharsIdempotent | HttpReport/__init__.py:27-31 | stripping a stripped string changes nothing |
| Text.StripTrimmed | HttpReport/__init__.py:51 | `strip()` leaves no whitespace at either end and is idempotent |
| Text.StripQuotesUnquoted | HttpReport/__init__.py:29 | after `strip('"')` the value neither starts nor ends with a quote |
| Text.Lower | HttpReport/__init__.py:40 | `lower()` keeps the length |
| Text.ContainsIff | HttpReport/__init__.py:19 | the `in` substring test holds exactly when the substring occurs at some position |
| Text.ContainsWitness | HttpReport/__init__.py:19 | a successful substring test yields a position where the substring occurs |
| Text.OccursContains | HttpReport/__init__.py:19 | an occurrence at any position makes the substring test succeed |
| Text.ContainsTooShort | HttpReport/__init__.py:55 | a string shorter than the pattern never contains it |
| Text.Split | HttpReport/__init__.py:26 | `split(sep)` yields at least one piece and no piece contains the separator |
| Text.JoinSplit | HttpReport/__init__.py:26 | joining the pieces of `split(sep)` with the separator gives back the string |
| Text.SplitAfterPiece | HttpReport/__init__.py:26 | a separator-free piece followed by the separator splits off as the first piece |
| Text.SplitPiece | HttpReport/__init__.py:26 | a separator-free string splits into itself |
| Text.SplitJoin | HttpReport/__init__.py:26 | splitting the join of separator-free pieces gives the pieces back |
| Text.FirstIndex | HttpReport/__init__.py:29 | the index found holds the character and none occurs before it |
| Text.AfterFirstPrefix | HttpReport/__init__.py:28-31 | for a token starting with `name=` or `filename=`, `split("=", 1)[1]` is exactly the text after the key |
| PyDict.Keys | HttpReport/__init__.py:33 | one key per entry |
| PyDict.Get | HttpReport/__init__.py:145-148 | `d.get(k)` finds a value exactly when `k` is a key, and the pair is in the dict |
| PyDict.Put | HttpReport/__init__.py:33 | after `d[k] = v`, `k` maps to `v`, every other key is unchanged, and the key order is kept or `k` is appended |
| PyDict.GetCons | HttpReport/__init__.py:33 | the lookup in a dict with one more leading entry finds that entry's key first and otherwise looks in the rest; the keys gain that key in front |
| PyDict.PutKeepsUnique | HttpReport/__init__.py:33 | assignment never creates a repeated key |
| PyDict.FromItemsGet | HttpReport/__init__.py:155 | in `dict(items)` each key has the value of its last item |
| PyDict.FromItemsUnique | HttpReport/__init__.py:155 | `dict(items)` has distinct keys |
| PyDict.LastValueAt | HttpReport/__init__.py:155 | the reference lookup returns the value at the last index carrying the key |
| PyDict.LastValueNone | HttpReport/__init__.py:155 | the reference lookup finds nothing exactly when no item carries the key |
| PyDict.Zip | HttpReport/__init__.py:71 | `zip` pairs elements index by index up to the shorter length |
| PyDict.DictZipGet | HttpReport/__init__.py:155 | `score_map = dict(zip(cats, scores))` keeps the score paired with the last occurrence of a category |
| PyDict.DictZipMissing | HttpReport/__init__.py:155 | a category is absent from `score_map` exactly when it is not among the paired categories |
| Multipart.AcceptsContentType | HttpReport/__init__.py:18-20 | defines the gate: a present, non-empty header in which `multipart/form-data` occurs, compared case-sensitively |
| Multipart.IsKey | HttpReport/__init__.py:28-31 | defines a parameter key (`name=`, `filename=`): text ending in its only `=` |
| Multipart.ParamValue | HttpReport/__init__.py:29-31 | defines the value of a matching token as `token.split("=", 1)[1].strip('"')` |
| Multipart.LastParam | HttpReport/__init__.py:26-31 | reference for the token loop: the value of the last stripped `;`-token starting with the key, or None |
| Multipart.PartName | HttpReport/__init__.py:25-32 | defines the name a part is filed under: its scanned `name=` value when non-empty (`if name:`), else none |
| Multipart.PartEntry | HttpReport/__init__.py:33 | defines the stored item: the scanned `filename=` value, which may be None, and the part's content |
| Multipart.NamedItems | HttpReport/__init__.py:23-33 | defines the assignments `files[name] = ...` made, one per named part, in part order |
| Multipart.FieldMap | HttpReport/__init__.py:22-34 | reference for the field map: the dict those assignments build |
| Multipart.ParseRequest | HttpReport/__init__.py:17-34 | reference outcome of `_parse_multipart`: the Content-Type error, the decoder's error, or the field map |
| Multipart.FieldMapStep | HttpReport/__init__.py:32-33 | one more part assigns its scanned filename and content under its name when that name is non-empty, and otherwise leaves the map as it was |
| Multipart.ScanDisposition | HttpReport/__init__.py:24-31 | the token loop leaves in `name` and `filename` the value of the last stripped token starting with `name=` and with `filename=` |
| Multipart.LastParamStep | HttpReport/__init__.py:26-31 | scanning one more token replaces the value exactly when the stripped token starts with the key, and keeps it otherwise |
| Multipart.CollectParts | HttpReport/__init__.py:22-34 | the part loop builds the field map: the items of the named parts inserted in order |
| Multipart.ParseMultipart | HttpReport/__init__.py:17-34 | `_parse_multipart` equals the reference outcome: the Content-Type error, the decoder's error, or the field map |
| Multipart.LastParamAt | HttpReport/__init__.py:26-31 | the scan result is the value of the last matching token |
| Multipart.LastParamNone | HttpReport/__init__.py:26-31 | the scan result is None exactly when no token matches |
| Multipart.LastParamUnquoted | HttpReport/__init__.py:29-31 | a scanned value neither starts nor ends with `"` |
| Multipart.FilenameNeverName | HttpReport/__init__.py:28-31 | a `filename=` token never sets the name |
| Multipart.ScanExample | HttpReport/__init__.py:24-31 | on `form-data; name="w1"; filename="w2"` the scan yields `w1` and `w2` unquoted |
| Multipart.ExamplePieces | HttpReport/__init__.py:26-31 | on the three example tokens, the `name=` scan gives `w1` and the `filename=` scan gives `w2` |
| Multipart.ExampleNamePiece | HttpReport/__init__.py:28-29 | on the example tokens, the `filename=` token does not reset the name: the `name=` scan gives `w1` |
| Multipart.ExampleSplit | HttpReport/__init__.py:26 | the example disposition splits on `;` into its three tokens |
| Multipart.ExampleValue | HttpReport/__init__.py:29-31 | the value of `key"w"` is `w` |
| Multipart.StripOneSpace | HttpReport/__init__.py:27 | `strip()` removes the blank after a `;` |
| Multipart.UnquoteWord | HttpReport/__init__.py:29 | `strip('"')` removes the surrounding quotes of a quoted word |
| Multipart.NamedItemsKeys | HttpReport/__init__.py:32-33 | a field key is produced exactly when some part's scanned name is it |
| Multipart.NamedItemsLast | HttpReport/__init__.py:32-33 | the last part with a name is the last item for that key |
| Multipart.FieldMapGet | HttpReport/__init__.py:32-33 | a repeated field name keeps the last part's filename and content |
| Multipart.FieldMapMissing | HttpReport/__init__.py:32-33 | a field is absent exactly when no part is named after it |
| Multipart.FieldMapNoEmptyName | HttpReport/__init__.py:32 | no part is filed under the empty name |
| Multipart.ContentTypeGate | HttpReport/__init__.py:18-20 | the gate accepts exactly a present header in which `multipart/form-data` occurs, and refuses a missing one |
| Multipart.ContentTypeCaseSensitive | HttpReport/__init__.py:19 | `Multipart/Form-Data` is refused; `multipart/form-data; boundary=x` is accepted |
| ScoreTable.HeaderKey | HttpReport/__init__.py:40 | defines a header's `cols_map` key: a string header stripped and lower-cased; other headers get none |
| ScoreTable.HeaderItems | HttpReport/__init__.py:40 | defines the comprehension's items: one per string header, in column order |
| ScoreTable.ColumnsMap | HttpReport/__init__.py:40 | defines `cols_map` as the dict of those items |
| ScoreTable.ResolveColumns | HttpReport/__init__.py:41-44 | defines the column lookup: the score column (falling back to column 1) is resolved before the category column is checked |
| ScoreTable.RowName | HttpReport/__init__.py:51 | defines `str(r[cat_col]).strip()` |
| ScoreTable.RowScore | HttpReport/__init__.py:46-48 | defines `to_num(r.get(avg_col))` through the cell reader |
| ScoreTable.Step | HttpReport/__init__.py:53-60 | defines one loop iteration: a category row appends its name and score, an overall row replaces `overall`, any other row changes nothing |
| ScoreTable.Extract | HttpReport/__init__.py:49-61 | reference for the row loop: the iterations applied in worksheet order from empty lists and no overall |
| ScoreTable.ScoresOf | HttpReport/__init__.py:40-61 | reference outcome of `_read_scores_from_excel` on a loaded sheet: the column error, or the extraction |
| ScoreTable.HeaderItemsLookup | HttpReport/__init__.py:40 | `cols_map` maps a key to the last string header normalising to it, and lacks keys no header normalises to |
| ScoreTable.ResolveColumnsSpec | HttpReport/__init__.py:40-44 | the category column is the last header normalising to `category`; the score column is the last normalising to `average score`, else column 1; success needs a category header and a score header or two columns; a missing score header with fewer than two columns gives `list index out of range` first, else the missing category message |
| ScoreTable.SingleColumnIndexError | HttpReport/__init__.py:42-44 | a lone column that is not the score column fails with `list index out of range`, even when it is the category column |
| ScoreTable.ReadScores | HttpReport/__init__.py:40-61 | the row loop returns the column error or the reference extraction |
| ScoreTable.ExtractSnoc | HttpReport/__init__.py:45-61 | appending a row to the sheet applies exactly one loop step to the result |
| ScoreTable.StepCategory | HttpReport/__init__.py:58-60 | a row appends its name to `cats` and its score to `scores` exactly when it is a category row, and otherwise leaves both lists as they were |
| ScoreTable.ExtractShape | HttpReport/__init__.py:49-60 | `cats` and `scores` have equal length; every category is non-empty, trimmed and free of `overall` |
| ScoreTable.CategoryRowsSpec | HttpReport/__init__.py:50-60 | the contributing row positions are increasing and are exactly the rows with a present, non-empty, non-overall name and a parsed score |
| ScoreTable.ExtractFromRows | HttpReport/__init__.py:50-60 | entry j of `cats` and `scores` comes from the j-th contributing row, in worksheet order |
| ScoreTable.ExtractOverallAt | HttpReport/__init__.py:55-57 | `overall` is the parsed score of the last overall row whose score parses |
| ScoreTable.ExtractOverallNone | HttpReport/__init__.py:49-57 | `overall` is None exactly when no overall row has a parsed score |
| ScoreTable.StepOverall | HttpReport/__init__.py:55-57 | a row sets `overall` to its score exactly when it is an overall row with a parsed score; any other row leaves it as it was |
| ScoreTable.UnparsedRowDropped | HttpReport/__init__.py:46-48 | a row whose score does not parse changes nothing |
| ScoreTable.ReadNeverFailsOnRows | HttpReport/__init__.py:45-61 | once the columns resolve, the rows cannot make the read fail |
| ScoreTable.BlankScoreKeptAsNaN | HttpReport/__init__.py:46-48 | when the loader reads a blank cell as NaN, a named, non-overall row whose score cell is blank is appended with score NaN |
| ScoreTable.ExtractTwoCategories | HttpReport/__init__.py:58-60 | two category rows give both categories in sheet order, their scores, and no overall |
| ScoreTable.LabelledRow | HttpReport/__init__.py:51-52 | a row of a trimmed non-empty text name and a number has that name, that score, and is kept |
| ScoreTable.ExtractExample | HttpReport/__init__.py:49-61 | two category rows then an overall row give the two categories in order and the overall score |
| Scorecard.ScorecardTable | HttpReport/__init__.py:70-73 | reference for `data`: the header row, one row per zipped pair with the rounded score, then the overall row |
| Scorecard.BuildScorecardData | HttpReport/__init__.py:70-73 | the appends build the header, one row per zipped pair, then the overall row |
| Scorecard.ScorecardShape | HttpReport/__init__.py:70-73 | the table has the pair count plus two rows, each of two cells; the header comes first and "Overall Average" last |
| Scorecard.ScorecardReadBack | HttpReport/__init__.py:70-73 | reading the table back gives the paired categories, their scores rounded to two places, and the rounded overall score or None |
| Scorecard.OverallLabelIsOverall | HttpReport/__init__.py:73 | the closing label mentions `overall` |
| Scorecard.OverallRowUnique | HttpReport/__init__.py:70-73 | for extracted categories, the last row is the only one whose label mentions `overall` |
| TemplateFill.Normalize | HttpReport/__init__.py:94 | defines `norm` as the dict of the normalised `score_map` items |
| TemplateFill.RowFails | HttpReport/__init__.py:96-98 | defines a row on which the loop body raises `IndexError`: no first cell, or a matching key and no second cell |
| TemplateFill.FillRow | HttpReport/__init__.py:96-98 | defines the loop body on a row that does not raise: cell 1 becomes the formatted score when the key is in `norm` |
| TemplateFill.FillTable | HttpReport/__init__.py:95-98 | reference for the loop on a whole table: `tuple index out of range` if some body row raises, else every body row filled |
| TemplateFill.FillDocument | HttpReport/__init__.py:91-98 | reference for `_fill_word_scores` on the tables: the no-table error, the loop's error, or the tables with the first one filled |
| TemplateFill.NormItems | HttpReport/__init__.py:94 | one normalised item per `score_map` entry |
| TemplateFill.FirstFailing | HttpReport/__init__.py:95-98 | the first raising row is at or after the start, or there is none |
| TemplateFill.FirstFailingSpec | HttpReport/__init__.py:95-98 | no row before the first raising row raises, and that row does |
| TemplateFill.FillUpTo | HttpReport/__init__.py:95-98 | the partly filled table has the original row count |
| TemplateFill.FillUpToStep | HttpReport/__init__.py:95-98 | handling one more body row that does not raise changes that row alone, to its filled form |
| TemplateFill.FillFirstTable | HttpReport/__init__.py:95-98 | in place: body rows before the first row that raises are filled, the rest untouched, and `tuple index out of range` is reported exactly when such a row exists |
| TemplateFill.FillWordScores | HttpReport/__init__.py:91-98 | `_fill_word_scores` on the loaded tables equals the reference result |
| TemplateFill.FillTableCells | HttpReport/__init__.py:95-98 | the row count, the header row and every cell other than cell 1 stay; cell 1 of a body row becomes the formatted score exactly when its key is in `norm`; other rows stay as they were |
| TemplateFill.FillTableFails | HttpReport/__init__.py:95-98 | filling fails, with `tuple index out of range`, exactly when a body row has no first cell, or matches and has no second |
| TemplateFill.FillTableIdempotent | HttpReport/__init__.py:95-98 | filling a filled table gives the same table |
| TemplateFill.FillDocumentTables | HttpReport/__init__.py:91-93 | no tables raises the template error; only the first table changes; success depends on the first table alone |
| TemplateFill.NormalizeGet | HttpReport/__init__.py:94 | a normalised key takes the value of the last `score_map` entry normalising to it |
| TemplateFill.NormalizeMissing | HttpReport/__init__.py:94 | a key is absent from `norm` exactly when no entry normalises to it |
| TemplateFill.NormalizeCaseVariants | HttpReport/__init__.py:94 | with categories `a, b, a` that normalise alike, `score_map` is `{a: z, b: y}` and `norm` gives `y` |
| PdfMerge.PdfWriter.AddPage | HttpReport/__init__.py:110 | `writer.add_page(p)` appends `p` to the writer's pages |
| PdfMerge.Merged | HttpReport/__init__.py:108-115 | reference for the merge: the cover's pages if given, the scorecard's, the narrative's if given, stopping at the first parse error |
| PdfMerge.MergedBytes | HttpReport/__init__.py:116-118 | reference result of `_merge_pdfs`: the writer's bytes for the merged pages, or the parse error |
| PdfMerge.AddPages | HttpReport/__init__.py:110-115 | each loop appends the reader's pages to the writer in order |
| PdfMerge.MergePdfs | HttpReport/__init__.py:106-118 | `_merge_pdfs` returns the reference merge: the first parse error, or the written cover, scorecard and narrative pages |
| PdfMerge.MergedOrder | HttpReport/__init__.py:108-115 | the output pages are exactly the cover pages, then the scorecard pages, then the narrative pages; the count is the sum |
| PdfMerge.MergedFailure | HttpReport/__init__.py:108-115 | the merge succeeds exactly when every included input parses; a failing cover, then a failing scorecard, then a failing narrative is the error reported |
| PdfMerge.EmptyInputSkipped | HttpReport/__init__.py:108-115 | an empty optional input is treated as absent |
| ArtifactNames.Digits | HttpReport/__init__.py:161 | the zero-padded field has the requested width and only digits |
| ArtifactNames.ParseDigitsExact | HttpReport/__init__.py:161 | a padded field reads back as its number |
| ArtifactNames.Timestamp | HttpReport/__init__.py:161 | `%Y%m%d-%H%M%S` is 15 characters: digits with `-` at position 8 |
| ArtifactNames.TimestampRoundTrip | HttpReport/__init__.py:161 | parsing the timestamp of a valid clock reading returns that reading |
| ArtifactNames.TimestampInjective | HttpReport/__init__.py:161 | two readings with the same timestamp are equal |
| ArtifactNames.ReportName | HttpReport/__init__.py:162 | defines `f"CJ_Report_{ts}.pdf"` |
| ArtifactNames.NarrativeName | HttpReport/__init__.py:163 | defines `f"CJ_Narrative_{ts}.docx"` |
| ArtifactNames.NamesCarryTimestamp | HttpReport/__init__.py:162-163 | each name is its prefix, the timestamp and its extension |
| ArtifactNames.NamesDistinct | HttpReport/__init__.py:162-163 | a report name never equals a narrative name |
| ArtifactNames.NamesInjective | HttpReport/__init__.py:162-163 | different timestamps give different names |
| Pipeline.EnvGet | HttpReport/__init__.py:14-15 | defines `os.environ.get(name, default)` |
| Pipeline.ConfigOf | HttpReport/__init__.py:14-15 | defines the configuration: the connection string (empty when unset) and the container (`reports` when unset) |
| Pipeline.Build | HttpReport/__init__.py:154-160 | reference for the artifact stage: scores, `score_map`, scorecard, filled template, merged report, stopping at the first error |
| Pipeline.Assemble | HttpReport/__init__.py:144-160 | reference for the request up to the artifacts: the parse error, None when `excel` or `word_template` is missing, or the artifacts |
| Pipeline.Stored | HttpReport/__init__.py:121-129 | defines when `_upload_with_sas` gets as far as storing the blob: a connection string is set and the upload succeeds |
| Pipeline.UploadWrites | HttpReport/__init__.py:129 | defines the write one upload makes: the blob once stored, whatever happens afterwards |
| Pipeline.Upload | HttpReport/__init__.py:120-140 | reference for `_upload_with_sas`: the configuration error, the upload error, the signing error, or the signed URL |
| Pipeline.PublishOutcome | HttpReport/__init__.py:161-167 | reference for the uploads: the report first, the template only after the report's link; the answer, and the writes made, including a blob stored before its signing failed |
| Pipeline.Run | HttpReport/__init__.py:142-170 | reference outcome of `main`: every error becomes a 500, a missing input a 400 with no write, and otherwise the publishing outcome |
| Pipeline.BlobContainer.Store | HttpReport/__init__.py:129 | an overwriting upload sets that blob and leaves the others |
| Pipeline.UploadWithSas | HttpReport/__init__.py:120-140 | returns the reference result and leaves the container with exactly the writes the reference lists: none without a connection string or after a failed upload; the blob once uploaded, even when signing then fails |
| Pipeline.BuildArtifacts | HttpReport/__init__.py:151-160 | the artifact stage equals the reference: scores, then scorecard, then the filled template, then the merge, stopping at the first error |
| Pipeline.PublishArtifacts | HttpReport/__init__.py:161-167 | the report is uploaded before the template, and the answer and container follow the reference outcome |
| Pipeline.HandleRequest | HttpReport/__init__.py:142-170 | `main` gives the reference response and leaves the container as the reference writes would |
| Pipeline.PublishOne | HttpReport/__init__.py:129 | one write sets that blob and leaves the others |
| Pipeline.PublishAppend | HttpReport/__init__.py:164-165 | writes made in two batches leave the container as the batches applied one after the other |
| Pipeline.PublishTwo | HttpReport/__init__.py:164-165 | two writes amount to two successive overwrites |
| Pipeline.StatusCodes | HttpReport/__init__.py:142-170 | the status is 200, 400 or 500, and only 200 carries links |
| Pipeline.MissingInput | HttpReport/__init__.py:144-150 | 400 exactly when the form parses but lacks `excel` or `word_template`; nothing is written then |
| Pipeline.WrongContentType | HttpReport/__init__.py:18-20 | a non-form Content-Type gives 500 with the Content-Type message and no writes |
| Pipeline.NotConfigured | HttpReport/__init__.py:121-122 | without a connection string the request fails with the configuration message and nothing is written |
| Pipeline.SuccessPublishesBoth | HttpReport/__init__.py:161-167 | a 200 means the artifacts were built, the report then the template were written under names sharing one timestamp, both signings succeeded, and the links are the signed URLs |
| Pipeline.SuccessContainer | HttpReport/__init__.py:161-167 | after a 200 the container holds both artifacts under their names and every other blob as before |
| Pipeline.PartialPublish | HttpReport/__init__.py:164-170 | when the report's upload succeeds and the template's fails, the answer is a 500 with the template's error; the report stays written, and so does the template when it was stored before its signing failed |
| Pipeline.UploadStoredBeforeSign | HttpReport/__init__.py:129-139 | a successful upload stored the blob; once stored, the upload fails exactly when signing fails, and with the signing error |
| Pipeline.SigningFailureKeepsReport | HttpReport/__init__.py:129-139 | when the report is stored but its link cannot be signed, the request is a 500 with the signing error and the report is the one blob written |
| Pipeline.UnsetConnectionString | HttpReport/__init__.py:14 | with `AZURE_STORAGE_CONNECTION_STRING` unset, a request whose artifacts are built fails with the configuration message and writes nothing |
| Pipeline.ContainerSetting | HttpReport/__init__.py:15 | the container is `BLOB_CONTAINER` when set, and `reports` otherwise |
| Pipeline.BuildStages | HttpReport/__init__.py:154-160 | the artifact stage reports the first error in the code's order (workbook, scores, template, filling, merge); on success the template is filled from `dict(zip(cats, scores))` of the same scores the scorecard is rendered from |
| Pipeline.BuildFailureWritesNothing | HttpReport/__init__.py:154-168 | for a form with both required fields, a failed artifact stage is a 500 with its error and no write; a built one goes on to the uploads |

## Left out

- Byte-level multipart decoding (`MultipartDecoder`): the model starts from the decoded parts or the decoder's error. It also starts from each part's Content-Disposition already decoded to text, since `errors="ignore"` UTF-8 decoding is not modelled.
- Workbook loading (`pd.read_excel`): a `loadSheet` input that gives the worksheet or the error raised, for example for a missing "Summary Dashboard" sheet. A blank cell, like a cell holding one of `read_excel`'s NA strings such as "N/A", is the explicit `Missing` cell. `dropna(subset=[cat_col])` drops a row whose category cell is `Missing` or a float NaN (`ScoreTable.IsNA`). A score cell holding "N/A" is therefore `Missing` as well, and its row is kept with score NaN when the reader turns `Missing` into NaN. Rows shorter than the header read as blank cells.
- Column labels are positions. pandas gives duplicate headers distinct labels when it loads a sheet, so looking a column up by label and by position agree.
- Floating point: `float(v)`, `round(s, 2)` and `f"{v:.2f}"` are inputs (`CellReader.toNum`, `Libs.round2`, `Libs.fmt2`). `str(v)` of a non-text cell is `CellReader.repr`.
- Text.Lower: lower-cases only the ASCII letters A to Z. Python's `str.lower()` also maps other Unicode letters.
- reportlab rendering: the scorecard PDF is a `render` input applied to the title, the `data` table and the tagline. Styling has no behaviour to state.
- python-docx: a document is its tables' cell texts. `row.cells` is a tuple, so a missing cell raises `tuple index out of range`. Merged cells, which python-docx repeats across `row.cells`, are not modelled. Loading and saving are `loadDocx`/`saveDocx` inputs.
- Temporary files and their cleanup: file-system I/O.
- The scorecard travels between the renderer and the merge as bytes, not as a file path.
- pypdf: a PDF is a sequence of abstract pages. Parsing and writing are `readPdf`/`writePdf` inputs.
- Azure Blob Storage: `uploadBlob` and `sign` are inputs, each returning the error it raises.
  - The errors `from_connection_string` and `get_container_client` can raise (lines 123-124) are part of the `uploadBlob` error: like it, they are raised before anything is written.
  - The errors of reading `account_key` and of `generate_blob_sas` (lines 130-139) are the `sign` error: they are raised after the blob is stored.
  - The container creation whose errors are ignored (lines 125-128) has no effect in the model.
  - The SAS expiry time (`utcnow() + 24h`) is inside `sign`.
  - The container is a `BlobContainer` object with a map of blobs.
- Environment variables: a map read by `EnvGet` when the module loads, giving the `Config` value (`ConfigOf`). The account name the client reads from the connection string is the `accountOf` input.
- The clock: `utcnow()` is the `now` input.
- ArtifactNames.Timestamp: formats `%Y` as four zero-padded digits, as Python documents. Some C libraries do not pad years below 1000.
- Logging, and the JSON encoding of the 200 body: the body is the `UrlPair` of the two links, and the `application/json` header goes with it.
- Exceptions raised inside the renderer, the docx saver or the PDF writer: these are modelled as total functions.
