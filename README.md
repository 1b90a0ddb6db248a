# Funding-application validator, modelled in Dafny

The system checks a grant application against three pieces of evidence:

- a photo of the purchased item, with its geotag;
- a bank statement;
- an invoice.

Each check produces a `ValidationResult`. This is a named, append-only list of weighted pass/fail criteria. The results are then pooled into one confidence score. Every criterion that failed is reported with a fixed message.

This project models the decision logic of that pipeline and proves what it promises. The modules follow the source files:

| module | file | models |
|---|---|---|
| `Results` | results.dfy | `Option`, `Result` and the exceptions of the source, as error values |
| `Text` | text.dfy | the Python `str` operations used: `isspace`, `strip`, lower-casing, `in`, `replace`, runs of `\w` / `\s` |
| `Textract` | textract.dfy | the Textract block kinds the parsers read |
| `Sorting` | sorting.dfy | `sorted()` on integer keys |
| `ValidationClasses` | validation_classes.dfy | `CriteriaResult.score`, and the `ValidationResult` class with its constructor, `add_criteria` and `weighted_score` |
| `ApplicationValidation` | application_validation.dfy | `ERROR_MSGS`, `calculate_confidence_score`, `log_feedback` |
| `BankStatementValidation` | bank_statement_validation.dfy | `parse_textract_table`, `table_to_dataframe`, `map_headers`, `normalize_cost`, `normalize_df`, `find_matching_rows`, `validate_statement` |
| `InvoiceValidation` | invoice_validation.dfy | `extract_validation` (a `re.findall` scanner and the dict it builds), `validate_document`, `parse_queries_response` |
| `ApplicationFormValidator` | application_form_validator.dfy | `parse_llm_response` (a `re.search` scanner), the radius check, `validate_geotag_address`, `validate_image_contains_object`, `validate_photo` |

## How the code is modelled

- Python exceptions become `Err` values that propagate the way the exception would. For example, `KeyError` on `ERROR_MSGS` becomes `MissingMessage(key)`, and `ValueError` from `parse_llm_response` becomes `BadResponseFormat`.
- Outside services and libraries become parameters. This covers:
  - the Textract response, as its block list;
  - the geocoder's answer, as `Option<Coordinates>`;
  - the geodesic distance, as a function into metres;
  - `dateutil` parsing, as `string -> Option<CalendarDate>`;
  - `float()`, as `string -> Option<real>`;
  - `fuzz.partial_ratio`, as `(string, string) -> int`;
  - the text the language models return, as a string;
  - the outcome of the temporary-file write and of `describe_image`.
- Code that changes state step by step is imperative Dafny, proved against a function that states its result:
  - `ValidationResult` is a class;
  - the `log_feedback` loops, the `parse_textract_table` loops, the `map_headers` loop and the `parse_queries_response` loop are methods with loop invariants;
  - `validate_*` are methods that build a fresh `ValidationResult`.
- Regular expressions are written as greedy scanners. Lemmas prove each scanner equal to a reference reading of its pattern:
  - `InvoiceValidation.MatchesAt` for `"(\w+)":\s+"(MATCH|MISMATCH|NOT GIVEN)"`;
  - `ApplicationFormValidator.OccursAt` for `object: (\w+), fully captured: (\w+)`.
- A dict comprehension is an insertion-ordered list of entries: a repeated key keeps its first place and takes its last value.
- The default radius is `ApplicationFormValidator.DefaultRadius` (500 metres). The default similarity threshold is `BankStatementValidation.DefaultThreshold` (80).

Where the code and the system's design description differ, the model follows the code:

- `map_headers` never raises for a missing Date, Description or Cost column. Its check only looks at headers that were stored, and none of those is empty. `MapHeaders` returns `Ok` on every input, and `MappingClassified` proves that no stored header is empty. A missing column only fails later, when `normalize_df` indexes it (`NoSuchColumn`).
- `calculate_confidence_score` has no guard against a zero total weight. The division then fails, which is modelled as `Err(ZeroTotalWeight)`. `weighted_score` does guard it and returns 0.
- `score()` on any string other than a case-insensitive "true" returns 0 and does not raise. Only a value that is neither a bool nor a str raises.
- `parse_llm_response` compares both words with "True" case-sensitively.

## Model

| member | source | states |
|---|---|---|
| ValidationClasses.LowerIsTrue | src/inukai/validate/validation_classes.py:16 | `lower() == "true"` exactly when the string is the four letters t, r, u, e in any letter case |
| ValidationClasses.Score | src/inukai/validate/validation_classes.py:11-18 | a bool scores 1 iff true; a str scores 1 iff it reads "true" in any letter case, and 0 otherwise without raising; any other value raises; the score is at most 1 |
| ValidationClasses.WeightedAverage | src/inukai/validate/validation_classes.py:32-35 | defined iff every value can be scored; 0 when the total weight is 0; otherwise the score times the total weight is the passed weight |
| ValidationClasses.AverageTimesWeight | src/inukai/validate/validation_classes.py:32-35 | with a non-zero total weight, weighted_score times Σ weight equals Σ score·weight |
| ValidationClasses.SumsOfConcat | src/inukai/validate/validation_classes.py:33-34 | both sums of weighted_score distribute over concatenated criteria lists |
| ValidationClasses.PassedWeightBounds | src/inukai/validate/validation_classes.py:33-34 | with positive weights, 0 ≤ Σ score·weight ≤ Σ weight; the upper bound is reached iff every criterion passes, and 0 iff none does |
| ValidationClasses.WeightedScoreInUnitInterval | src/inukai/validate/validation_classes.py:32-35 | with positive weights the weighted score lies in [0, 1] |
| ValidationClasses.WeightedScoreOneIffAllPass | src/inukai/validate/validation_classes.py:32-35 | with positive weights and some criterion, the weighted score is 1 iff every criterion passes |
| ValidationClasses.WeightedScoreZeroIffNonePass | src/inukai/validate/validation_classes.py:32-35 | with positive weights the weighted score is 0 iff no criterion passes, the empty list included |
| ValidationClasses.ValidationResult.constructor | src/inukai/validate/validation_classes.py:25-27 | a new result has the given component name and no criteria |
| ValidationClasses.ValidationResult.AddCriteria | src/inukai/validate/validation_classes.py:29-30 | appends the criterion at the end; the earlier criteria and the name are unchanged |
| ValidationClasses.ValidationResult.WeightedScore | src/inukai/validate/validation_classes.py:32-35 | defined iff every criterion can be scored; within [0, 1] when the weights are positive |
| ApplicationValidation.ErrorMessageKeys | src/inukai/validate/application_validation.py:32-41 | ERROR_MSGS has a message for exactly the eight criterion keys the validators produce |
| ApplicationValidation.ConfidenceScore | src/inukai/validate/application_validation.py:44-69 | the pooled score fails on an unscorable value (checked first) and on a zero pooled weight, and is defined otherwise |
| ApplicationValidation.ConfidenceScoreInUnitInterval | src/inukai/validate/application_validation.py:44-69 | with positive weights and a non-empty pool, the score is in [0, 1]: 1 iff every pooled criterion passes, 0 iff none does |
| ApplicationValidation.PooledScoreWeighsDocumentsByWeight | src/inukai/validate/application_validation.py:49-69 | the score is the three documents' summed passed weight over their summed total weight |
| ApplicationValidation.PooledScoreIsNotMeanOfDocuments | src/inukai/validate/application_validation.py:44-69 | for a concrete application the pooled score is 0.9, while the mean of the three document scores is 5/6 |
| ApplicationValidation.FailedKeys | src/inukai/validate/application_validation.py:88-89 | at most one failed key per criterion |
| ApplicationValidation.FailureLogAppend | src/inukai/validate/application_validation.py:88-90 | the message loop over one more criterion is one more loop step |
| ApplicationValidation.FailureLogRun | src/inukai/validate/application_validation.py:83-90 | the loop over more criteria carries on from where it stood |
| ApplicationValidation.FailureLogShape | src/inukai/validate/application_validation.py:83-90 | the loop writes only error lines, at most one per criterion; on scorable criteria it stops only at a key without a message |
| ApplicationValidation.FailureLogStops | src/inukai/validate/application_validation.py:89-90 | once the loop has raised, later criteria change nothing |
| ApplicationValidation.FailureLogListsFailures | src/inukai/validate/application_validation.py:83-90 | when every failed key has a message, the loop writes exactly the failed criteria's messages, in pool order |
| ApplicationValidation.FailureLogFailsOnUnknownKey | src/inukai/validate/application_validation.py:89-90 | a failed criterion whose key has no message makes the loop fail with a lookup error |
| ApplicationValidation.FeedbackReport | src/inukai/validate/application_validation.py:72-92 | when the score cannot be computed nothing is written and that error is raised; a run that completes had a defined score |
| ApplicationValidation.FeedbackReportShape | src/inukai/validate/application_validation.py:72-92 | an empty pool writes nothing and fails the division; a run that completes ends with the score line after error lines only; a run that fails writes error lines only |
| ApplicationValidation.FeedbackListsEveryFailure | src/inukai/validate/application_validation.py:72-92 | when the score is defined and every failed key has a message, the output is those messages in order, then the score |
| ApplicationValidation.FeedbackFailsOnUnknownKey | src/inukai/validate/application_validation.py:72-92 | a failed criterion with an unknown key makes log_feedback fail before the score line |
| ApplicationValidation.CriteriaOfThree | src/inukai/validate/application_validation.py:83-88 | the loops visit the form's, then the bank statement's, then the invoice's criteria, which is the pool |
| ApplicationValidation.LogCriteria | src/inukai/validate/application_validation.py:88-90 | the inner loop writes what the message loop writes for that result's criteria |
| ApplicationValidation.LogResults | src/inukai/validate/application_validation.py:83-90 | the nested loops write the message loop's output over all criteria in order |
| ApplicationValidation.LogFeedback | src/inukai/validate/application_validation.py:72-92 | log_feedback computes the score first, then writes the messages, then the score line |
| BankStatementValidation.Cells | src/inukai/validate/bank_statement_validation.py:83 | exactly the CELL blocks of the response are kept |
| BankStatementValidation.Items | src/inukai/validate/bank_statement_validation.py:84-88 | an id is a key iff some WORD or LINE block has it |
| BankStatementValidation.CellText | src/inukai/validate/bank_statement_validation.py:95-103 | a cell without relationships has empty text; the text never starts or ends with white space |
| BankStatementValidation.CellTextOf | src/inukai/validate/bank_statement_validation.py:95-103 | the nested `text +=` loops, then strip, give the cell's text |
| BankStatementValidation.IdsTextConcat | src/inukai/validate/bank_statement_validation.py:99-101 | the text of a list of child ids is the texts of its parts, concatenated |
| BankStatementValidation.UnknownIdIsSkipped | src/inukai/validate/bank_statement_validation.py:99-101 | a child id that names no WORD or LINE block contributes nothing |
| BankStatementValidation.GridKeys | src/inukai/validate/bank_statement_validation.py:90-106 | table_data has a row for each RowIndex of a cell, and each row has a column for each ColumnIndex in it, nothing else |
| BankStatementValidation.GridRowKeys | src/inukai/validate/bank_statement_validation.py:90-105 | a row index is a key of table_data iff some cell has it |
| BankStatementValidation.GridColumnKeys | src/inukai/validate/bank_statement_validation.py:90-106 | a column index is in a row of table_data iff some cell sits at that row and column |
| BankStatementValidation.GridStep | src/inukai/validate/bank_statement_validation.py:104-106 | one more cell sets its own position to its text and leaves every other filled position as it was |
| BankStatementValidation.GridLastCellWins | src/inukai/validate/bank_statement_validation.py:90-106 | the last cell at a position decides that position's text |
| BankStatementValidation.RowOf | src/inukai/validate/bank_statement_validation.py:110-112 | one text per column of the row |
| BankStatementValidation.TableRows | src/inukai/validate/bank_statement_validation.py:108-113 | one output row per row key |
| BankStatementValidation.ParseTextractTable | src/inukai/validate/bank_statement_validation.py:76-115 | the rows, in ascending row and column order, of the table filled from the CELL blocks |
| BankStatementValidation.FillTable | src/inukai/validate/bank_statement_validation.py:91-106 | the cell loop builds exactly table_data |
| BankStatementValidation.ReadTable | src/inukai/validate/bank_statement_validation.py:108-113 | the read-back loops produce the sorted rows |
| BankStatementValidation.ReadRow | src/inukai/validate/bank_statement_validation.py:110-112 | the inner loop produces a row's texts in ascending column order |
| BankStatementValidation.ProjectAt | src/inukai/validate/bank_statement_validation.py:111-112 | entry j of a read-back row is the text at the j-th listed column |
| BankStatementValidation.RowAt | src/inukai/validate/bank_statement_validation.py:109-113 | row i of the read-back is the row at the i-th listed row index |
| BankStatementValidation.RowOfOrder | src/inukai/validate/bank_statement_validation.py:110-112 | a row reads back as its texts in strictly ascending ColumnIndex order, each column once |
| BankStatementValidation.ParsedRowsOrder | src/inukai/validate/bank_statement_validation.py:90-115 | output row i is the row of the i-th smallest RowIndex; the listed indices are strictly ascending and are exactly the RowIndex values of the CELL blocks |
| BankStatementValidation.OneRowPerRowIndex | src/inukai/validate/bank_statement_validation.py:108-115 | the table has one row per distinct RowIndex among the CELL blocks |
| BankStatementValidation.TableToFrame | src/inukai/validate/bank_statement_validation.py:118-125 | an empty table raises; the first row gives the labels; data whose widest row differs from the label count raises; shorter rows are padded with missing cells |
| BankStatementValidation.Classify | src/inukai/validate/bank_statement_validation.py:137-144 | a classified header is never empty |
| BankStatementValidation.MapHeaders | src/inukai/validate/bank_statement_validation.py:128-152 | the loop returns the inverted mapping and never raises |
| BankStatementValidation.Mapping | src/inukai/validate/bank_statement_validation.py:134-145 | each category holds a header of that category |
| BankStatementValidation.MappingClassified | src/inukai/validate/bank_statement_validation.py:137-150 | each stored header is an input header of its category and not empty; a category is stored iff some header has it |
| BankStatementValidation.MappingLastWins | src/inukai/validate/bank_statement_validation.py:137-144 | of several headers with the same category, the last is kept |
| BankStatementValidation.InvertDistinct | src/inukai/validate/bank_statement_validation.py:152 | inverting a mapping with distinct headers gives each stored header its own category and nothing else |
| BankStatementValidation.MapHeadersResult | src/inukai/validate/bank_statement_validation.py:128-152 | the result maps input headers to their own category, drops unmatched headers, and holds a category iff some header has it |
| BankStatementValidation.Cleaned | src/inukai/validate/bank_statement_validation.py:171-173 | no "£", "$" or "," is left, and the text is not longer |
| BankStatementValidation.CleanedConcat | src/inukai/validate/bank_statement_validation.py:171-173 | cleaning distributes over concatenation |
| BankStatementValidation.CleanedIdempotent | src/inukai/validate/bank_statement_validation.py:171-173 | cleaning twice is cleaning once |
| BankStatementValidation.NormalizeCost | src/inukai/validate/bank_statement_validation.py:164-173 | "" is 0.0; otherwise the result is float() of the cleaned text, and raises iff that does not parse |
| BankStatementValidation.CostIgnoresSymbols | src/inukai/validate/bank_statement_validation.py:169-173 | a cost reads the same as its cleaned text, when that text is not empty |
| BankStatementValidation.SymbolOnlyCostFails | src/inukai/validate/bank_statement_validation.py:169-173 | "£" or "$" alone is not 0.0: it cleans to "", which float() rejects |
| BankStatementValidation.Rename | src/inukai/validate/bank_statement_validation.py:181 | renaming keeps the number of columns |
| BankStatementValidation.ColumnIndex | src/inukai/validate/bank_statement_validation.py:184-185 | `df[name]` finds the one column with that label, raises when there is none, and reports a label carried by several columns |
| BankStatementValidation.DateValues | src/inukai/validate/bank_statement_validation.py:184 | one value per row; the only error is a missing cell |
| BankStatementValidation.DateValuesSpec | src/inukai/validate/bank_statement_validation.py:184 | defined iff every row has its Date cell; then each value is that cell parsed, None when it does not parse |
| BankStatementValidation.DateValuesFail | src/inukai/validate/bank_statement_validation.py:184 | the Date conversion raises iff some row lacks its Date cell |
| BankStatementValidation.CostValues | src/inukai/validate/bank_statement_validation.py:185 | one value per row |
| BankStatementValidation.CostValuesSpec | src/inukai/validate/bank_statement_validation.py:185 | defined iff every cost cell is present and normalises; then each value is that cell's normalised cost |
| BankStatementValidation.CostValuesFail | src/inukai/validate/bank_statement_validation.py:185 | the Cost conversion raises iff some Cost cell is missing or does not normalise |
| BankStatementValidation.NormalizeFrame | src/inukai/validate/bank_statement_validation.py:175-185 | the columns are renamed; every row keeps its cells and gains its parsed date and cost |
| BankStatementValidation.Entries | src/inukai/validate/bank_statement_validation.py:184-185 | row k of the frame carries the k-th date, the k-th cost and its own cells |
| BankStatementValidation.NormalizeFrameEntries | src/inukai/validate/bank_statement_validation.py:180-185 | on success, each row's date is its Date cell parsed and its cost is its Cost cell normalised, both found under the renamed labels |
| BankStatementValidation.NormalizeFrameFails | src/inukai/validate/bank_statement_validation.py:180-185 | normalize_df raises iff the Date label is missing or ambiguous, a Date cell is missing, the Cost label is missing or ambiguous, or a Cost cell is missing or does not normalise |
| BankStatementValidation.NormalizeFrameDateFirst | src/inukai/validate/bank_statement_validation.py:184-185 | the Date column is converted before the Cost column, so a Date problem is the error raised |
| BankStatementValidation.Filter | src/inukai/validate/bank_statement_validation.py:206-216 | the selection is no longer than the frame |
| BankStatementValidation.FilterMembership | src/inukai/validate/bank_statement_validation.py:206-216 | a row is kept iff it is in the frame and matches all three conditions |
| BankStatementValidation.FilterConcat | src/inukai/validate/bank_statement_validation.py:206-216 | the selection keeps frame order |
| BankStatementValidation.FindMatchingRows | src/inukai/validate/bank_statement_validation.py:194-218 | a claimed cost that does not parse raises, and so does a missing Description column; otherwise the rows are those with the claimed date (a date that did not parse matches none), exactly the claimed cost, and name similarity ≥ threshold |
| BankStatementValidation.StatementMatches | src/inukai/validate/bank_statement_validation.py:229-236 | an empty Textract table raises; matching rows exist only when the claimed cost parsed |
| BankStatementValidation.StatementMatchesSound | src/inukai/validate/bank_statement_validation.py:229-236 | every selected row has the claim's purchase date, which therefore parsed, and exactly the claimed cost |
| BankStatementValidation.StatementCriterion | src/inukai/validate/bank_statement_validation.py:238-248 | key "bank_statement", weight 3, passing iff some row matched |
| BankStatementValidation.ValidateStatement | src/inukai/validate/bank_statement_validation.py:220-250 | a fresh "BankStatement" result holding that single criterion, or the pipeline's error |
| InvoiceValidation.VerdictAt | src/inukai/validate/invoice_validation.py:98 | a verdict found at p fits in the text with a character after it |
| InvoiceValidation.VerdictAtUnique | src/inukai/validate/invoice_validation.py:98 | the alternation finds the verdict followed by a quote, and it is the only verdict that can be read there |
| InvoiceValidation.HeadAt | src/inukai/validate/invoice_validation.py:98 | the key and the white space found are non-empty and lie inside the text |
| InvoiceValidation.MatchAt | src/inukai/validate/invoice_validation.py:98 | a match at i ends after i and within the text |
| InvoiceValidation.KeyFromRun | src/inukai/validate/invoice_validation.py:98 | `\w+` takes the longest run of word characters |
| InvoiceValidation.GapFromRun | src/inukai/validate/invoice_validation.py:98 | `\s+` takes the longest run of white space |
| InvoiceValidation.MatchAtSound | src/inukai/validate/invoice_validation.py:98 | what the attempt at i finds is an occurrence of the pattern there, with a word key |
| InvoiceValidation.MatchAtComplete | src/inukai/validate/invoice_validation.py:98 | every occurrence of the pattern at i is what the attempt at i finds |
| InvoiceValidation.FindAll | src/inukai/validate/invoice_validation.py:99 | findall returns at most one pair per character left to scan |
| InvoiceValidation.FindAllSound | src/inukai/validate/invoice_validation.py:99 | every pair findall returns comes from an occurrence of the pattern |
| InvoiceValidation.FindAllFirst | src/inukai/validate/invoice_validation.py:99 | an occurrence at the current position is the next pair, whatever its key, and scanning resumes after it |
| InvoiceValidation.Insert | src/inukai/validate/invoice_validation.py:100 | an existing key keeps its place; a new key goes at the end |
| InvoiceValidation.InsertDistinct | src/inukai/validate/invoice_validation.py:100 | insertion keeps keys distinct |
| InvoiceValidation.InsertFrom | src/inukai/validate/invoice_validation.py:100 | after insertion the new pair is an entry, and every other entry was there before |
| InvoiceValidation.InsertKeeps | src/inukai/validate/invoice_validation.py:100 | entries with other keys survive the insertion |
| InvoiceValidation.ToDictDistinct | src/inukai/validate/invoice_validation.py:100 | the dict has each key once |
| InvoiceValidation.ToDictFromPairs | src/inukai/validate/invoice_validation.py:100 | the dict holds only pairs that were found |
| InvoiceValidation.ToDictCovers | src/inukai/validate/invoice_validation.py:100 | every key found has an entry |
| InvoiceValidation.ToDictLastWins | src/inukai/validate/invoice_validation.py:100 | the last pair found for a key is its entry |
| InvoiceValidation.ExtractValidation | src/inukai/validate/invoice_validation.py:94-101 | each key at most once; every entry is a pair findall returned; every key findall returned has an entry |
| InvoiceValidation.InvoiceCriterion | src/inukai/validate/invoice_validation.py:181-183 | key as extracted, weight 1, passing iff the verdict is MATCH |
| InvoiceValidation.InvoiceCriteria | src/inukai/validate/invoice_validation.py:180-183 | one criterion per dict entry, in dict order |
| InvoiceValidation.ValidateDocument | src/inukai/validate/invoice_validation.py:135-185 | a fresh "invoice" result whose criteria are those of the extracted verdicts |
| InvoiceValidation.RecordVerdicts | src/inukai/validate/invoice_validation.py:178-185 | the loop over the dict adds one criterion per entry, in dict order, to a fresh "invoice" result |
| InvoiceValidation.InvoiceKeysDistinct | src/inukai/validate/invoice_validation.py:178-183 | the invoice criteria have distinct keys, and criterion n has the n-th extracted key and passes iff its verdict is MATCH |
| InvoiceValidation.ParseQueriesResponse | src/inukai/validate/invoice_validation.py:62-76 | the loop builds the list the block-by-block run specifies, with its errors |
| InvoiceValidation.QueryRunFailed | src/inukai/validate/invoice_validation.py:69-75 | once the loop has raised, later blocks change nothing |
| InvoiceValidation.QueryRunConcat | src/inukai/validate/invoice_validation.py:69-75 | the loop over two stretches of blocks is one loop after the other |
| InvoiceValidation.QueryRunNames | src/inukai/validate/invoice_validation.py:69-75 | a successful parse has one entry per QUERY block, in order, named by the queries table; every query text is in the table |
| InvoiceValidation.QueryStepNames | src/inukai/validate/invoice_validation.py:70-75 | a QUERY block adds one named entry; other blocks keep the names |
| InvoiceValidation.ResultBeforeQueryFails | src/inukai/validate/invoice_validation.py:73-75 | a QUERY_RESULT before any QUERY makes the parse fail |
| InvoiceValidation.QuietBlocks | src/inukai/validate/invoice_validation.py:69-75 | blocks other than QUERY and QUERY_RESULT change nothing |
| InvoiceValidation.QueryThenAnswer | src/inukai/validate/invoice_validation.py:70-75 | a QUERY and its QUERY_RESULT add one entry with the answer, or "" when the result has no text |
| ApplicationFormValidator.AttemptSound | src/inukai/validate/application_form_validator.py:54 | a successful attempt at i is an occurrence of the pattern at i, with both words taken greedily |
| ApplicationFormValidator.AttemptComplete | src/inukai/validate/application_form_validator.py:54 | any occurrence of the pattern at i makes the attempt at i succeed with that first word; the greedy occurrence is exactly what it returns |
| ApplicationFormValidator.SearchSound | src/inukai/validate/application_form_validator.py:54-55 | re.search returns the first position whose attempt succeeds |
| ApplicationFormValidator.SearchComplete | src/inukai/validate/application_form_validator.py:54-55 | re.search finds a match at or before any position where one exists |
| ApplicationFormValidator.ParseLlmResponse | src/inukai/validate/application_form_validator.py:50-60 | the only error is ValueError("Response format is incorrect") |
| ApplicationFormValidator.ParseLlmResponseFails | src/inukai/validate/application_form_validator.py:54-60 | ValueError("Response format is incorrect") iff the pattern occurs nowhere |
| ApplicationFormValidator.ParseLlmResponseReads | src/inukai/validate/application_form_validator.py:54-58 | on success, the leftmost occurrence is read, and each status is whether its word is exactly "True" |
| ApplicationFormValidator.LowerCaseTrueIsFalse | src/inukai/validate/application_form_validator.py:56-57 | the comparison is case-sensitive: "object: true, fully captured: True" gives (False, True) |
| ApplicationFormValidator.GeotagAgainstAddress | src/inukai/validate/application_form_validator.py:112-113 | within iff distance ≤ radius, the boundary included; the distance is returned alongside |
| ApplicationFormValidator.DefaultRadiusBoundary | src/inukai/validate/application_form_validator.py:91 | with the default radius of 500 m, a geotag exactly 500 m away passes and one any farther fails |
| ApplicationFormValidator.GeotagAddressCriterion | src/inukai/validate/application_form_validator.py:143-157 | key "geotag_address", weight 1; an unresolved address gives the string "False", which scores 0; otherwise the within-radius bool |
| ApplicationFormValidator.ValidateImageContainsObject | src/inukai/validate/application_form_validator.py:159-194 | key "image", weight 1; passes iff the write worked, describe returned, and both words are "True"; a failed write or a RuntimeError gives False; a malformed answer propagates ValueError |
| ApplicationFormValidator.ValidatePhoto | src/inukai/validate/application_form_validator.py:127-135 | a fresh "ApplicationForm" result with exactly two criteria, geotag first, then image; fails iff the image step raises |
| ApplicationFormValidator.PhotoScore | src/inukai/validate/application_form_validator.py:131-135 | the photo result's weighted score is the mean of its two criteria: 1 iff both pass, 0 iff neither does |

## Left out

- Network and storage I/O is not modelled. This covers S3 (`read_json_from_s3`, `get_image_data`), `analyze_document_with_tables`, the Textract layout extractor, the OpenCage geocoder call (`get_address_coordinates`) and the `Application` driver. Their results are inputs instead.
- ValidationClasses.WeightedAverage, ApplicationValidation.ConfidenceScore: weights and scores are exact reals. IEEE-double rounding of the two sums and of the quotient is not captured. For example, the weights 0.1, 0.2 and -0.3 sum to exactly 0 here, but not in floats; and 1e16 + 1.0 rounds to 1e16 in floats. The proved properties carry over to float weights that are small integers, such as the weights 1 and 3 the validators use: their sums are exact, and only the final quotient rounds.
- Geodesic distance (geopy), `dateutil` parsing, `fuzz.partial_ratio` and Python's `float()` are parameters. The model does not capture their floating-point behaviour.
- The language models are not modelled. This covers the LLaMA pipeline (`request_to_llama`), LLaVA (`describe_image`, `capture_eval_model_output`), the prompt texts, llama-server.py and cli.py. The model takes the text they return as an input.
- The temporary image file and its removal in the `finally` block are file-system effects. Only whether the write succeeded is an input.
- Logging texts other than `log_feedback`'s are not modelled (success and info lines in the validators).
- `normalize_date` is the date-parsing parameter itself.
- `\w` is modelled on ASCII letters, digits and `_`, and lower-casing on ASCII letters. Python's `\w` and `lower()` also cover other Unicode letters and digits. For `lower()` this changes nothing the source compares: no other character lower-cases to a letter of "true". For `\w` it changes what the two regular expressions capture, as the next two lines say.
- ApplicationFormValidator.ParseLlmResponse: a word that goes on with a non-ASCII letter or digit is cut short or not matched. For "object: True, fully captured: Trueé" the model reads (True, True), while Python captures "Trueé" and gives (True, False). For "object: Trueé, fully captured: True" the model finds no match and raises, while Python gives (False, True).
- InvoiceValidation.ExtractValidation: a key holding a non-ASCII letter or digit, such as "café", is not found. Python's `findall` returns it with its verdict.
- pandas is modelled only as far as the source uses it. This covers `DataFrame(data, columns=...)`, `rename`, `apply` on a column, boolean masks and the column lookup.
- BankStatementValidation.ColumnIndex: a label carried by several columns is reported as `AmbiguousColumn`. pandas would instead return a sub-frame, and later comparisons would then fail in other ways.
- BankStatementValidation.DateValues: a missing cell raises `MissingDateCell`. This stands for the exception `dateutil` raises on a non-string.
- ApplicationFormValidator.ValidateImageContainsObject: `describe_image` exceptions other than `RuntimeError` and `ValueError` are not modelled.
- InvoiceValidation.ValidateDocument: starts from the model's reply, because the prompt and the model call are not modelled.
