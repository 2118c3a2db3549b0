# Chart resolution of `generate_chart`

A Dafny model of the chart pipeline in `src/tools/chart_generator.py` (`generate_chart`). The
function takes the language model's reply to a chart request and cleans the code fences off it.
It recovers a list of chart requests (`sql`, `chart_type`, `title`) and runs each query on one
shared database connection. It classifies the result's columns into numeric, date and
categorical ones, picks the x and y axes, and resolves the chart kind from the requested type. It
returns one chart result per request that can be charted, in request order.

The model is split into modules that follow those stages:

- `Strings` (`strings.dfy`): the Python string operations the pipeline uses. These are
  `str.strip()` (with Python's whitespace set), `str.replace(pat, "")`, ASCII `lower()`/`upper()`,
  the `in` substring test, and first/last index of a character.
- `JsonValues` (`json.dfy`) holds the decoded JSON values and the three outcomes of decoding. `Wrappers` (`wrappers.dfy`) holds `Option`.
- `SpecParser` (`spec_parser.dfy`): fence removal, the greedy `\[.*\]` search, and the
  fallback chain (bracketed slice, whole text, SELECT keyword). It also wraps a non-list value in a list.
- `Columns` (`columns.dfy`): the column classes and the date-column loop (a method). It also
  holds axis selection, as a function and as the step-by-step method.
- `ChartKinds` (`chart_kinds.dfy`): the chain of substring tests that picks one of nine chart kinds.
- `ChartGenerator` (`chart_generator.dfy`): reading one request with its defaults, and what one
  request contributes (`ProcessSpec`, and the method `RenderSpec`). It holds the batch loop
  (`RunBatch`, proved against the function `Batch`) and the whole call (`GenerateChart`).

The outside world is passed in as parameters:
- the model's reply is a string;
- `json.loads` is `decode: string -> Decoded`, which says whether it returns a value, raises
  `json.JSONDecodeError` (`SyntaxError`) or raises any other exception (`OtherError`);
- `pd.read_sql` on the connection is `run: string -> QueryResult`;
- whether `pd.to_datetime` accepts a column is `parsesAsDates: Column -> bool`;
- whether `db_engine.connect()` succeeds is `connects: bool`.

Not every failure stays with its own request. Lines 69-71 run outside the per-request `try`
(lines 75-148), and three cases raise there:
- a request that is not a JSON object (`.get` fails);
- a request whose `sql` is present but not a string (`.strip()` fails);
- a request whose `chart_type` is present but not a string (`.lower()` fails).

That exception reaches the handler at line 152, which ends the loop. The results gathered so far
are still returned (line 155). The model calls this outcome `Abort`. `AbortEndsBatch` states it,
and `SkipIsLocal` states that every other failure only drops its own request.

## Model

| member | source | states |
|---|---|---|
| Strings.Strip | src/tools/chart_generator.py:69 | the result neither starts nor ends with whitespace, and it is a slice of the input with only whitespace cut off on both sides |
| Strings.StripKeeps | src/tools/chart_generator.py:69 | a query with no whitespace at either end is kept as it is |
| Strings.StripEmpty | src/tools/chart_generator.py:69 | stripping the empty string gives the empty string |
| Strings.StripKeepsAbsence | src/tools/chart_generator.py:35 | a pattern absent from a text is absent from its stripped form |
| Strings.Lower | src/tools/chart_generator.py:70 | same length as the input, and each character is lower-cased when it is an ASCII capital and kept otherwise |
| Strings.LowerHasNoUpper | src/tools/chart_generator.py:70 | a lower-cased text has no ASCII capital left |
| Strings.Upper | src/tools/chart_generator.py:51 | same length as the input, and each ASCII small letter is upper-cased |
| Strings.Contains | src/tools/chart_generator.py:51 | defines Python's `in` test, scanning from the left; `ContainsIff` states what it means |
| Strings.ContainsIff | src/tools/chart_generator.py:51 | the `in` test holds exactly when the pattern occurs at some index |
| Strings.AbsentFirstChar | src/tools/chart_generator.py:122-137 | a text lacking the first character of a pattern does not contain the pattern |
| Strings.RemoveAll | src/tools/chart_generator.py:35 | defines `replace(pat, "")`: occurrences found from the left are deleted without overlap; the result is never longer than the input |
| Strings.RemoveAllAbsent | src/tools/chart_generator.py:35 | `replace(pat, "")` leaves a text without the pattern's first character unchanged |
| Strings.RemoveAllNotContained | src/tools/chart_generator.py:35 | a text that does not contain the pattern is left unchanged |
| Strings.RemoveAllKeepsPrefix | src/tools/chart_generator.py:35 | a prefix that cannot start the pattern passes through the deletion unchanged |
| Strings.RemoveAllKeepsClean | src/tools/chart_generator.py:35 | a prefix that contains no occurrence of the pattern, and none of whose tails begins one, passes through the deletion unchanged whatever follows it |
| Strings.RemoveAllDropsLeading | src/tools/chart_generator.py:35 | an occurrence at the front is deleted and the rest is processed alone |
| Strings.RemoveBackticksLeavesNone | src/tools/chart_generator.py:35 | after deleting every "```" no "```" is left, even where deletions bring backticks together |
| Strings.SliceOccurrence | src/tools/chart_generator.py:35 | a pattern found in a slice is found in the whole text |
| Strings.PrefixOccurrence | src/tools/chart_generator.py:35 | a text containing "```json" contains "```" |
| Strings.FirstIndex | src/tools/chart_generator.py:41 | the index of the first occurrence of a character, or None when there is none |
| Strings.LastIndex | src/tools/chart_generator.py:41 | the index of the last occurrence of a character, or None when there is none |
| SpecParser.CleanText | src/tools/chart_generator.py:35 | defines the cleaning: delete every "```json", then every "```", then strip; `CleanTextHasNoFences` and `CleanTextIdempotent` state its properties |
| SpecParser.CleanTextHasNoFences | src/tools/chart_generator.py:35 | the cleaned reply contains neither "```" nor "```json" and has no whitespace at either end |
| SpecParser.CleanTextIdempotent | src/tools/chart_generator.py:35 | cleaning a cleaned reply changes nothing, so a reply and its cleaned form give the same requests |
| SpecParser.ExtractBracket | src/tools/chart_generator.py:41-43 | a match exists exactly when some '[' has a ']' after it; the match runs from the leftmost '[' to the last ']' |
| SpecParser.OutermostPairUnique | src/tools/chart_generator.py:41 | the leftmost-start, longest match is unique |
| SpecParser.ExtractFramed | src/tools/chart_generator.py:41-43 | a bracketed text with no '[' before it and no ']' after it is exactly what the search returns |
| SpecParser.AsList | src/tools/chart_generator.py:56-57 | defines the list normalisation: a decoded list is kept as it is, any other value becomes a one-element list |
| SpecParser.FallbackSpec | src/tools/chart_generator.py:52 | defines the request built from SQL-looking text: the cleaned text as `sql`, "bar" as `chart_type`, "Gráfico" as `title` |
| SpecParser.ParseCleaned | src/tools/chart_generator.py:38-61 | defines the fallback chain on the cleaned text: the bracketed slice if there is one, else the whole text, else the SELECT test on a JSONDecodeError, else []; the lemmas below state each branch |
| SpecParser.ParseSpecs | src/tools/chart_generator.py:35-61 | defines the requests of a reply as those of its cleaned text |
| SpecParser.BracketSliceDecides | src/tools/chart_generator.py:41-44 | when there is a bracket pair, only the bracketed slice is decoded: if decoding fails the call returns [] (lines 59-61), otherwise the decoded value, made a list, is the result (lines 56-57) |
| SpecParser.SelectFallback | src/tools/chart_generator.py:45-61 | with no bracket pair and a text that does not decode, the result is the one request {sql: text, chart_type: "bar", title: "Gráfico"} exactly when `json.loads` raised JSONDecodeError and the upper-cased text contains SELECT; any other exception (caught at line 59), or no SELECT, gives [] |
| SpecParser.WholeTextDecodes | src/tools/chart_generator.py:47-57 | with no bracket pair, a decodable text is the result: a list kept as it is, in order, and any other value wrapped in a one-element list |
| SpecParser.SameSliceSameSpecs | src/tools/chart_generator.py:41-44 | two cleaned texts with the same bracketed slice give the same requests |
| SpecParser.BracketedTextIsClean | src/tools/chart_generator.py:35-43 | a reply that is a bracketed text with no "```" in it (single backticks allowed) is its own cleaned form and its own match |
| SpecParser.ArrayReplyYieldsItems | src/tools/chart_generator.py:35-57 | a reply made of a decodable JSON array with no "```" in it, with any text around it that holds no backtick, no '[' before and no ']' after (whitespace, newlines, prose), gives the array's elements, in order |
| SpecParser.FramedNoFence | src/tools/chart_generator.py:35 | text around such an array, with no backtick of its own, holds no "```", and no "```" or "```json" can begin in it and run on into what follows |
| SpecParser.FenceInsideArray | src/tools/chart_generator.py:35 | every "```" in text around an array lies inside the array when the text around it holds no backtick |
| SpecParser.ClosedByBracket | src/tools/chart_generator.py:35 | a fence pattern cannot begin before the array's closing ']' and run past the end of the text, and after that ']' there is no backtick to begin it |
| SpecParser.ClosingFenceVanishes | src/tools/chart_generator.py:35 | a closing "```" followed by backtick-free text leaves a suffix of that text after both deletions |
| SpecParser.FencesRemoved | src/tools/chart_generator.py:35 | the two deletions turn prose + "```json" + middle + "```" + prose into the first prose + the middle + a suffix of the second prose, for a middle holding no "```" that no fence can run out of |
| SpecParser.ArrayOutlivesStrip | src/tools/chart_generator.py:35-43 | stripping only cuts into the surrounding prose, so the search still finds exactly the array |
| SpecParser.LocateArray | src/tools/chart_generator.py:35-43 | once the fences are gone, stripping and the bracket search find exactly the array, when no '[' comes before it and no ']' after it |
| SpecParser.NoiseAroundArrayIgnored | src/tools/chart_generator.py:35-57 | prose + "```" + text + array + text + "```" + prose parses as the array alone, whatever tag follows the opening fence ("```json\n[...]\n```", "```JSON\n[...]\n```", "```\n[...]\n```"), provided nothing before the array has a '[', nothing after it has a ']', none of the four surrounding texts has a backtick and the array has no "```" |
| SpecParser.JsonFencedArrayIgnored | src/tools/chart_generator.py:35-57 | the case of an opening "```json": both fences go and the array alone is parsed |
| SpecParser.BareFencedArrayIgnored | src/tools/chart_generator.py:35-57 | the case of an opening "```" not followed by "json": both fences go and any tag left, such as "JSON", holds no '[', so the array alone is parsed |
| SpecParser.NoJsonTag | src/tools/chart_generator.py:35 | a text that opens with a tag and then a '[' or a backtick starts with "json" only when the tag does |
| SpecParser.BareFenceNotTagged | src/tools/chart_generator.py:35 | three backticks not followed by "json" do not form "```json" |
| SpecParser.BareFenceKept | src/tools/chart_generator.py:35 | three backticks followed neither by "json" nor by a backtick survive the deletion of "```json" |
| SpecParser.BareFencesRemoved | src/tools/chart_generator.py:35 | with an opening "```" not followed by "json", the two deletions leave the first prose + the middle + a suffix of the second prose |
| SpecParser.JsonFenceParts | src/tools/chart_generator.py:35 | "```json" is "```" followed by "json" |
| Columns.NamesInPicks | src/tools/chart_generator.py:81-82 | the names listed are exactly those of the selected columns; the list is empty exactly when no column is selected; it starts with the first selected column |
| Columns.Without | src/tools/chart_generator.py:106 | defines the filter that drops the date columns; never longer than its input; `WithoutKeeps` states which names stay |
| Columns.DateColumns | src/tools/chart_generator.py:85-103 | the loop collects, in column order, the datetime columns and the object columns that parse as dates (the latter only when there are rows) |
| Columns.NamesIn | src/tools/chart_generator.py:81-82 | defines the names of the selected columns, in column order; at most one per column; `NamesInPicks` states which |
| Columns.WithoutKeeps | src/tools/chart_generator.py:106 | the filtered list keeps exactly the names that are not date columns, and keeps them all when there are no date columns |
| Columns.CategoricalExcludesDates | src/tools/chart_generator.py:82-106 | every categorical name left is a text column's name and is the name of no date column |
| Columns.ChooseAxes | src/tools/chart_generator.py:105-118 | defines the axis choice; `AxesFollowClasses` states it in terms of the column classes, and `SelectAxes` is the step-by-step form |
| Columns.SelectAxes | src/tools/chart_generator.py:105-118 | the step-by-step assignment of x and y gives the axes of `ChooseAxes` |
| Columns.AxesFollowClasses | src/tools/chart_generator.py:109-118 | no axes exactly when no column is numeric; otherwise y is the first numeric column, and x is the first date column, else the first categorical column, else the first column |
| Columns.AllNumericSharesAxis | src/tools/chart_generator.py:109-118 | with every column numeric, x and y are both the first column |
| Columns.TextDatesBecomeXAxis | src/tools/chart_generator.py:85-118 | a text column that parses as dates is a date column and becomes x, with the numeric column as y |
| Columns.IsEmpty | src/tools/chart_generator.py:77 | defines `df.empty`: no rows or no columns |
| Columns.Selects | src/tools/chart_generator.py:81-91 | defines the three column classes: `select_dtypes(include=['number'])`, `select_dtypes(include=['object', 'string'])`, and the date test (datetime dtype, or object dtype that parses as dates when there are rows) |
| ChartKinds.ResolveKind | src/tools/chart_generator.py:122-139 | defines the chain of substring tests; `ResolveKindIsFirstHit` states which kind it picks |
| ChartKinds.ResolveKindIsFirstHit | src/tools/chart_generator.py:122-139 | the kind is that of the first keyword of pie, line, scatter, area, funnel, box, violin, histogram that the type contains; it is bar exactly when the type contains none of them |
| ChartKinds.ResolvedKindHasItsKeyword | src/tools/chart_generator.py:122-137 | a resolved kind other than bar means its keyword is the first one contained |
| ChartKinds.LineBeatsBar | src/tools/chart_generator.py:124-139 | "line bar" resolves to line |
| ChartKinds.BarRequestIsBar | src/tools/chart_generator.py:138-139 | the default type "bar" resolves to bar |
| ChartKinds.UnknownKindIsBar | src/tools/chart_generator.py:138-139 | "unknown-kind" resolves to bar |
| ChartKinds.DescriptivePieRequest | src/tools/chart_generator.py:70-123 | "Gráfico de Pizza (pie)", lower-cased, resolves to pie |
| ChartGenerator.ReadRequest | src/tools/chart_generator.py:69-71 | a request is read exactly when it is a JSON object whose `sql` and `chart_type`, when present, are strings |
| ChartGenerator.RequestFields | src/tools/chart_generator.py:69-71 | the query is the given `sql` stripped (so no whitespace at either end) and is empty when absent; the chart type is the given `chart_type` lower-cased (so no ASCII capital) and is "bar" when absent; the title is the given value or "Visualização" |
| ChartGenerator.DefaultChartTypeIsLower | src/tools/chart_generator.py:70 | the default "bar" is unchanged by lower-casing |
| ChartGenerator.ProcessSpec | src/tools/chart_generator.py:69-146 | defines what one request contributes: abort when it cannot be read, skip on an empty query, a failed or empty query, or missing axes, else one result; the lemmas `AbortOrSkipBeforeQuery`, `FailedOrEmptyQuerySkipped`, `NoNumericColumnSkipped` and `EmittedResult` state each case |
| ChartGenerator.Outcomes | src/tools/chart_generator.py:68-146 | the outcomes of the requests, one per request, in order |
| ChartGenerator.Collect | src/tools/chart_generator.py:68-152 | defines the results of a run of outcomes: the emitted ones, in order, up to the first abort; `CollectOrigins` and `CollectFrom` state it |
| ChartGenerator.Batch | src/tools/chart_generator.py:63-150 | defines the results of a batch as those collected from its outcomes; `BatchOrigins`, `AbortEndsBatch`, `SkipIsLocal` and `BatchExtends` state its properties |
| ChartGenerator.RenderSpec | src/tools/chart_generator.py:69-146 | the step-by-step handling of one request gives that request's outcome |
| ChartGenerator.RunBatch | src/tools/chart_generator.py:63-150 | the loop's results are the batch of the requests |
| ChartGenerator.RenderAt | src/tools/chart_generator.py:68-69 | rendering request i gives outcome i |
| ChartGenerator.OutcomeAt | src/tools/chart_generator.py:68 | outcome i is what request i gives |
| ChartGenerator.CollectFrom | src/tools/chart_generator.py:68-148 | one loop turn: an abort adds nothing more; otherwise the request's result, if any, comes before the results of the later requests |
| ChartGenerator.Emitted | src/tools/chart_generator.py:141-146 | a request adds at most one result, and adds one exactly when it emits |
| ChartGenerator.GenerateChart | src/tools/chart_generator.py:33-155 | with a connection, the results are the batch of the requests recovered from the reply; without one they are [] |
| ChartGenerator.CollectOrigins | src/tools/chart_generator.py:68-146 | result k is the emission of outcome origin[k]; the origins strictly increase; no abort comes before any of them |
| ChartGenerator.BatchOrigins | src/tools/chart_generator.py:68-146 | at most one result per request, in request order, with result k emitted by request origin[k] |
| ChartGenerator.AbortEndsBatch | src/tools/chart_generator.py:69-71 | after an aborting request nothing more is added (handler at line 152) |
| ChartGenerator.SkipIsLocal | src/tools/chart_generator.py:73-78 | a skipped request changes nothing else: the batch equals the batch without it (also lines 147-148) |
| ChartGenerator.BatchAppend | src/tools/chart_generator.py:68 | with no abort in the first part, the batch of two parts is the first part's batch followed by the second's |
| ChartGenerator.BatchExtends | src/tools/chart_generator.py:68-146 | one more request extends the batch by exactly its own result, if it has one |
| ChartGenerator.OutcomesAppend | src/tools/chart_generator.py:68 | the outcomes of two parts, one after the other, are the outcomes of the whole |
| ChartGenerator.AbortOrSkipBeforeQuery | src/tools/chart_generator.py:69-73 | a request aborts exactly when it cannot be read; a request with an empty query is skipped |
| ChartGenerator.NoNumericColumnSkipped | src/tools/chart_generator.py:111-120 | a result with no numeric column produces no chart |
| ChartGenerator.FailedOrEmptyQuerySkipped | src/tools/chart_generator.py:75-78 | a query that raises or returns no rows produces nothing (also lines 147-148) |
| ChartGenerator.EmittedResult | src/tools/chart_generator.py:120-146 | an emitted result carries the request's title, its stripped, non-empty query, the non-empty table that query returned, the kind resolved from the lower-cased type, and the axes of `ChooseAxes`; y is the first numeric column and neither axis name is empty |
| ChartGenerator.SalesRequestReads | src/tools/chart_generator.py:69-71 | the example request reads as written |
| ChartGenerator.SalesAxes | src/tools/chart_generator.py:81-118 | a text column of names and a numeric column of totals give x = names and y = totals |
| ChartGenerator.SalesStep | src/tools/chart_generator.py:69-146 | the example request emits one bar chart of totals by name |
| ChartGenerator.SalesBatch | src/tools/chart_generator.py:63-150 | a batch of the example request alone holds that one chart |
| ChartGenerator.SalesByEmployee | src/tools/chart_generator.py:33-155 | end to end: a reply holding one bar request on a grouping query gives exactly one bar chart, with the names as x, the totals as y and the query's rows |

## Left out

- The language-model call and the prompt (lines 21-34). The reply is an input string. An exception from the call (returning [] at line 61) is not modelled.
- `json.loads` is the parameter `decode`. Only its results matter, with the kind of exception it raises.
- JsonValues.Json: JSON numbers are integers only. The pipeline never computes with a number, but a numeric `title` is passed into the results as it is, and a float title (such as `2.5`) cannot be represented.
- Database access: `connect()`, `pd.read_sql` and `conn.close()` are the parameters `connects` and `run`. The database is treated as fixed during a batch, so the same query gives the same table. The connection that stays open when an exception escapes at line 152 is not modelled.
- `pd.to_datetime` is the parameter `parsesAsDates`. Warning suppression is not modelled.
- Plotly figure construction (lines 123-139): a result keeps only its kind and its two axes. An exception raised by a plotting call would be caught at line 147 and skip the request. This is not modelled: the model always emits once the axes exist.
- `print` logging throughout.
- Strings.Lower: ASCII letters only. Python's `str.lower()` also maps other Unicode capitals (for example, `"Ä".lower()` is `"ä"`). That only matters for requested types written with non-ASCII capitals.
- Strings.Upper: ASCII letters only. Python's `str.upper()` also maps other Unicode letters (for example, `"ſ".upper()` is `"S"`, so `"ſelect"` passes the SELECT test in Python but not in the model).
- Columns.NamesIn: column names are taken to be distinct. With duplicate names, pandas' `df[col]` returns a frame rather than a column, and the model does not follow that.
- Column dtypes are reduced to five families: number, datetime, object, pandas string, and other. Cell values are carried but never inspected.
- The Streamlit UI (`src/ui/layout.py`, `main.py`), `src/tools/data_analyst.py`, the database scripts and the settings are not part of this model.
