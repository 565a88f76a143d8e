# Type inference and type coercion for uploaded tables

This project models the part of the react-django backend that works out column types.
When a table is uploaded, the backend reads it and guesses the type of every column with
`infer_and_convert_data_types` (backend/api/utils/infer_data_types.py). The guess
runs an ordered chain of classifiers. The first one whose test passes converts the
column:

1. numeric (nullable Int64 when every parsed value is integral, float64 otherwise);
2. boolean;
3. complex;
4. datetime;
5. verbose durations such as "3 days";
6. ISO-8601 year durations such as "P2Y";
7. categorical.

A column that no classifier accepts stays text.

After the user confirms or overrides the guessed types, `convert_file`
(backend/api/views.py) converts each named column to the type asked for. It records
every column whose conversion raises in an error map, and the reply is a success only
when that map is empty. Durations in ISO-8601 form are parsed by
`parse_iso_8601_duration`.

The modules are:

- `Frames` (frames.dfy) holds the shared vocabulary:
  - cell values, pandas dtypes and their wire names;
  - the data-frame library's cell parsers, as opaque partial functions;
  - exact rational thresholds;
  - the `Frame` class, whose column list the two loops update in place.
- `Patterns` (patterns.dfy) writes out the regular expressions of the source as
  predicates: the complex-number search, the date shapes, the duration words and `P<n>Y`.
  They follow Python's `re` rules. `match` anchors at the start, `search` may start
  anywhere, and `$` also matches just before a final newline.
- `IsoDuration` (iso_duration.dfy) is `parse_iso_8601_duration`. It has a renderer for
  the duration grammar and a parser proved to invert it.
- `Inference` (inference.dfy) is the classifier chain. It is specified one column at a
  time, and the method `InferAndConvert` is the loop over the columns of a frame.
- `Coercion` (coercion.dfy) is the per-column conversion of `convert_file`.
  `CoerceColumn` is the date branch's format loop, `ConvertAll` specifies the loop over
  the requested mapping, and `ConvertColumns` is that loop, run in place on a frame.

Behaviours of the code worth knowing, all of which the model keeps:

- A column whose cells are all "0" or "1" is accepted by the numeric classifier first,
  so it becomes Int64 and not bool (`Inference.ZeroOneIsInt64`; see the Python version
  note under "Left out").
- The Int64 and float64 conversions write the converted column back before checking the
  30% missing limit. A column that fails that limit is therefore both reported and
  overwritten (`Coercion.NumericEntry`).
- On a column of text cells, the bool conversion maps any cell other than "True" or
  "False" to missing, and pandas turns missing into true. Among text cells only "False"
  therefore becomes false, and the conversion never fails (`Coercion.BoolEntry`; typed
  cells behave differently, see "Coercion.ConvertColumns" under "Left out").
- An empty column passes the boolean test and becomes bool (`Inference.EmptyColumnIsBool`).
- The complex classifier calls `complex` on every cell that matches the pattern. When one
  of them cannot be parsed, the exception leaves `infer_and_convert_data_types`, and no
  further column is looked at (`Inference.ComplexOutcome`, `Inference.InferColumns`).

## Model

| member | source | states |
|---|---|---|
| Frames.RatioGates | backend/api/utils/infer_data_types.py:19-22 | the integer cross-multiplied gates (at most, below, above one minus) agree exactly with comparing the ratio k/n against the threshold as a real number |
| Frames.IndexOf | backend/api/views.py:97-131 | `df[column]` finds the first column with that name; none is found exactly when no column has it |
| Patterns.IsComplexInfix | backend/api/utils/infer_data_types.py:7-12 | `is_complex` searches anywhere: text around a match keeps it a match |
| Patterns.ComplexLiteral | backend/api/utils/infer_data_types.py:9-10 | every "a+bj" and "a-bj" with digit runs a and b is recognised as complex |
| Patterns.NoSignNotComplex | backend/api/utils/infer_data_types.py:9-10 | text with no '+' or '-' is never recognised as complex |
| Patterns.DateShapeStartsWithDigits | backend/api/utils/infer_data_types.py:44-53 | every date shape that `str.match` accepts begins with at least two digits |
| Patterns.DurationPrefix | backend/api/utils/infer_data_types.py:64-74 | digits, optional whitespace and a unit word (singular or plural) at the start of a cell match a duration pattern, whatever follows |
| Patterns.ReplaceTail | backend/api/utils/infer_data_types.py:81-82 | text free of the pattern's first character, followed by the pattern once, has exactly that one occurrence replaced |
| Patterns.NumericDatesMatch | backend/api/utils/infer_data_types.py:44-53 | each of the five numeric layouts (YYYY-MM-DD, MM/DD/YYYY, DD-MM-YYYY, YYYY.MM.DD, YYYY/MM/DD), written with digits, is accepted by the date gate |
| Patterns.NamedMonthDateMatches | backend/api/utils/infer_data_types.py:50-53 | two digits, a whitespace character, a word, a whitespace character and four digits are accepted by the date gate |
| Patterns.IsoYearOf | backend/api/utils/infer_data_types.py:80 | "P" + digits + "Y" has the year shape, and its year count is the value of those digits |
| Patterns.ReplaceAllSkip | backend/api/utils/infer_data_types.py:81-82 | a replace passes unchanged over a prefix that does not contain the pattern's first character |
| IsoDuration.ReadGroups | backend/api/views.py:53-55 | the optional `(\d+)X` groups are read greedily; reading gives one group per tag, each well formed, and the groups rendered back followed by the rest are the input |
| IsoDuration.ParseFields | backend/api/views.py:53-57 | a full match yields well-formed fields whose rendering is exactly the input text |
| IsoDuration.RoundTrip | backend/api/views.py:53-57 | the duration grammar parses the rendering of any well-formed set of fields back to those fields |
| IsoDuration.MissingIffNoMatch | backend/api/views.py:55-57 | the result is NaN exactly when no well-formed set of fields renders to the text |
| IsoDuration.DurationOfMatch | backend/api/views.py:59-63 | a match gives 365·Y + 30·M + 7·W + D days and 3600·H + 60·M + S seconds, with an absent group counting as 0 |
| IsoDuration.MonthsThenMinutes | backend/api/views.py:53-63 | "M" before "T" means months (30 days) and after "T" means minutes (60 seconds) |
| IsoDuration.EmptyDurations | backend/api/views.py:53-63 | "P" and "PT" match and give a zero duration |
| IsoDuration.IsoCellsAt | backend/api/views.py:129 | applying the parser to a column parses each cell by itself |
| IsoDuration.IsoCellOutcome | backend/api/views.py:52-63 | a cell is missing exactly when it does not match; otherwise it is a non-negative span of the computed days and seconds |
| Inference.Count | backend/api/utils/infer_data_types.py:19 | a count of cells is at most the column length; it is zero exactly when no cell qualifies and full exactly when every cell does |
| Inference.Try | backend/api/utils/infer_data_types.py:16-93 | an accepting classifier gives a typed column of the same length; only the complex classifier can raise |
| Inference.RunChain | backend/api/utils/infer_data_types.py:16-96 | the chain always reaches a decision, keeps the column length, and raises only through the complex classifier |
| Inference.FirstDecisiveWins | backend/api/utils/infer_data_types.py:16-96 | the first classifier that does not decline decides the column, and later ones are skipped (`continue`) |
| Inference.AllDeclineIsText | backend/api/utils/infer_data_types.py:95-96 | the column stays text exactly when every classifier declines |
| Inference.DeclinedPrefix | backend/api/utils/infer_data_types.py:16-96 | classifiers that decline can be skipped without changing the outcome |
| Inference.NumericOutcome | backend/api/utils/infer_data_types.py:18-29 | numeric accepts exactly when the column is non-empty and the unparsed share is at most the error threshold; it gives Int64 exactly when every parsed value is integral; an unparsed cell is missing, and a parsed one holds its integer value in an Int64 column and its real value in a float64 column |
| Inference.DefaultErrorBoundary | backend/api/utils/infer_data_types.py:15-22 | under the default threshold 0.3, one unparsed cell in three makes numeric decline, and three in ten still passes |
| Inference.EmptyColumnIsBool | backend/api/utils/infer_data_types.py:18-36 | an empty column is declined by numeric and accepted as bool |
| Inference.ZeroOneIsInt64 | backend/api/utils/infer_data_types.py:18-29 | a non-empty column of "0" and "1" becomes Int64 with the values 0 and 1 |
| Inference.BooleanOutcome | backend/api/utils/infer_data_types.py:31-36 | once numeric declines, the column becomes bool exactly when its distinct values are among "0", "1", "True", "False", and each cell is true exactly when it is "1" or "True" |
| Inference.NoLaterBool | backend/api/utils/infer_data_types.py:38-96 | no classifier after the boolean one produces a bool column |
| Inference.ComplexOutcome | backend/api/utils/infer_data_types.py:38-41 | complex decides exactly when the share of matching cells exceeds one minus the error threshold; it raises exactly when a matching cell cannot be parsed; otherwise matching cells hold their value and the rest are missing |
| Inference.DateOutcome | backend/api/utils/infer_data_types.py:43-61 | datetime accepts exactly when some cell has a date shape and the unparsed share is at most the error threshold; each cell holds its parsed time, or is missing exactly when the parser rejects it |
| Inference.DateFallsThrough | backend/api/utils/infer_data_types.py:58-61 | a column rejected by the first four classifiers goes on to the duration and categorical classifiers |
| Inference.VerboseDurationOutcome | backend/api/utils/infer_data_types.py:63-76 | one cell starting with a number and a unit word makes the column a timedelta column, with no error gate, and each cell holds its parsed span, or is missing exactly when the parser rejects it |
| Inference.CategoricalOutcome | backend/api/utils/infer_data_types.py:85-93 | categorical accepts exactly when the distinct share is below the category threshold, and then the cells become labels |
| Inference.IsoYearRewriteAsWritten | backend/api/utils/infer_data_types.py:81-82 | as written, the replace chain turns "P<n>Y" into "<n> 365 days" |
| Inference.IsoYearTwoYears | backend/api/utils/infer_data_types.py:81-82 | as written, "P2Y" is handed to the duration parser as "2 365 days", not as the 730 days of two 365-day years |
| Inference.IsoYearOutcome | backend/api/utils/infer_data_types.py:79-83 | one cell "P<n>Y" makes the column a timedelta column, and that cell is 365·n days (corrected behaviour) |
| Inference.FirstRaised | backend/api/utils/infer_data_types.py:16-41 | the loop stops at the first column whose classification raises |
| Inference.InferColumns | backend/api/utils/infer_data_types.py:15-98 | names and lengths are kept; the call completes exactly when no column raises, and then every column holds its own classification |
| Inference.InferAndConvert | backend/api/utils/infer_data_types.py:15-98 | the loop updates the frame in place to exactly `InferColumns` of the old columns and keeps the frame well formed |
| Coercion.ParseTarget | backend/api/views.py:97-131 | a type name selects the branch that bears that name; a name no branch bears selects none |
| Coercion.TargetNamesRoundTrip | backend/api/views.py:97-131 | every branch's name selects that branch |
| Coercion.FirstFormat | backend/api/views.py:104-111 | the format loop picks the first format that parses every cell, after all earlier ones failed; it finds none exactly when every format fails |
| Coercion.Coerce | backend/api/views.py:97-131 | a conversion keeps the column length, and its dtype name is the requested name, except that Int64 may give float64 |
| Coercion.CoerceColumn | backend/api/views.py:97-131 | the method, with its for-else format loop, writes and fails exactly as `Coerce` specifies |
| Coercion.NumericTargets | backend/api/views.py:112-119 | Int64 and float64 always write the parsed column, and fail exactly when the missing share exceeds 0.3 as a real number |
| Coercion.ThirtyPercentPasses | backend/api/views.py:114 | exactly 30% missing does not fail |
| Coercion.DateTarget | backend/api/views.py:99-111 | when dayfirst parsing works on every cell it is used; otherwise the first format that parses every cell is used; if none does, the branch fails and the column is not written |
| Coercion.IsoTimeDeltas | backend/api/views.py:126-129 | when some cell starts with "P", each cell is parsed by itself as an ISO duration, an unmatched cell is missing, and the branch never fails (for a column of text cells) |
| Coercion.ApplyEntry | backend/api/views.py:95-134 | one pass changes only the named column, keeps names and lengths, and leaves the error map alone or records that column |
| Coercion.ConvertAll | backend/api/views.py:92-134 | the loop keeps names and lengths, leaves columns nobody named unchanged, and every recorded error is one of the requested entries |
| Coercion.ConvertIsolated | backend/api/views.py:92-134 | each entry's outcome depends only on that entry: an unknown type does nothing, a missing column is reported, and otherwise the column holds what its branch wrote and is reported exactly when the branch raised |
| Coercion.EntryResult | backend/api/views.py:92-134 | for an entry whose type names a branch and whose column exists, the column ends up as that branch wrote it and is reported exactly when the branch raised |
| Coercion.BoolEntry | backend/api/views.py:97-98 | a "bool" entry is never reported, and a cell ends up false exactly when it is "False" |
| Coercion.DateEntry | backend/api/views.py:99-111 | a "datetime64[ns]" entry is reported exactly when neither the day-first parse nor any fallback format parses every cell, and is then left as it was |
| Coercion.NumericEntry | backend/api/views.py:112-119 | an "Int64" or "float64" entry is always written, a cell is missing exactly when it does not parse, and the entry is reported exactly when more than 30% of the cells are missing |
| Coercion.ComplexEntry | backend/api/views.py:120-121 | a "complex128" entry is reported exactly when complex() rejects some cell, and the column is then left as it was; otherwise each cell holds its complex value |
| Coercion.TextEntry | backend/api/views.py:122-123 | an "object" entry is never reported and leaves the text as it was |
| Coercion.CategoryEntry | backend/api/views.py:124-125 | a "category" entry is never reported, and each cell becomes its own label |
| Coercion.IsoTimeDeltaEntry | backend/api/views.py:126-129 | a "timedelta64[ns]" entry with a cell starting with "P" is never reported, and the column holds the ISO parse of every cell |
| Coercion.GenericTimeDeltaEntry | backend/api/views.py:130-131 | a "timedelta64[ns]" entry with no cell starting with "P" is reported exactly when the generic parser rejects a cell, and is then left as it was; otherwise each cell holds its parsed duration |
| Coercion.SuccessIff | backend/api/views.py:92-145 | the reply is a success exactly when every requested entry converts without error |
| Coercion.ConvertColumns | backend/api/views.py:87-145 | with no mapping the frame is untouched and there is no reply; otherwise the frame becomes `ConvertAll` of the old columns and the reply is `ReplyFor` its error map |

## Left out

- Receiving the upload, saving and removing the temporary file, reading CSV or Excel, and
  building HTTP responses are I/O and are not modelled. The tables are given as columns
  of text cells.
- The outer `except` of `convert_file` is not modelled. It turns a failure outside the
  per-column loop, such as malformed JSON, into a 500 reply.
- Parsing `dataTypes` from JSON is not modelled. The mapping arrives as a list of
  distinct (column, type) pairs in the dict's order.
- When `dataTypes` is absent or empty, the view falls through without returning a
  response. The model answers `NoReply`.
- The data-frame library's parsers are opaque partial functions on one cell. These are
  `to_numeric`, `to_datetime` (with and without dayfirst or a format), `to_timedelta`
  and `complex`. Their grammars are not modelled. Neither is pandas' format inference
  over a whole column, which can make one cell's result depend on the others.
- Ratios are compared exactly. The source divides in floating point, so a ratio within
  rounding error of the threshold can be decided differently.
- The integer width `downcast='integer'` picks is not modelled. The Int64 target gives an
  Int64 column when every cell parses to an integral value, and float64 otherwise. The
  float64 target always gives float64 in the model. pandas gives int64 there when every
  cell is integer text.
- Coercion.Coerce: its dtype claim does not hold for an ISO column in which no cell
  matches the grammar, for example ["Px"]. There `parse_iso_8601_duration` gives NaN for
  every cell, and pandas' `apply` then builds a float64 column, not a timedelta64[ns]
  column. The model writes a timedelta column whose cells are all missing. The values
  agree, and `convert_file` never reports dtypes.
- `\d` and `\w` are ASCII-only. Python's `re` also accepts other Unicode digits and
  letters.
- Timestamps and durations are unbounded nanosecond counts. The bounds of pandas'
  64-bit types are not modelled, and neither is `timedelta` overflow for very large
  ISO amounts.
- `print` calls and the suppressed warnings are not modelled.
- Inference.ComplexStep: the exception that `complex` raises is modelled as a `Raised`
  verdict. That verdict ends `InferAndConvert` with `ok == false` and leaves the later
  columns unconverted. The exception's message and type are not modelled.
- Inference.IsoYearStep: the chain, and with it `InferColumn`, `InferColumns` and
  `InferAndConvert`, uses the corrected cell `IsoYearCell`, which gives 365·n days for a
  cell "P<n>Y". The code hands the text "<n> 365 days" to `to_timedelta` instead.
  `IsoYearCellAsWritten` models that text path, and the Findings table records the
  difference.
- Inference.NumericStep: assumes that `x.is_integer()` exists for every parsed value.
  When every cell parses as an integer, `to_numeric` gives an integer series, and the
  values handed to the lambda are Python ints. `int.is_integer` exists only from
  Python 3.12. On older interpreters the step raises AttributeError, and the upload
  answers with a server error. The model, `Inference.ZeroOneIsInt64` included, follows
  Python 3.12 or later. Two more cases are not modelled:
  - the cast to the nullable Int64 type holds 64-bit integers only. A column of integral
    values beyond that range, such as "10000000000000000000", makes the cast raise, and
    the upload answers with a server error. The model accepts it as Int64 with the
    exact value;
  - "inf" parses to an infinite float. It is not integral, so the column becomes
    float64. A `real` cannot hold it, so the model's parser can only reject such a cell,
    which then counts as missing.
- Coercion.ConvertColumns: takes a frame whose cells are all text. `convert_file` reads
  the file with `read_csv`/`read_excel` and does not cast the cells to strings, so an
  empty field is NaN and a numeric column is typed. What the model does not capture:
  - in a "timedelta64[ns]" column with a cell starting with "P" and an empty field,
    `parse_iso_8601_duration(nan)` raises TypeError in `re.fullmatch`, and the column
    is reported, while `Coercion.IsoTimeDeltas` says the branch never fails for text;
  - a numeric column asked for as "timedelta64[ns]" raises AttributeError on `.str`
    and is reported, while the model runs the generic parser;
  - NaN cells that reach the other branches, for example the bool branch, which makes
    them true;
  - the bool branch on typed cells. `read_csv` types a column of true/false text (in any
    of its spellings, "false" and "FALSE" included) as bool, and those values hit the
    `True`/`False` keys of the map and are kept, so they become false where the model
    gives true. An integer 0 equals `False` as a dictionary key, so a 0/1 column maps 0
    to false and 1 to true, where the model gives true for every cell.
- IsoDuration.IsoCell: its contract is stated by the lemma `IsoDuration.IsoCellOutcome`
  and not by the function itself.
- IsoDuration.IsoCells: its own contract states only the length. The value of each cell
  is stated by `IsoDuration.IsoCellsAt`.

## Findings

| source | as written | input that shows it | evidently intended | confidence | as-written member | corrected member |
|---|---|---|---|---|---|---|
| backend/api/utils/infer_data_types.py:81-82 | the replace chain turns "P<n>Y" into "<n> years", then "<n> days", then "<n> 365 days" | "P2Y" becomes "2 365 days", which is not 730 days | a cell "P<n>Y" is 365·n days | not executed; high that the text is produced, since the rewrite is pure string replacement | Inference.IsoYearTwoYears | Inference.IsoYearOutcome |
