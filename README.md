# FinData survey dashboard — a verified model of its record processing

The dashboard (`app.py`) downloads a `;`-separated export of enumerator-administered
farmer surveys, cleans it, keeps the submissions of a date window and reports
submission counts, gender totals and per-column tallies as charts. This project models
the record processing under the download and the charts, stated as Dafny functions and
lemmas over a table of records. The only explicit loop, the nested loops of
`extract_financial_services`, is the method `FinancialServices.CountOptions`; the methods
`FinancialServices.ExtractFinancialServices` and `Dashboard.FinancialServiceCounts` call it
on the six fixed options and on the prepared table:

- **Enumerator substitution** (`Enumerators`): the fixed code-to-name table replaces
  codes in the submitter column; every other value, missing ones included, passes
  through. The same substitution is applied again to the rows of the map view.
- **Date-window filter** (`DateFilter`): rows are split into those with a start
  timestamp and those without; the dated rows are kept when they start on a day of
  the window; the result is the kept rows followed by every undated row.
- **Crop-type cleanup** (`CropCleanup`, `Strings`): every whitespace run is deleted
  and the rest title-cased, as `re.sub(r'\s+', '', s).title()`; missing values stay
  missing.
- **Counters** (`Tallies`): case-sensitive substring counts with missing values never
  matching (the male and female totals), and `value_counts`: one row per distinct
  non-missing value with its number of occurrences.
- **`extract_financial_services`** (`FinancialServices`): a dictionary of six fixed
  options, all at zero, updated in nested loops, one increment per answer that
  contains the option as a substring.
- **Composition** (`Dashboard`): substitute, filter, clean, then the headline metrics
  and tallies. The script computes the metrics and the submitter and platform tallies
  before it cleans the crop types; the cleanup touches no other column, so the results
  are the same in either order (`Dashboard.CleanupCommutesWithEarlierResults`).

Records (`Survey.Record`) carry only the columns these steps read. Timestamps are
whole seconds, already parsed; a timestamp that failed to parse is `None`. Dates are
day numbers, midnight of day `d` being second `d * 86400`; the sidebar's initial
window 2024-07-21 to 2024-07-22 is days 19925 to 19926. The two window dates are
parameters. Text is ASCII.

The window is modelled as "the start falls on a day from the start day to the end
day": from midnight of the start day up to, not including, midnight after the end
day. On whole-second timestamps this is exactly the script's comparison against end
day + 1 day − 1 second (`DateFilter.StartsWithinIsWrittenBound`). At pandas'
nanosecond resolution the two differ; see Findings.

`value_counts` is modelled as a list of (value, count) rows in order of first
appearance. Every count used by the charts comes from one of these rows.

## Model

| member | source | states |
|---|---|---|
| `Enumerators.Substitute` | app.py:27-41 | a value that is a code becomes `Some(name)` for that code; any other value, including a missing one, is returned unchanged; if no name is itself a code, the result is never a code |
| `Enumerators.SubstitutionPerRow` | app.py:41 | the table keeps its length and row order; in each row a code becomes its name, any other submitter stays as it is, and every other field is unchanged |
| `Enumerators.DashboardNamesAreNotCodes` | app.py:27-38 | none of the ten display names is also an enumerator code |
| `Enumerators.SubstitutionLeavesNoCodes` | app.py:41 | after the substitution no row's submitter is a code |
| `Enumerators.SubstituteWithoutCodes` | app.py:194 | substituting a table in which no submitter is a code changes nothing |
| `Enumerators.SubstituteIdempotent` | app.py:41 | applying the substitution twice gives the same table as applying it once |
| `Survey.CompletionSeconds` | app.py:66 | the duration is present exactly when both timestamps are; start + duration = end; it is negative exactly when the end precedes the start (not clamped) |
| `Survey.CompletionTimes` | app.py:66 | one duration per row, present exactly when the row has both timestamps, and then equal to end − start (start + duration = end) |
| `Strings.ContainsIffOccurs` | app.py:167 | the substring test is true exactly when the pattern occurs at some position of the text |
| `Strings.RemoveSpaceSpec` | app.py:145 | deleting whitespace runs leaves no whitespace; the result is a subsequence of the text whose length is the number of non-whitespace characters, so it is exactly the non-whitespace characters, each once and in their original order |
| `Strings.RemoveSpaceNoop` | app.py:145 | text without whitespace is left unchanged |
| `Strings.TitleAt` | app.py:145 | title-casing keeps the length; a character is upper-cased at the start and after a non-letter, and lower-cased after a letter |
| `Strings.TitleIdempotent` | app.py:145 | title-casing title-cased text changes nothing |
| `CropCleanup.CleanCropType` | app.py:145 | a missing crop type stays missing; a present one comes out with no whitespace and no longer than before |
| `CropCleanup.CleanCropTypeIdempotent` | app.py:145 | cleaning a cleaned crop type changes nothing |
| `CropCleanup.CleanCropColumnPerRow` | app.py:145 | the table keeps its rows and order; each crop type is missing exactly when it was, has no whitespace otherwise, and no other field changes |
| `CropCleanup.CleanCropColumnIdempotent` | app.py:145 | cleaning the crop column twice equals cleaning it once |
| `DateFilter.WindowEnd` | app.py:57 | the end bound, built as end day + 1 day − 1 s, is 23:59:59 of the end day, i.e. `end*86400 + 86399`, before the next midnight |
| `DateFilter.StartsWithinIsWrittenBound` | app.py:56-60 | on whole seconds, the day window keeps exactly the starts with `start_datetime <= start <= end_datetime`; at nanoseconds it is the whole-day window |
| `DateFilter.FilterByDateParts` | app.py:48-63 | the dated rows of the output are exactly the input's rows that start in the window, and its undated rows are exactly the input's undated rows, each in input order |
| `DateFilter.FilterByDateSize` | app.py:48-63 | output length = number of rows starting in the window + number of rows without a start |
| `DateFilter.FilterByDateMembership` | app.py:48-63 | a row is in the output exactly when it is in the input and has no start or starts in the window |
| `DateFilter.FilterByDateBounds` | app.py:56-60 | every output row with a start has `start_day*86400 <= start <= end_day*86400 + 86399` |
| `DateFilter.EmptyWindow` | app.py:56-63 | if the end day precedes the start day, the output is exactly the undated rows |
| `DateFilter.FilterByDateOrder` | app.py:60-63 | output = the in-window rows in input order, followed by the undated rows in input order; both parts are subsequences of the input |
| `DateFilter.RefilterWiderWindow` | app.py:48-63 | filtering the output again with the same or a wider window returns it unchanged |
| `DateFilter.FilterByDateIdempotent` | app.py:48-63 | filtering the output again with the same window returns the same sequence |
| `SubSecond.AsWrittenDropsLastSecond` | app.py:57-60 | as written, a start at 23:59:59.5 on the end day lies on the end day but is excluded |
| `SubSecond.WholeDaysIffDayInRange` | app.py:57-60 | the whole-day window keeps a timestamp exactly when its day lies between the start and end days |
| `SubSecond.AgreeOnWholeSeconds` | app.py:57-60 | on whole-second timestamps the written bound and the whole-day bound keep the same rows |
| `Tallies.CountContaining` | app.py:71-72 | a substring count never exceeds the number of non-missing entries |
| `Tallies.CountContainingDropsNulls` | app.py:71-72 | counting with `na=False` over the column equals counting over the column with missing values dropped |
| `Tallies.CountContainingIsCount` | app.py:71-72 | the substring count is the number of entries that are present and contain the pattern: each entry adds at most 1 and a missing one adds nothing |
| `Tallies.CountContainingConcat` | app.py:71-72 | the count over two stacked columns is the sum of their counts |
| `Tallies.TotalMales` | app.py:71 | the male total is at most the number of submissions |
| `Tallies.TotalFemales` | app.py:72 | the female total is at most the number of submissions |
| `Tallies.GenderLabelsAreCaseSensitive` | app.py:71-72 | "Female" matches "Female" but not "Male"; a missing gender matches neither |
| `Tallies.ValueCountsExact` | app.py:82 | the tally has one row per distinct non-missing value and no other rows; each row's count equals that value's number of occurrences and is positive |
| `Tallies.ValueCountsTotal` | app.py:183 | the counts of the tally sum to the number of non-missing entries |
| `FinancialServices.ServiceOptionsAreDistinct` | app.py:156-163 | the six service options are pairwise different keys |
| `FinancialServices.CountOptions` | app.py:165-168 | after the nested loops each option's entry equals the number of non-missing answers that contain it; the output lists the options in dictionary order |
| `FinancialServices.ExtractFinancialServices` | app.py:155-170 | exactly the six options in declaration order, each with the number of non-missing answers containing it (0 when none), never more than the number of non-missing answers |
| `FinancialServices.ExampleCounts` | app.py:155-170 | answers "Mobile Money, Bank Account", "None" and a missing one give Mobile Money 1, Bank Account 1, None 1, Personal Susu 0 |
| `Dashboard.ComputeMetrics` | app.py:69-72 | total submissions is the row count; the male and female totals never exceed it |
| `Dashboard.CleanupCommutesWithEarlierResults` | app.py:69-145 | cleaning the crop types (line 145) after the metrics (69-72) and the submitter and registration tallies (82, 124) changes neither the metrics nor the submitter and registration columns, so computing them before the cleanup, as the script does, gives the same results |
| `Dashboard.PrepareSize` | app.py:41-63 | the prepared table has one row per raw row that has no start or starts in the window; the substitution moves no row in or out |
| `Dashboard.PreparedHasNoCodes` | app.py:41-145 | no enumerator code is left in the prepared table's submitter column |
| `Dashboard.GeoResubstitutionIsNoOp` | app.py:192-194 | re-applying the substitution to any selection of prepared rows changes nothing |
| `Dashboard.SubmissionCountsHaveNoCodes` | app.py:41-82 | no row of the submissions-per-enumerator tally is labelled with an enumerator code |
| `Dashboard.FinancialServiceCounts` | app.py:172-174 | the financial-services chart lists the six options in declaration order, each with the number of prepared rows whose answer contains it, never more than the number of prepared rows |
| `Dashboard.CropCountsHaveNoSpace` | app.py:145-146 | every crop type in the crop tally is free of whitespace |
| `Dashboard.ExampleSubmission` | app.py:41-72 | an "enuma003" row from 09:00 to 09:15 on 2024-07-21, filtered with the initial window 2024-07-21 to 2024-07-22, is kept as "Seidu", lasts 900 s, and counts as one female and no male |
| `Dashboard.ExampleUndatedRowKept` | app.py:48-63 | a row without a start survives any window |

The rows above are about the functions that model the script's steps, each named in its
lemmas' statements: `Enumerators.SubstituteSubmitters` (app.py:41, 194),
`DateFilter.FilterByDate` (app.py:48-63), `CropCleanup.CleanCropColumn` (app.py:145),
`Survey.CompletionTimes` (app.py:66), `Tallies.TotalMales`/`TotalFemales` (app.py:71-72),
`Dashboard.Prepare` (their composition, app.py:41-145) and `Dashboard.SubmissionCounts`,
`PlatformRegistrationCounts`, `CropCounts`, `IncomeCounts` (app.py:82, 124, 146, 183).

The tallies of the platform-registration (`app.py:124`), crop (`app.py:146`) and income
(`app.py:183`) columns and of submitters (`app.py:82`) are one function,
`Tallies.ValueCounts`, applied to four columns in `Dashboard`; the two tally lemmas hold
for each of them.

## Findings

| source | as written | input that shows it | evidently intended | confidence | as-written member | corrected member |
|---|---|---|---|---|---|---|
| app.py:57-60 | the end bound is `end_date + 1 day − 1 s`, i.e. 23:59:59.000 of the end day, compared with `<=` | a submission starting at 23:59:59.500 on the end day: it is on the end day but later than the bound, so it is dropped | the comment asks to include the entire end date: keep starts before midnight after the end day | medium, not executed: pandas keeps sub-second precision, so the export would need fractional seconds | `SubSecond.AsWrittenDropsLastSecond` | `SubSecond.WholeDaysIffDayInRange` |

The main model uses the corrected whole-day window (`DateFilter.StartsWithin`). On
whole-second timestamps it keeps the same rows as the script
(`SubSecond.AgreeOnWholeSeconds`, `DateFilter.StartsWithinIsWrittenBound`).

## Left out

- The HTTP fetch, the secret URL and the non-200 error path (app.py:11-21) are network I/O. The records are the model's input.
- CSV parsing and `pd.to_datetime(..., errors='coerce')` (app.py:19, 44-45) are library parsing. Timestamps arrive as `Option<int>` seconds, `None` for an unparsable value.
- Time zones are not modelled: all timestamps are seconds on one clock.
- The sidebar date widgets (app.py:52-53) are user input. The window is two day-number parameters; their initial values are `Dashboard.DEFAULT_START_DAY` and `DEFAULT_END_DAY`.
- Floating-point work is left out: minutes as seconds / 60 (app.py:66), means (app.py:70, 93, 133) and rounding (app.py:77, 95, 134). `Survey.CompletionSeconds` gives the duration as integer seconds.
- Rendering is left out: `st.dataframe`, `st.metric`, `st.write`, Plotly figures and layout (app.py:24, 75-79, 86-202) are presentation calls into foreign libraries. So are the age histograms (app.py:105-121).
- The geographic view's column selection and its drop of rows without coordinates (app.py:192-193) are not modelled. `Dashboard.GeoResubstitutionIsNoOp` holds for any selection of prepared rows.
- `Tallies.ValueCounts`: rows are in order of first appearance; pandas sorts them by descending count. That order only orders the bars.
- `Strings.IsSpace`, `Strings.Title`: only ASCII is modelled. Non-ASCII whitespace and non-ASCII case mapping are not; a non-ASCII character is treated as an uncased, non-space character that is kept as it is.
- `Tallies.TotalMales`, `Tallies.TotalFemales`: the gender column is assumed to have been read as text. When it is blank in every row of the export, `pd.read_csv` (app.py:19) gives it a numeric type and `.str.contains` at app.py:71 raises, so the script stops before showing any metric; the model instead returns 0 for both totals. A column that is blank only in the rows kept by the date filter is still text, and there the script also gives 0.
- `FinancialServices.ExtractFinancialServices`, `FinancialServices.ExampleCounts`, `Dashboard.FinancialServiceCounts`: the answers arrive already parsed. `pd.read_csv` (app.py:19) with its default missing-value markers turns a cell that is exactly "None" (in pandas 2.x; also "NA", "N/A", "null" and others) into a missing value, so in the script an answer of just "None" never counts for the "None" option, only answers naming it beside other text do. The model counts a text "None" answer as the example shows; an exported "None" that the parser turned into a missing value is `None` here and counts for nothing.
- Non-text values in text columns are not modelled: a number in the gender, crop or services column is outside the model.
