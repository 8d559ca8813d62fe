# Funnel dashboard row pipeline

A Dafny model of the row pipeline of the Streamlit dashboard
`enhanced_funnel_dashboard_with_percent.py`. The dashboard loads a table of
marketing-qualified leads (MQLs), one row per lead. It derives a region, a
freemail flag and nine stage indicators for each lead. It filters the leads
by region, company size and email type. It then draws two funnels:
marketing (MQL to sales opportunity) and sales (opportunity to closed won).
Each funnel stage shows its count and a "% of Previous" label.

The model is split into these modules:

- `Cells` (`cells.dfy`): the cells a CSV reader delivers. `Missing` stands
  for pandas' NaN. The module also holds Python's `== True` / `== False`
  on a cell, and the KeyError a missing column raises.
- `Text` (`text.dfy`):
  - `str.lower()` and `in` on strings;
  - `str(n)`;
  - the `,` thousands separator;
  - the `.0%` format code, taken on an exact rational.
- `Frames` (`frame.dfy`): the table as read from the CSV, column lookup,
  and the search for the freemail column.
- `Derive` (`derive.dfy`): the derived columns of lines 17–37.
  - `DeriveColumns` is a method that works in the order the script does.
  - `DerivedFrom` says what each derived row must contain.
- `Filters` (`filters.dfy`): the filter chain of lines 45–56.
  - `FilterChain` is a method that rebinds the filtered table step by step,
    as the script does.
  - `Filtered` states the whole chain at once, as one conjunction of
    conditions.
- `Funnel` (`funnel.dfy`): stage counts, `pct_change().fillna(1)`, the
  percent strings and the labels.
- `Dashboard` (`dashboard.dfy`): one run, from a frame and a filter
  choice to the two funnels.

Three points of the code are easy to misread:

- **Percentages.** The column is named "% of Previous" (line 68), which
  suggests the share of the previous stage. But `pct_change` computes the
  relative change `c[i]/c[i-1] - 1`. Counts 10, 5, 2, 0 therefore print
  "(100%)", "(-50%)", "(-60%)", "(-100%)"; `Funnel.HalvingShowsMinusFifty`
  proves this.
- **Empty steps.** `fillna(1)` fills every NaN, not only the first entry.
  So a step from 0 to 0 also prints "(100%)". A step from 0 to a positive
  count prints "(inf%)".
- **Missing freemail column.** Line 26 only calls `st.error`, and the
  script goes on without `is_freemail`. The run fails only when an email
  filter other than "All" is chosen. That failure is the KeyError of line
  54 or line 56.

## Model

| member | source | states |
|---|---|---|
| Derive.CountryGroup | enhanced_funnel_dashboard_with_percent.py:18 | the country group is never missing, and is "United States" exactly when the country is "US" or "United States" |
| Derive.RegionOfCountry | enhanced_funnel_dashboard_with_percent.py:18-19 | region takes only the values "US" and "Non-US"; it is "US" exactly for countries "US" and "United States"; a missing country becomes "Unknown" and so "Non-US" |
| Derive.RegionName | enhanced_funnel_dashboard_with_percent.py:19 | "US" exactly for the group "United States", "Non-US" for every other group; RegionOfCountry states it per country |
| Text.Lower | enhanced_funnel_dashboard_with_percent.py:22 | lower-casing keeps the length and maps each character on its own |
| Text.LowerChar | enhanced_funnel_dashboard_with_percent.py:22 | A to Z map to a to z, every other character is kept |
| Text.ContainsIff | enhanced_funnel_dashboard_with_percent.py:22 | the substring scan succeeds exactly when the word occurs at some position |
| Text.Contains | enhanced_funnel_dashboard_with_percent.py:22 | Python `in` on strings; ContainsIff states it is true exactly when the word occurs at some position |
| Text.TooLongNotContained | enhanced_funnel_dashboard_with_percent.py:22 | a word longer than the text is never found in it |
| Frames.FreemailColumns | enhanced_funnel_dashboard_with_percent.py:22 | the list comprehension holds every column whose lower-cased name contains "freemail", only those, once each, in column order |
| Frames.IsFreemailName | enhanced_funnel_dashboard_with_percent.py:22 | the name lower-cased contains "freemail"; FreemailInAnyCase and ShortNameIsNotFreemail state its consequences |
| Frames.FirstFreemail | enhanced_funnel_dashboard_with_percent.py:23-24 | `freemail_col[0]`, when present, is a column position of the frame |
| Frames.FirstFreemailIsFirst | enhanced_funnel_dashboard_with_percent.py:22-26 | there is no source for `is_freemail` exactly when no column name contains "freemail"; otherwise the source is the first such column |
| Frames.FreemailInAnyCase | enhanced_funnel_dashboard_with_percent.py:22 | the search ignores case: letters that lower-case to "freemail" make a freemail column |
| Frames.ShortNameIsNotFreemail | enhanced_funnel_dashboard_with_percent.py:22 | a name shorter than "freemail" never matches |
| Frames.FreemailSearchIgnoresCase | enhanced_funnel_dashboard_with_percent.py:22-24 | with columns "Country" and "Is_FreeMail", `is_freemail` is read from the second one |
| Frames.IndexOf | enhanced_funnel_dashboard_with_percent.py:18 | a column lookup finds the position of the named column, and fails exactly when the frame lacks it |
| Frames.Column | enhanced_funnel_dashboard_with_percent.py:29 | `df[name]` gives one cell per row, or fails (KeyError) exactly when the column is absent |
| Cells.EqualsBoolExclusive | enhanced_funnel_dashboard_with_percent.py:31 | no cell equals both True and False, and a missing cell equals neither |
| Cells.NotNa | enhanced_funnel_dashboard_with_percent.py:29-37 | `notna()`: the cell is not NaN; StageTestMeaning states the stage flags built on it |
| Cells.EqualsBool | enhanced_funnel_dashboard_with_percent.py:31 | `== True` / `== False`: a bool equal to it, or the integer 1 / 0; EqualsBoolExclusive and StageTestMeaning state its meaning |
| Derive.SourceColumn | enhanced_funnel_dashboard_with_percent.py:29-37 | each stage indicator is read from one of the columns the script requires |
| Derive.StageTestMeaning | enhanced_funnel_dashboard_with_percent.py:29-37 | a dated stage is reached exactly when its cell is not missing; the conversion exactly when the cell is True or 1 |
| Derive.StageTest | enhanced_funnel_dashboard_with_percent.py:29-37 | `notna()` for the dated stages, `== True` for the conversion; StageTestMeaning states both |
| Derive.FlagsDetermineStages | enhanced_funnel_dashboard_with_percent.py:29-37 | two sets of nine indicators that agree on every stage flag are the same |
| Derive.StageKeyError | enhanced_funnel_dashboard_with_percent.py:29-37 | lines 29-37 fail exactly when some stage column is missing, and then name a missing stage column |
| Derive.SourceLine | enhanced_funnel_dashboard_with_percent.py:29-37 | each stage column is read on one line between 29 and 37 |
| Derive.StageKeyErrorIsFirst | enhanced_funnel_dashboard_with_percent.py:29-37 | the stage error names the stage column read on the earliest line that the CSV lacks; every stage read on an earlier line was found |
| Derive.StageFoundBefore | enhanced_funnel_dashboard_with_percent.py:29-37 | reaching the lookup of one stage means every stage read on an earlier line was found |
| Derive.KeyError | enhanced_funnel_dashboard_with_percent.py:18-42 | the derivation fails exactly when a required column is missing, and the error names a required column the CSV lacks |
| Derive.LookupColumn | enhanced_funnel_dashboard_with_percent.py:18-42 | every lookup on lines 18-42 that can raise KeyError (line 18, lines 29-37, line 42) reads one of the required columns; lines 19 and 24 read columns the script has just created or found |
| Derive.LookupLine | enhanced_funnel_dashboard_with_percent.py:18-42 | every lookup sits on a line between 18 and 42 |
| Derive.KeyErrorIsFirstFailure | enhanced_funnel_dashboard_with_percent.py:18-42 | the error is the one Python raises: the lookup on the earliest line (18, then 29-37, then 42) whose column is missing, every earlier lookup having succeeded |
| Derive.FlagColumn | enhanced_funnel_dashboard_with_percent.py:29-37 | an indicator column has one flag per row, each the stage test of that row's cell, or fails exactly when the source column is absent |
| Derive.DeriveStages | enhanced_funnel_dashboard_with_percent.py:29-37 | the nine indicators of every row are the stage tests of its cells, or the KeyError of the first stage column the CSV lacks |
| Derive.DeriveColumns | enhanced_funnel_dashboard_with_percent.py:18-37 | fails exactly on a missing required column, naming the first; otherwise one derived row per lead, each as `DerivedFrom` describes, and `is_freemail` exists exactly when some column name contains "freemail" |
| Derive.DerivedRowIsUnique | enhanced_funnel_dashboard_with_percent.py:18-37 | each lead has exactly one derived row |
| Filters.WhereIsSubsequence | enhanced_funnel_dashboard_with_percent.py:47 | a boolean mask keeps an order-preserving subsequence of the rows |
| Filters.WhereCount | enhanced_funnel_dashboard_with_percent.py:47 | a mask keeps every copy of a passing row and no copy of a failing one |
| Filters.WhereWhere | enhanced_funnel_dashboard_with_percent.py:45-56 | masking twice in a row is masking once with both conditions |
| Filters.WhereMonotone | enhanced_funnel_dashboard_with_percent.py:45-56 | a weaker mask keeps a superset of the rows, in the same order |
| Filters.Where | enhanced_funnel_dashboard_with_percent.py:47 | `df[mask]`: the rows the mask keeps, in order; WhereIsSubsequence and WhereCount state what it keeps |
| Filters.FilterChain | enhanced_funnel_dashboard_with_percent.py:45-56 | the chain of reassignments yields exactly the rows that pass every active filter; an email filter with no `is_freemail` column, and nothing else, raises KeyError("is_freemail") |
| Filters.RegionPasses | enhanced_funnel_dashboard_with_percent.py:46-49 | "US only" keeps region "US", "Non-US only" keeps "Non-US", "All" keeps every row; FilteredKeepsPassingRows states survival through it |
| Filters.SizePasses | enhanced_funnel_dashboard_with_percent.py:51-52 | an empty size selection keeps every row, otherwise `isin`; FilteredKeepsPassingRows states survival through it |
| Filters.EmailPasses | enhanced_funnel_dashboard_with_percent.py:53-56 | "Freemail only" keeps `is_freemail == True`, "Corporate only" keeps `== False`; MissingFreemailFailsEmailFilters states the NaN case |
| Filters.Passes | enhanced_funnel_dashboard_with_percent.py:46-56 | a row passes the chain when it passes all three filters; FilteredKeepsPassingRows states survival through it |
| Filters.Filtered | enhanced_funnel_dashboard_with_percent.py:45-56 | the rows that pass every active filter, in order; FilterChain equals it, and FilteredIsSubsequence, FilteredKeepsPassingRows and NarrowingKeepsFewer state its properties |
| Filters.FilteredIsSubsequence | enhanced_funnel_dashboard_with_percent.py:45-56 | filtering only removes rows: the result is an order-preserving subsequence of the table |
| Filters.FilteredKeepsPassingRows | enhanced_funnel_dashboard_with_percent.py:46-56 | a row survives exactly when it passes region, company size and email filters, keeping all its copies |
| Filters.NoSelectionKeepsAll | enhanced_funnel_dashboard_with_percent.py:45-56 | with region "All", no company size and email "All", the filtered table is the derived table |
| Filters.NarrowingKeepsFewer | enhanced_funnel_dashboard_with_percent.py:45-56 | adding or narrowing a selection never brings a row back, so never raises the row count |
| Filters.MissingFreemailFailsEmailFilters | enhanced_funnel_dashboard_with_percent.py:53-56 | a lead with a missing freemail cell passes neither "Freemail only" nor "Corporate only" |
| Filters.USOnlyKeepsUSRows | enhanced_funnel_dashboard_with_percent.py:46-47 | "US only" on two US and two German leads keeps the two US leads in table order |
| Funnel.CountTrue | enhanced_funnel_dashboard_with_percent.py:60 | a stage sum is never more than the number of rows |
| Funnel.CountTrueIsRowsReached | enhanced_funnel_dashboard_with_percent.py:60-62 | a stage sum is the number of rows whose indicator is set |
| Funnel.Measured | enhanced_funnel_dashboard_with_percent.py:59-62 | every stage count, `len` or sum, is at most the number of filtered rows |
| Funnel.Counts | enhanced_funnel_dashboard_with_percent.py:64-67 | the Count column has one entry per stage, each at most the number of filtered rows |
| Funnel.FillNa | enhanced_funnel_dashboard_with_percent.py:68 | after `fillna` no entry is NaN |
| Funnel.Step | enhanced_funnel_dashboard_with_percent.py:68 | `cur / prev - 1` in float arithmetic: finite after a positive count, NaN for 0/0, infinite for k/0; InfiniteOnlyAfterZero and PercentRelativeChange state its cases |
| Funnel.PctChange | enhanced_funnel_dashboard_with_percent.py:68 | `pct_change()`: NaN first, then one step per entry; PercentAfterNothing and PercentRelativeChange state its entries |
| Funnel.ChangeText | enhanced_funnel_dashboard_with_percent.py:68 | `f"({x:.0%})"`, with "(inf%)" and "(nan%)"; HundredPercent, PercentFlat and PercentEmptied state its values |
| Funnel.PercentColumn | enhanced_funnel_dashboard_with_percent.py:68 | the `% of Previous` column of lines 68 and 85; PercentAfterNothing, PercentRelativeChange and HalvingShowsMinusFifty state its entries |
| Funnel.HundredPercent | enhanced_funnel_dashboard_with_percent.py:68 | the filled value 1 prints as "(100%)" |
| Funnel.PercentAfterNothing | enhanced_funnel_dashboard_with_percent.py:68 | entry 0 and every 0 to 0 step print "(100%)"; a step from 0 to a positive count prints "(inf%)" |
| Funnel.PercentRelativeChange | enhanced_funnel_dashboard_with_percent.py:68 | after a positive count the entry is the relative change (c[i]-c[i-1])/c[i-1], at least -100%, with a minus sign exactly when the count drops |
| Funnel.PercentFlat | enhanced_funnel_dashboard_with_percent.py:68 | an unchanged positive count prints "(0%)" |
| Funnel.PercentEmptied | enhanced_funnel_dashboard_with_percent.py:68 | a fall from a positive count to zero prints "(-100%)" |
| Funnel.InfiniteOnlyAfterZero | enhanced_funnel_dashboard_with_percent.py:68 | an entry is infinite exactly when a positive count follows a zero, and finite otherwise |
| Funnel.ExactDrop | enhanced_funnel_dashboard_with_percent.py:68 | a fall by exactly k percent of the previous count prints "(-k%)" |
| Funnel.DropInPercent | enhanced_funnel_dashboard_with_percent.py:68 | a fall by k percent of the previous count is a relative change of -k/100 |
| Funnel.RatioMinusOne | enhanced_funnel_dashboard_with_percent.py:68 | `cur / prev - 1` equals the relative change `(cur - prev) / prev` |
| Funnel.HalvingShowsMinusFifty | enhanced_funnel_dashboard_with_percent.py:68 | counts 10, 5, 2, 0 print "(100%)", "(-50%)", "(-60%)", "(-100%)" |
| Text.RoundHalfEven | enhanced_funnel_dashboard_with_percent.py:68 | the rounded value is within one half of its input, and even on a tie |
| Text.PercentOf | enhanced_funnel_dashboard_with_percent.py:68 | a percent string ends in "%" and starts with "-" exactly when the value is negative |
| Text.Decimal | enhanced_funnel_dashboard_with_percent.py:69 | `str(n)` is a non-empty run of digits with no leading zero unless n is 0 |
| Text.DecimalValue | enhanced_funnel_dashboard_with_percent.py:69 | reading back the digits of `str(n)` gives `n` |
| Text.Grouped | enhanced_funnel_dashboard_with_percent.py:69 | `f"{n:,}"` is non-empty and starts with a digit; its layout is stated by GroupedDigits and GroupedCommas |
| Text.GroupedDigits | enhanced_funnel_dashboard_with_percent.py:69 | dropping the commas from `f"{n:,}"` leaves exactly `str(n)` |
| Text.GroupedCommas | enhanced_funnel_dashboard_with_percent.py:69 | in `f"{n:,}"` a character is a comma exactly when its distance from the right end is a multiple of four, so a comma precedes every group of three digits |
| Text.DecimalThousands | enhanced_funnel_dashboard_with_percent.py:69 | from 1000 up, `str(n)` is `str(n // 1000)` followed by the last three digits |
| Text.DecimalShort | enhanced_funnel_dashboard_with_percent.py:69 | numbers below 1000 have at most three digits |
| Text.GroupedValue | enhanced_funnel_dashboard_with_percent.py:69 | dropping the separators from `f"{n:,}"` and reading the digits gives back `n` |
| Text.GroupedSmall | enhanced_funnel_dashboard_with_percent.py:69 | below one thousand no separator is written |
| Funnel.LabelShowsCount | enhanced_funnel_dashboard_with_percent.py:69 | a label is the separated count, a line break, then the percent string, and its first line reads back as the count |
| Funnel.Label | enhanced_funnel_dashboard_with_percent.py:69 | the count with separators, a line break, then the percent; LabelShowsCount states it |
| Funnel.FunnelShape | enhanced_funnel_dashboard_with_percent.py:64-69 | a funnel keeps its stage order, counts every stage on its own within the row count, opens with "(100%)", and labels each stage with its count and percent |
| Funnel.BuildFunnel | enhanced_funnel_dashboard_with_percent.py:64-69 | one segment per stage with stage, count, percent and label; FunnelShape states every field |
| Funnel.MarketingFunnel | enhanced_funnel_dashboard_with_percent.py:64-69 | the marketing funnel; MarketingFunnelShape states its stages and counts |
| Funnel.SalesFunnel | enhanced_funnel_dashboard_with_percent.py:79-86 | the sales funnel; SalesFunnelShape states its stages and counts |
| Funnel.MarketingFunnelShape | enhanced_funnel_dashboard_with_percent.py:59-69 | the marketing funnel has MQLs, Lead Stage 2, Lead Stage 3, Converted to Opportunity; the first counts every filtered row, each other one counts its reached rows and at most that many |
| Funnel.SalesStagesTotal | enhanced_funnel_dashboard_with_percent.py:79-84 | the sales stages total the six opportunity indicators in order |
| Funnel.SalesFunnelShape | enhanced_funnel_dashboard_with_percent.py:72-86 | the sales funnel has its six stages in order, each counting the rows that reached it, within the row count, opening with "(100%)" |
| Funnel.EmptyTableFunnels | enhanced_funnel_dashboard_with_percent.py:59-86 | with no rows left, every count is 0 and every percent is "(100%)" |
| Funnel.LaterStageMayExceedEarlier | enhanced_funnel_dashboard_with_percent.py:60-68 | stages are counted on their own: a later stage can outnumber an earlier one, and a step up from 0 prints "(inf%)" |
| Dashboard.ChartsShape | enhanced_funnel_dashboard_with_percent.py:58-86 | both funnels have their stage count; the first marketing stage counts every filtered row and no stage counts more; both open with "(100%)" |
| Dashboard.Charts | enhanced_funnel_dashboard_with_percent.py:58-86 | both funnels of a filtered table; ChartsShape and TopOfFunnel state their shape |
| Dashboard.TopOfFunnel | enhanced_funnel_dashboard_with_percent.py:45-59 | the top of the marketing funnel is at most the number of leads, and exactly that number with no filter chosen |
| Dashboard.DerivedRowsAreUnique | enhanced_funnel_dashboard_with_percent.py:18-37 | a frame has one derived table, so a run's charts depend only on the frame and the selection |
| Dashboard.Run | enhanced_funnel_dashboard_with_percent.py:15-86 | fails exactly on a missing required column, or on an email filter with no freemail column, with that KeyError; otherwise it returns the charts of the derived table under the chosen filters |

## Left out

- Loading the CSV from the remote sheet, and the `@st.cache_data` cache
  (lines 10-15), are network I/O. The frame is a parameter of `Dashboard.Run`.
- The Streamlit page is user interface and is not modelled: page config,
  sidebar widgets, titles, columns, and the `st.error` message of line 26.
  The three widget choices are the `Selection` parameter.
- The options offered by the company-size multiselect (line 42) are not
  modelled. The model reads `Company Size` there only for its KeyError.
  A selection may hold any cells.
- The Plotly funnel figures (lines 96-116) are an external renderer. The
  model stops at the stage, count and label columns handed to them.
- CSV parsing, dtype inference and which strings pandas reads as NaN are
  not modelled. A cell is already missing, text, boolean or integer.
  Float cells are not modelled.
- The in-place column additions to `df` are not modelled as mutation. Each
  lead's derived values are collected in a `DerivedRow`.
- The original CSV columns of a lead are not kept in its derived row. Only
  the columns the pipeline reads later are kept.
- Text.PercentOf: rounds the exact rational `100 * x` half to even.
  Python rounds the binary floating-point value, which can differ at exact
  ties. The sign follows the code: any negative `x` prints a "-", including
  "-0%".
- Text.LowerChar: lower-cases only the letters A to Z. Python's
  `str.lower()` also maps other letters. No other character lower-cases to
  a lone letter of "freemail", so the column search is unaffected.
