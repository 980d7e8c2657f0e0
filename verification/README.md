# Budget cuts and university quality: the data-preparation core

The repository studies whether federal budget cuts affect the quality of
Brazil's largest federal universities. Quality is measured by the IGC index. A
Streamlit dashboard (`app.py`) and an exploratory analysis script
(`codigo/analise_exploratoria.py`) both prepare the same panel (one row per
university and year) and then run regressions on it. This project models
that preparation and the automatic conclusion drawn from the regression's
p-value, and proves what each step promises:

- **File choice** (`FileChoice`): the exploratory script takes the first name
  in the directory listing that contains "Base" or "dados" and ends in
  ".csv" or ".xlsx". The parser is chosen from the name: ".csv" is read as
  comma-separated UTF-8, then, if that fails, as semicolon-separated
  Latin-1; anything else is read as a spreadsheet.
- **Header cleaning** (`Strings`, `Columns`): every column label is stripped
  of surrounding whitespace, then renamed through the alias table
  (`Orçamento(GND 3+4)` → `Orcamento`, both `IGC (Contínuo)` spellings →
  `IGC`, `Ano ` → `Ano`).
- **Reading the panel** (`Table`): the four columns `Universidade`, `Ano`,
  `IGC` and `Orcamento` are read out of the cleaned table. A missing or
  repeated label is an error, as the exception pandas raises for it is. A
  cell of the wrong type is an error too, which is stricter than the scripts
  in some cases (see "## Left out").
- **Sorting** (`Ordering`): a stable sort by (Universidade, Ano), with
  strings in code-point order.
- **IGC repair** (`Repair`, `GroupBy`): per university, pandas' linear
  interpolation by row position. Leading gaps stay missing and trailing gaps
  take the last known value. A forward fill follows, and it is proved to
  change nothing.
- **Derived columns** (`Derived`, `Pipeline`): `Orcamento_Milhoes`,
  `ln_Orcamento`, `ln_IGC`, `Pos_Teto` (1 from 2017 on) and
  `Interacao = ln_Orcamento * Pos_Teto`.
- **Verdict** (`Interpretation`): the null hypothesis is rejected exactly
  when p < 0.05.

Missing values (pandas' NaN) and non-finite results are `None`. The
column-adding steps are methods that rebind the data frame, as the scripts
do. The properties are lemmas about the specification functions those
methods are proved against. The two loaders, `Pipeline.LoadPanel` and
`Pipeline.PrepareExploratory`, are proved to yield a panel satisfying
`Pipeline.Cleaned`:

- it holds the read rows, sorted by (Universidade, Ano), as a permutation;
- each university's IGC series is the interpolation of its original series;
- every derived column is computed from the row's own fields;
- every failure is reported.

## Model

| member | source | states |
|---|---|---|
| FileChoice.SelectFile | codigo/analise_exploratoria.py:17-22 | The result is absent exactly when no name in the listing qualifies (contains "Base" or "dados" and ends in ".csv" or ".xlsx"); otherwise it is the first qualifying name in listing order. |
| FileChoice.FirstQualifyingUnique | codigo/analise_exploratoria.py:19-22 | Only one position can be the first qualifying one, so the scan's choice is determined by the listing. |
| FileChoice.FormatOf | app.py:34 | A file is read as delimited text exactly when its name ends in ".csv" (case-sensitive); every other name goes to the spreadsheet reader. |
| FileChoice.Ingest | app.py:34-40 | A spreadsheet name gets the spreadsheet reader's result. For ".csv", reading succeeds iff the comma/UTF-8 or the semicolon/Latin-1 attempt succeeds, and the comma result wins when both do. This is the behaviour the rest of the model uses. |
| FileChoice.IngestUploadAsWritten | app.py:35-38 | The upload as the dashboard reads it: the fallback parses only what the failed first attempt left unread. With nothing consumed it is `Ingest`. |
| FileChoice.UploadFallbackLosesLatin1File | app.py:35-38 | A semicolon/Latin-1 upload that the comma attempt reads to the end is rejected as written, though reading the whole content would succeed. |
| Strings.StripIdempotent | app.py:43 | `str.strip()` applied twice equals applying it once. |
| Strings.StripShape | app.py:43 | The stripped label is a contiguous slice of the original, with only whitespace cut on either side and none left at either end. |
| Strings.StrLeTotal | app.py:51 | String order is total. |
| Strings.StrLeAntisymmetric | app.py:51 | Strings ordered both ways are equal. |
| Strings.StrLeTransitive | app.py:51 | String order is transitive. |
| Columns.Rename | app.py:44-48 | A label that is not a key of the alias table passes through unchanged. Where each key goes is stated per required column by `Columns.CanonicalSources` and `Columns.Normalize`. |
| Columns.NormalizeHeader | app.py:43-48 | One cleaned label per raw label, in order. What each cleaned label is, is stated by `Columns.Normalize`. |
| Columns.Normalize | app.py:43-48 | Rows are untouched and the header keeps its length. Every new label has no surrounding whitespace. Each label that does not strip to an alias key becomes its stripped self. For each position, iff: the new label is "Universidade" or "Ano" exactly when the raw label strips to that name; "IGC" exactly when it strips to "IGC", "IGC (Contínuo)" or "IGC (Continuo)"; "Orcamento" exactly when it strips to "Orcamento" or "Orçamento(GND 3+4)". |
| Columns.NormalizeExample | app.py:44-48 | A header "Orçamento(GND 3+4)" becomes "Orcamento". |
| Columns.AbsentAfterNormalize | app.py:43-48 | A required column that is absent after cleaning has no raw label that strips to its name or to one of its alias keys. |
| Columns.NormalizedIsTrimmed | app.py:43-48 | A cleaned label never has surrounding whitespace. |
| Columns.NormalizeNameIdempotent | app.py:43-48 | Cleaning a cleaned label changes nothing. |
| Columns.AliasTargetsAreFixed | app.py:44-47 | Every alias target is already stripped and is not itself an alias key. |
| Columns.AnoKeyNeverMatches | app.py:43-46 | Because stripping runs before renaming, no label ever reaches the rename as "Ano ". |
| Columns.AnoWithTrailingSpace | app.py:43-46 | A raw "Ano " header still ends up as "Ano", by stripping. |
| Columns.StripAno | app.py:43 | "Ano " strips to "Ano". |
| Columns.CanonicalSources | app.py:43-48 | Iff for each required column: a label becomes "Universidade"/"Ano" exactly when it strips to that name; "IGC" and "Orcamento" are reached exactly from the stripped canonical name or a stripped alias key. |
| Table.Occurrences | app.py:51-55 | A label occurs zero times exactly when it is absent from the header. |
| Table.IndexOf | app.py:51-55 | Returns the first position holding the label. |
| Table.Locate | app.py:51-55 | Column lookup succeeds exactly when the label occurs once, at that position. Otherwise it fails as missing (absent) or duplicate (repeated), as pandas raises. |
| Table.RowOf | app.py:51-59 | A data row reads successfully iff the university cell is text, the year is an integer, and IGC and budget are numbers or empty. The row's fields are those cells. Otherwise the failure names the row and a required column. |
| Table.ExtractRows | app.py:51-59 | Reading succeeds iff every data row reads, giving one row per data row in file order. |
| Table.Extract | app.py:51-59 | Success iff each required label occurs exactly once and every row reads; the result has one row per data row, in order. When a required label does not occur exactly once, the error is missing-column or duplicate-column for a required label that does not occur exactly once, and it is missing-column exactly when that label is absent. When all four occur once, the only possible error is a bad cell. |
| Table.ExtractMissingIgc | app.py:51-52 | A file without an IGC column fails, and the error names IGC. |
| Ordering.Insert | app.py:51 | Insertion adds one row. Sortedness, permutation and placement are `Ordering.InsertSorted`, `Ordering.InsertPermutes` and `Ordering.InsertStable`. |
| Ordering.SortRows | app.py:51 | The sort keeps the number of rows. Order, permutation and stability are `Ordering.SortRowsSorted`, `Ordering.SortRowsPermutes` and `Ordering.SortRowsStable`. |
| Ordering.SortRowsSorted | app.py:51 | The sorted rows are in (Universidade, Ano) order. |
| Ordering.SortRowsPermutes | app.py:51 | Sorting is a permutation of the rows. |
| Ordering.SortRowsPermutesBase | app.py:51 | The multiset of (Universidade, Ano, Orcamento) triples is unchanged by sorting. |
| Ordering.SortRowsStable | app.py:51 | Rows with equal keys keep their input order. |
| Ordering.InsertSorted | app.py:51 | Inserting into a sorted sequence keeps it sorted. |
| Ordering.InsertPermutes | app.py:51 | Insertion adds exactly the one row. |
| Ordering.InsertStable | app.py:51 | Insertion places the row before every equal-key row already present. |
| Ordering.GroupsContiguous | app.py:51-52 | In a sorted panel each university's rows form one block. |
| Ordering.KeyLeTotal | app.py:51 | Any two rows are ordered one way or the other. |
| Ordering.KeyLeTransitive | app.py:51 | The row order is transitive. |
| Ordering.KeyLeAntisymmetric | app.py:51 | Rows ordered both ways have the same key. |
| Ordering.SortedByKeys | app.py:52-59 | Changing IGC or derived columns cannot disturb the order. |
| Repair.Interpolate | app.py:52 | The series keeps its length. Its value at every position is `Repair.InterpolateAgrees`. |
| Repair.Ffill | codigo/analise_exploratoria.py:47 | The series keeps its length. Its value at every position is `Repair.FfillAgrees`. |
| Repair.InterpolateThenFfill | app.py:52 | The series keeps its length. `Repair.FfillAfterInterpolateIsIdentity` proves it is the interpolation. |
| Repair.InterpolateAgrees | app.py:52 | pandas' linear interpolation, computed as the library does it (the piecewise-linear interpolant through the known positions), equals the per-gap reading: known values stay and leading gaps stay missing. Interior gaps lie on the line between the neighbouring known values; trailing gaps take the last known value. |
| Repair.FfillAgrees | codigo/analise_exploratoria.py:47 | Forward fill keeps known values, gives each missing one the last known value before it, and leaves leading gaps missing. |
| Repair.NpInterpSegment | app.py:52 | Between consecutive known points, the interpolant is the straight line through them. |
| Repair.NpInterpBeyondLast | app.py:52 | Past the last known point, the interpolant is that point's value. |
| Repair.InterpolateKeepsKnown | app.py:52 | Known IGC values are never changed. |
| Repair.InterpolateInteriorGap | app.py:52 | A gap between known positions i and j is filled at k with the line value, by position. |
| Repair.InterpolateBetweenNeighbours | app.py:52 | An interior interpolated value lies between its two neighbouring known values. |
| Repair.InterpolateTrailingGap | app.py:52 | After the last known value every gap takes that value. |
| Repair.InterpolateLeadingGap | app.py:52 | Before the first known value nothing is filled. |
| Repair.InterpolateMissingExactlyLeading | app.py:52 | After interpolation a value is missing iff no known value occurs at or before it. |
| Repair.FfillAfterInterpolateIsIdentity | app.py:52 | The forward fill after the interpolation changes nothing. |
| Repair.InterpolateIdempotent | app.py:52 | Interpolating again changes nothing. |
| Repair.RepairExampleInteriorAndTrailing | app.py:52 | [10, _, 14, _] is repaired to [10, 12, 14, 14]. |
| Repair.RepairExampleLeading | app.py:52 | [_, 10, 12] keeps its leading gap. |
| GroupBy.ApplyFill | codigo/analise_exploratoria.py:46-47 | Each repair rule keeps the series' length. |
| GroupBy.GroupTransform | app.py:52 | The transform keeps the number of rows and changes nothing in a row but its IGC. The new IGC values are `GroupBy.GroupTransformLaw`. |
| GroupBy.TransformKeepsRank | app.py:52 | The transform keeps each row's university, and so its position within its group. |
| GroupBy.GroupTransformLaw | app.py:52 | After the groupby transform, each university's IGC series is the repair of that university's original series. |
| GroupBy.GroupTransformIsPerUniversity | app.py:52 | A university's repaired values depend only on its own rows. |
| GroupBy.TransformTwice | codigo/analise_exploratoria.py:46-47 | Two groupby passes are one groupby of the composed repair. |
| GroupBy.TwoPassesEqualOnePass | codigo/analise_exploratoria.py:46-47 | The script's separate interpolate and ffill passes give the dashboard's single pass, and both equal interpolation alone. |
| GroupBy.RepairIdempotent | app.py:52 | Repairing an already repaired panel changes nothing. |
| Derived.InMillions | app.py:53 | `Orcamento_Milhoes` is present iff the budget is, and times one million gives back the budget. |
| Derived.LogOf | app.py:54-55 | The logarithm is finite exactly for a positive value, and is then `ln` of it. |
| Derived.PostCap | app.py:58 | `Pos_Teto` is 1 iff the year is 2017 or later, and 0 iff it is earlier. |
| Derived.WithColumn | app.py:53-59 | Assigning a column sets it in every row, leaves the other columns and fields alone, and adds exactly that key. |
| Derived.MillionsColumn | app.py:53 | One value per row. The values are `Derived.InMillions` of each budget, as `Pipeline.AddMillionsColumn` states. |
| Derived.LogBudgetColumn | app.py:54 | One value per row. The values are `Derived.LogOf` of each budget, as `Pipeline.AddLogColumns` states. |
| Derived.LogIgcColumn | app.py:55 | One value per row. The values are `Derived.LogOf` of each IGC, as `Pipeline.AddLogColumns` states. |
| Derived.PostCapColumn | app.py:58 | One value per row. The values are `Derived.PostCap` of each year, as `Pipeline.AddCapColumns` states. |
| Derived.InteractionColumn | app.py:59 | One value per row. The values are the log budget times the indicator, as `Pipeline.AddCapColumns` and `Derived.InteractionMeaning` state. |
| Derived.InteractionMeaning | app.py:58-59 | For a positive budget, `Interacao` is ln(budget) from 2017 on and 0 before; without a positive budget it is not finite. |
| Pipeline.RowsRead | app.py:40-55 | An unreadable file is an error. Otherwise reading succeeds iff each required name occurs exactly once among the cleaned labels and every data row reads, giving one row per data row in file order. A failure is a bad cell when all four names occur once, and a missing or duplicate column otherwise. A missing column is a required name that no raw label strips to, nor to one of its alias keys. |
| Pipeline.RepairedPanel | app.py:51-52 | After sorting and repair the panel is sorted and has the same length. Keys and budgets match the sorted rows and are a permutation of the read ones. Each university's series is the interpolation of its sorted series. |
| Pipeline.DerivedOntoRepaired | app.py:51-59 | Deriving columns onto the repaired panel, changing nothing else, gives a cleaned panel. |
| Pipeline.SameBase | app.py:52-59 | Changing IGC and derived columns keeps keys, budgets and order. |
| Pipeline.OnlyDerivedColumns | app.py:53-59 | A loaded panel carries exactly the derived columns its loader adds. |
| Pipeline.AddMillionsColumn | app.py:53 | Adds `Orcamento_Milhoes` as the budget in millions, changing nothing else. |
| Pipeline.AddLogColumns | app.py:54-55 | Adds `ln_Orcamento` and `ln_IGC` as the logs of the row's own budget and IGC, changing nothing else. |
| Pipeline.AddCapColumns | codigo/analise_exploratoria.py:112-115 | Adds `Pos_Teto` and `Interacao`, the indicator times the log budget already present, changing nothing else. |
| Pipeline.CapAfterLogs | codigo/analise_exploratoria.py:112-115 | Cap columns added after the log columns complete the model columns. |
| Pipeline.AddDashboardColumns | app.py:53-59 | Adds exactly the dashboard's five columns, each a function of the row's own fields. |
| Pipeline.CleanForDashboard | app.py:51-59 | Sort, repair and derive give a cleaned panel of the read rows, with the budget in millions. |
| Pipeline.LoadPanel | app.py:32-64 | Every read or extraction failure is reported as that error. Otherwise the result is the cleaned panel of the read rows, with exactly the dashboard's derived columns. |
| Pipeline.CleanForAnalysis | codigo/analise_exploratoria.py:45-51 | Sort, interpolate, forward-fill and the log columns, then the cap columns of lines 112-115, give a cleaned panel of the read rows. |
| Pipeline.PrepareExploratory | codigo/analise_exploratoria.py:17-115 | No qualifying file is an error. Otherwise the first qualifying file's read failure is reported, or its cleaned panel is returned with exactly the analysis columns. |
| Interpretation.Verdict | app.py:146-151 | The null hypothesis is rejected iff the p-value is a number below 0.05; a NaN p-value or one of 0.05 or more keeps it. |
| Interpretation.VerdictMonotone | codigo/analise_exploratoria.py:135-142 | A smaller p-value never weakens the conclusion. |
| Interpretation.VerdictAtThreshold | codigo/analise_exploratoria.py:135-142 | The comparison is strict: p = 0.05 is not significant. |

## Left out

- The CSV and spreadsheet parsers are foreign code. They are parameters from the file's bytes to a table or to failure, and how pandas infers cell types is part of them.
- The natural logarithm is a parameter `ln`. It is applied only to positive values; a non-positive or missing argument gives `None`, which stands for NaN or -inf.
- Floating point is not modelled: arithmetic is exact on `real`, so rounding in the interpolation and in the division by one million is not captured.
- The regressions (pooled OLS, fixed and random effects, the difference-in-differences OLS), correlations, plots, sidebar filters, page layout and `st.cache_data` are not modelled. The p-value is an input to `Interpretation.Verdict`.
- Only the four required columns of a file are carried; other columns are dropped on reading, since nothing in the core reads them.
- Table.RowOf: cell types are stricter than pandas' dtypes. A year must be an integer cell, so a year column that pandas reads as floats (because a year is missing) is a `BadCell` error here, although the scripts would go on. The university must be a text cell, so a missing university (which pandas sorts last and leaves out of the groupby) and a numeric university column are `BadCell` errors here, although the scripts would go on. Text where a number is expected is also a `BadCell` error; pandas raises on it later, in the comparison, the interpolation or `np.log`.
- A required label that occurs twice after renaming is a `DuplicateColumn` error; pandas raises on it at a later step.
- Pipeline.PrepareExploratory: the cap indicator and the interaction (lines 112-115) are part of the loaded panel here. The script reaches those lines only after its correlation and regression sections (lines 64-106) run without raising, and those sections are not modelled.
- The exploratory script carries on with its later sections after a failed load (they are guarded by `'df' in locals()`); the model stops at the error.
- The Streamlit messages (`st.info`, `st.error`, `st.stop`) and the script's printed messages are not modelled; a failure is a `LoadError` value.
- Derived columns are the `DerivedColumn` datatype, and `Table.Label` gives the name each is stored under.

## Findings

| source | as written | input that shows it | evidently intended | confidence | as-written member | corrected member |
|---|---|---|---|---|---|---|
| app.py:36-38 | On failure of the comma/UTF-8 attempt, the semicolon/Latin-1 attempt reads the same upload object without rewinding it, so it parses only the bytes the first attempt left unread | A Latin-1, semicolon-separated `dados.csv` upload whose comma attempt consumes the stream before raising: the fallback parses an empty stream and the file is rejected | The fallback re-reads the whole file, as the exploratory script does by reopening its path | medium, not executed | FileChoice.UploadFallbackLosesLatin1File | FileChoice.Ingest |
