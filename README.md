# Workforce dashboard pipeline — a Dafny model

`HR_Visual.py` is a Streamlit dashboard over a census table of workers by
State, District and Industry_Category, with one count column per
worker class, area and gender (for example `Main_Workers-Rural-Males`).
Between loading the CSV and drawing the charts, the script runs a data
pipeline. This project models that pipeline and proves properties of it:

- **Column names** (`columns.dfy`, module `Columns`): every name is
  stripped and its spaces become underscores. Columns starting with
  `Main_Workers` or `Marginal_Workers` are the measure columns; the others
  are identifier columns.
- **Reshape** (`reshape.dfy`, module `Reshape`): the wide table is a class
  `WideTable` whose column index is renamed in place. It is melted into one
  record per (row, measure column). Each record's label is split on `-` into
  worker class, area and gender, and both remapping tables are applied. The
  count is parsed, and records whose count does not parse are dropped.
- **Filter chain** (`filters.dfy`, module `Filters`): states, then districts
  (only in the district-wise view and only when the selection is not empty),
  then one worker class, area and gender, then industries. The sidebar
  widgets' values are parameters. Each option list is computed from the rows
  that survived the earlier stages. The chain stops when the geography stage
  leaves nothing.
- **Grouped sums** (`groups.dfy`, module `Groups`): a generic
  `groupby(key).sum()` that drops null keys, and its sorted form.
- **Views** (`views.dfy`, module `Views`): the percentage column, the
  industry and geography views, the heatmap pivot, the investment table, the
  skill-gap table, the gender view, the dependency-risk table and the
  urban/rural view.
- `seqs.dfy` (module `Seqs`) holds the shared helpers: `Option`, mask
  selection `Where`, sums, flattening of blocks and a descending insertion sort.

Pandas missing values are `None` in a `Cell = Option<string>`. `isin` is
set membership, so a null cell matches a null in the selected set, as
pandas' `isin` does. Equality with a selected value (`==`) never holds for a
null cell or a null selection. Counts are integers; sums, percentages,
shares and scores are exact reals. The parser that `pd.to_numeric` applies
to one string is the parameter `parse: string -> Option<int>`.

Where the specification of the dashboard and the code disagree, the model
follows the code:

- The code does not make every Worker_Type one of Main and Marginal, or
  every Gender one of Male, Female and Total. A token outside the remapping
  table passes through unchanged. A measure column such as
  `Main_Workers_Total-Rural-Males` has the prefix but decodes to the worker
  type `Main_Workers_Total` (`Reshape.MeasureLabelKeepsUnknownType`).
- A label is not rejected when it does not have exactly three tokens.
  Missing tokens become null and tokens after the third are ignored.
- The industry and geography views add up to the total count of the
  filtered rows whose key is not null, not of all filtered rows. Pandas'
  group-by drops null keys.
- The default district selection is every non-null district of the selected
  states. It therefore drops the rows with a null district. When all of
  those districts are null, the option list is empty, the district stage is
  skipped and those rows stay (`Filters.DefaultDistricts`).
- A district whose industries are all null has `Industry_Count` 0. The code
  does not guard this division.

## Model

| member | source | states |
|---|---|---|
| Columns.TrimStart | HR_Visual.py:29 | `lstrip` removes exactly the leading whitespace: the result is a suffix, everything cut off is whitespace, and the result does not start with whitespace |
| Columns.TrimEnd | HR_Visual.py:29 | `rstrip` removes exactly the trailing whitespace, symmetrically |
| Columns.ReplaceSpaces | HR_Visual.py:29 | replacing `" "` by `"_"` keeps the length, turns every space into `_`, keeps every other character, and leaves no space |
| Columns.NormaliseName | HR_Visual.py:29 | a normalised name has no surrounding whitespace and no space |
| Columns.NormaliseNameIdempotent | HR_Visual.py:29 | normalising a name twice is the same as normalising it once |
| Columns.NormaliseAll | HR_Visual.py:29 | the new index has the same length, and each name is the normalised name at the same position |
| Columns.NormaliseAllClean | HR_Visual.py:29 | no name of the new index has surrounding whitespace or a space |
| Columns.NormaliseAllIdempotent | HR_Visual.py:29 | normalising the column index twice is the same as normalising it once |
| Reshape.WideTable.NormaliseColumns | HR_Visual.py:29 | the columns become the normalised names, the rows do not change, and the table stays rectangular |
| Columns.ClassifySpec | HR_Visual.py:34-35 | a name is a measure column iff it is a column with one of the two prefixes; every other column is an identifier column; both lists keep the table order; together they hold every column exactly as often as the table does |
| Reshape.KeyColumnsAreIds | HR_Visual.py:34-35 | State, District and Industry_Category are identifier columns, and both column lists lie within the table |
| Reshape.MeltLength | HR_Visual.py:40-45 | the melt has exactly rows × measure columns records |
| Reshape.MeltAt | HR_Visual.py:40-45 | record `j·rows + i` carries row `i`'s identifier cells, the label of measure column `j`, and row `i`'s cell in that column |
| Reshape.MeltIds | HR_Visual.py:40-45 | every melted record has one identifier cell per identifier column |
| Reshape.MeltColumn | HR_Visual.py:40-45 | the block of the melt for one measure column has one record per row, in row order |
| Reshape.Split | HR_Visual.py:50 | splitting on `-` gives at least one part, no part contains `-`, and joining the parts with `-` gives back the label |
| Reshape.SplitJoin | HR_Visual.py:50 | splitting the join of hyphen-free parts gives back the parts |
| Reshape.DecodeLabelTokens | HR_Visual.py:50-61 | a label decodes token by token: worker class through its table (Main_Workers→Main, Marginal_Workers→Marginal, others unchanged), area verbatim, gender through its table (Males→Male, Females→Female, Persons→Total, others unchanged); a missing token is null and tokens after the third are ignored |
| Reshape.DecodeExample | HR_Visual.py:50-61 | `Main_Workers-Rural-Males` decodes to (Main, Rural, Male) |
| Reshape.MeasureLabelKeepsUnknownType | HR_Visual.py:34-55 | a measure column can decode to a worker type outside {Main, Marginal} |
| Reshape.DecodeAll | HR_Visual.py:50-63 | decoding keeps the number and order of records and decodes each one on its own |
| Reshape.Coerce | HR_Visual.py:68-69 | the kept records are exactly those whose count parses, in order; each carries its parsed count and every other field unchanged |
| Reshape.CoerceDropsUnparsable | HR_Visual.py:68-69 | kept records plus records with an unparsable count make up all the records |
| Reshape.DecodeKeepsCounts | HR_Visual.py:50-69 | decoding does not change which counts fail to parse |
| Reshape.LongTableRowCount | HR_Visual.py:40-69 | the long table has rows × measure columns records, less the melted records whose count does not parse |
| Reshape.WideTable.ToLong | HR_Visual.py:34-69 | the method computes the long table of the current columns and rows, with the row-count identity above |
| Filters.DefaultStates | HR_Visual.py:97-101 | the default state selection is exactly {Tamilnadu} when Tamilnadu is an option, and empty otherwise |
| Filters.DefaultStatesOf | HR_Visual.py:94-120 | on first load the state selection is non-empty iff some row of the long table is in Tamilnadu, and the geography stage then keeps only Tamilnadu's rows |
| Filters.FilterChain | HR_Visual.py:119-160 | the chain stops iff the geography stage leaves no row; otherwise the rows are the selected rows, the worker-class, area and gender options come from the geography survivors and are not empty, and the industry options come from the category survivors |
| Filters.SelectedSpec | HR_Visual.py:119-160 | each stage keeps a subsequence of its input with rows unchanged, the row count never grows, and a row is selected iff it is in the long table and passes every stage |
| Filters.DefaultDistricts | HR_Visual.py:103-124 | with the default district selection, the geography stage drops exactly the null-district rows of the selected states, or nothing when all their districts are null |
| Filters.DefaultIndustries | HR_Visual.py:152-160 | the default industry selection keeps every row of the category stage |
| Filters.NullCategorySelectsNothing | HR_Visual.py:143-147 | a null worker class, area or gender selection selects no row |
| Groups.GroupSumSpec | HR_Visual.py:190-193 | the grouped sums have one group per distinct non-null key and no other; each key's total is the sum of its values (0 for a key with no values); the grand total is the sum of all keyed values |
| Groups.GroupSumMembers | HR_Visual.py:190-193 | every group holds the sum of its key's values |
| Groups.ViewSpec | HR_Visual.py:190-195 | the sorted view is in non-increasing order of total and lists each non-null key once with its sum; its totals add up to the sum of the keyed values |
| Seqs.SortDesc | HR_Visual.py:194 | `sort_values(ascending=False)` returns a permutation in non-increasing order |
| Seqs.WhereWhere | HR_Visual.py:143-147 | applying two masks one after the other is the same as applying their conjunction |
| Views.ValuesSum | HR_Visual.py:165-173 | in percentage mode the Value column of a non-empty selection adds up to 100; otherwise the value column adds up to the total count |
| Views.IndustryViewSpec | HR_Visual.py:190-195 | the industry view lists each non-null industry once, sorted by total from largest to smallest; each total is the count of that industry's rows, and the totals add up to the count of the rows with an industry |
| Views.GeoViewSpec | HR_Visual.py:207-214 | the same for the geography view, keyed by District in the district-wise view and by State otherwise |
| Views.IndustryPercentViewSpec | HR_Visual.py:165-195 | in percentage mode the industry view lists each non-null industry once, sorted from largest to smallest, each with its rows' count as a percentage of the selection's total count |
| Views.GeoPercentViewSpec | HR_Visual.py:165-214 | the same for the geography view in percentage mode |
| Views.PivotPercentSpec | HR_Visual.py:165-236 | in percentage mode the pivot has the same rows and columns, and each cell is its combination's count as a percentage of the selection's total count |
| Views.PercentViewTotal | HR_Visual.py:165-195 | in percentage mode, when every row has a key, the view's percentages add up to 100 |
| Views.CountGroupsSpec | HR_Visual.py:190-193 | grouped counts have one group per distinct non-null key, each the total count of its rows, adding up to the count of the keyed rows |
| Views.PivotSpec | HR_Visual.py:230-236 | the pivot rows are exactly the industries, and its columns exactly the geographies, that occur together in some row; every cell is the total count of its rows, and 0 when there are none; the cells add up to the count of the rows with both keys |
| Views.Score | HR_Visual.py:273-275 | a score exists iff the district has at least one industry |
| Views.ScoreTimesCount | HR_Visual.py:273-275 | a district's score times its industry count gives back its total |
| Views.InvestmentTableSpec | HR_Visual.py:264-275 | the investment table lists each non-null district once, with the count of its rows, its number of distinct non-null industries, and a score (when that number is not 0) equal to the count divided by that number |
| Views.InvestmentOrder | HR_Visual.py:277-279 | the sorted table is a permutation of the table; scored districts come first, from the highest score down |
| Views.SkillGapSpec | HR_Visual.py:290-294 | the skill-gap table lists each (district, industry) pair that occurs once, with the count of its rows, and nothing else |
| Views.SharesSumToOne | HR_Visual.py:331-338 | within a district whose counts do not sum to 0, the shares add up to 1 |
| Views.RiskView | HR_Visual.py:340 | the risk table holds exactly the dependency rows whose share exceeds 0.6 |
| Views.NoShareMeansZeroCounts | HR_Visual.py:331-340 | with non-negative counts, a district gets no share only when all its counts are 0, the case where pandas' share is NaN and never passes the 0.6 test |
| Views.AtMostOneRiskPerDistrict | HR_Visual.py:331-340 | with non-negative counts, no district has two rows in the risk table |
| Views.GenderViewSpec | HR_Visual.py:307-315 | each (industry, gender) bar is the count of the long-table rows in the selected states with the selected worker class, whatever their district, area or industry selection |
| Views.UrbanRuralSlice | HR_Visual.py:354-368 | the urban/rural view ignores the area selection: its slice for area `a` is the count that the filter chain selects when `a` is the chosen area |

## Left out

- Streamlit (page set-up, sidebar widgets, `st.stop`, KPI metrics, tables, messages, download button) and Plotly charts are presentation. The widget values are the fields of `Filters.Selection`, and `Filters.ChainResult.Stopped` stands for the warning and the stop.
- Which business use case is shown (the `use_case` select box) is not modelled. Each use-case table is a function of its own.
- `pd.read_csv` of a fixed file path and `@st.cache_data` are I/O and caching. The model starts from the loaded columns and rows.
- Identifier columns other than State, District and Industry_Category are dropped when a record is decoded. Only the CSV download reads them.
- Reshape.ToNumeric: which strings `pd.to_numeric` accepts, and float counts, are abstracted as the parameter `parse`.
- Reshape.DecodeLabel: pandas raises `KeyError` when no label in the table has a second or a third token, because the split frame then lacks that column. The model gives null instead.
- Filters.StateOptions: option lists are sets. Their sorted order is presentation. The `TypeError` that `sorted` raises on a mix of null and text is not modelled.
- Views.Values: percentage mode requires a non-zero total for a non-empty selection. When the total is 0, pandas gives NaN for a 0 count and ±inf for a positive or negative count (possible only when counts of both signs cancel); neither is modelled.
- Views.Score: a district with no non-null industry gets no score. Pandas gives `inf` for a positive total, `-inf` for a negative total and NaN for 0; `sort_values` puts `inf` first, `-inf` after every finite score and NaN last, whereas `Views.InvestmentView` lists every unscored district last.
- Views.Share: a district whose counts sum to 0 gets no share. When all its counts are 0 (always the case with non-negative counts, `Views.NoShareMeansZeroCounts`), pandas gives NaN, which never exceeds 0.6, so the risk table is the same. When counts of both signs cancel, pandas gives `inf` to a positive count, which enters the risk table; the model leaves that row out.
- Seqs.SortDesc: the order among rows with equal totals is not modelled. Pandas' default sort is not stable either.
- Groups.GroupSum: pandas lists groups in key order. The unsorted tables (skill gap, gender, urban/rural, pivot) are modelled with their groups in no particular order.
- The `Value` column added in place at line 167, and the columns that `long_data` gains and drops in place at lines 52-68, are modelled as functions that return the new column or table.
- Floating-point rounding is not modelled; all arithmetic is exact.
