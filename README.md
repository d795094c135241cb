# Pokémon comparison charts: the request-time data shaping, in Dafny

The repository is a small Flask site. A user picks six Pokémon from
`All_Pokemon.csv`; the `/analyze` handler checks the six form slots, keeps the
dataset rows whose `Name` was picked, and turns them into the tables the
charts are drawn from: a type-matchup heatmap (or, in the earlier version, one
matchup bar chart per Pokémon), radar and stacked-bar traces, a mean radar, a
histogram and, in the current version, one bar chart per Pokémon. The
`/exploratory` handler lays out one histogram per stat on a 2 × 3 grid.

There are two copies of the handlers: `app.py` (current) and
`pokemon_stats/app.py` (earlier). This project models the logic they share
once, and what differs in a module per file:

- `Seqs` (seqs.dfy): the set of a sequence's elements, distinctness, and
  `Keep`, the order-preserving filter behind list comprehensions with an `if`
  and boolean masks.
- `Selection` (selection.dfy): the six form slots (`Option<string>`) and the
  test both handlers apply to them.
- `Table` (table.dfy): a row (`Name`, integer stats, real matchup
  multipliers, each keyed by header), the dataset (header and rows in file
  order), `against_columns`, `str.replace` for the type labels, and the
  `isin` filter.
- `Stats` (stats.dfy): stat vectors, columns, the pandas mean (NaN on no
  rows) and the histogram's multiset.
- `Grid` (grid.dfy): the subplot cell of panel `i`, and the exploratory layout.
- `App` (app.dfy): the heatmap table, the per-Pokémon bar-chart loop, the
  exploratory loop and the `/analyze` handler of `app.py`.
- `Legacy` (legacy.dfy): the per-Pokémon matchup dictionary, the other stat
  order and the `/analyze` handler of `pokemon_stats/app.py`.

The loops of `app.py` that build the individual bar charts and the
exploratory panels are methods with loop invariants, proved against the
functions that describe one chart and the whole layout. The other loops in the
two files (the radar, stacked-bar and histogram loops, app.py:69, 84, 117 and
pokemon_stats/app.py:73, 89, 122, and the exploratory loop at
pokemon_stats/app.py:154) only append one plotly trace per step. They are
modelled as sequence comprehensions: `Stats.StatTraces`, the histogram
sequence in each `Analyze`, and `Grid.Layout`. The comprehensions, masks and
pandas calls are modelled as functions with lemmas.

Behaviour of the code that a reader might not expect, and that the model
keeps:

- The mean divides by the number of filtered rows, not by a fixed six. With no
  matching rows every mean is NaN.
- A selected name that is not in the dataset is dropped silently. The page is
  still rendered, with fewer rows; nothing recounts the rows.
- The filter does not deduplicate by name. A name listed twice in the dataset
  yields two rows.
- The selection is six form slots tested with `None in ... or len(set(...)) <
  6`, not a set of names.
- `pokemon_stats/app.py` orders the stats HP, Att, Def, Spe, Spa, Spd. This is
  not the order of `app.py`'s `stats_columns` (HP, Att, Def, Spa, Spd, Spe).
  `pokemon_stats/app.py` defines no `stats_columns` of its own.
- In `pokemon_stats/app.py` the matchup dictionary keeps insertion order. A
  name repeated in the dataset sits where its first row is but holds the chart
  of its last row.

## Model

| member | source | states |
|---|---|---|
| `Selection.AcceptsIffFilledAndDistinct` | app.py:54-59 | For the six slots, the handler's test (`None in` or fewer than six distinct values) accepts exactly when every slot is filled and no two slots are equal. |
| `Selection.Accepts` | app.py:58 | A selection the handler accepts has at least six slots, and every slot is filled. |
| `Selection.SelectedNames` | pokemon_stats/app.py:49-59 | Once every slot is filled, the selected names are the slot values in slot order. Distinct slots give distinct names. |
| `App.SelectionRowCount` | app.py:58-62 | An accepted selection over a dataset with unique names yields at most six rows. It yields exactly six if and only if every selected name is in the dataset. |
| `Table.Filter` | app.py:62 | A row is in the result if and only if it is a dataset row whose name is selected. |
| `Table.FilterKeepsDatasetOrder` | app.py:62 | The result is a subsequence of the dataset, in dataset order. Each selected row keeps its multiplicity and every other row has none. |
| `Table.FilterAppend` | app.py:62 | Filtering a concatenation of datasets filters each part. |
| `Table.FilterIgnoresAbsentNames` | pokemon_stats/app.py:62 | Two selections that agree on the dataset's names pick the same rows, so selected names absent from the dataset contribute nothing. |
| `Table.FilterNames` | pokemon_stats/app.py:62 | The names of the filtered rows are exactly the selected names that the dataset contains. |
| `Table.FilterCount` | app.py:62 | With unique dataset names, the row count equals the number of selected names the dataset contains. |
| `Table.FilterResolvesSelection` | app.py:62 | For distinct selected names over unique dataset names, there are never more rows than names. There are as many if and only if every name is found. |
| `Table.DuplicateNamesAreBothKept` | pokemon_stats/app.py:62 | Two dataset rows with the same name are both kept for one selected name. The filter does not deduplicate. |
| `Table.AgainstColumns` | app.py:20 | A header is a matchup column if and only if it is in the header and starts with "Against". |
| `Table.AgainstColumnsInHeaderOrder` | pokemon_stats/app.py:15 | The matchup columns are a subsequence of the header, each with its header multiplicity. Discovering them again changes nothing. |
| `Table.ReplaceAbsent` | app.py:25 | `str.replace` leaves a text unchanged when the pattern does not occur in it. |
| `Table.Replace` | app.py:25 | Python's `str.replace` does a left-to-right scan without overlap. A replacement no longer than the pattern never lengthens the text, and one of the same length keeps the length. |
| `Table.TypeLabel` | pokemon_stats/app.py:20 | Deleting "Against " never lengthens a header. |
| `Table.TypeLabelOfHeader` | pokemon_stats/app.py:20 | The header "Against T" is labelled T when T does not contain "Against ". A header without that text keeps its name. |
| `Table.TypeLabels` | app.py:25 | There is one label per matchup column, index-aligned: label j is column j with "Against " removed. |
| `Table.MatchupVector` | app.py:24 | One row's multipliers have one entry per matchup column, in column order, each read by header. |
| `App.CombinedMatchupHeatmap` | app.py:22-36 | The grid is rows × matchup columns. Cell (k, j) is row k's multiplier for column j, the x-labels are the type labels and the y-labels are the row names in order. |
| `App.HeatmapAxesOfSelections` | app.py:24-26 | The type axis depends only on the dataset header, so it is identical across selections. The y-labels are exactly the selected names the dataset knows. |
| `Legacy.MatchupHeatmap` | pokemon_stats/app.py:17-31 | Per Pokémon, the x labels and y multipliers both have one entry per matchup column and stay index-aligned. The chart carries the row's name. |
| `Legacy.MatchupGraphs` | pokemon_stats/app.py:65-68 | The dictionary's keys are exactly the names of the filtered rows. |
| `Legacy.MatchupGraphsLastWins` | pokemon_stats/app.py:65-68 | Each name's entry is the chart of the last row with that name: a later duplicate overwrites an earlier one. |
| `Legacy.MatchupOrder` | pokemon_stats/app.py:65-68 | The dictionary's keys, in the order the template iterates them, are distinct and are exactly the filtered names. |
| `Legacy.MatchupOrderFirstOccurrence` | pokemon_stats/app.py:65-68 | Inserting later rows only appends keys. A name first seen at row k is the key right after the names of the rows before k, wherever its later duplicates are. |
| `Seqs.InsertionOrder` | pokemon_stats/app.py:65-68 | A dict's keys after inserting a sequence of values hold each value exactly once. |
| `Seqs.InsertionOrderFirstOccurrence` | pokemon_stats/app.py:65-68 | A value first inserted at position k becomes the key right after the keys of the values before k. |
| `Legacy.MatchupGraphsOfUniqueNames` | pokemon_stats/app.py:65-68 | With unique names, every filtered row's chart is stored under its own name. |
| `Stats.StatVector` | app.py:71 | A row's vector has one entry per category, in category order, each read by header, whatever the CSV's column order. |
| `Stats.Column` | app.py:119 | One stat over the filtered rows has one value per row, in row order. |
| `Stats.StatTraces` | app.py:69-75 | There is one trace per filtered row, in filtered order. Each trace carries the row's name and one value per category. |
| `Stats.TracesAreColumns` | app.py:84-88 | Entry i of every trace is the row's value in column `categories[i]`, so the radar, stacked bars, mean and histogram read the same numbers. |
| `Stats.Mean` | app.py:100 | The mean is NaN if and only if no row was selected. Otherwise it times the row count equals the column sum. |
| `Stats.MeanWithinRange` | app.py:100 | The mean of a non-empty column lies between the column's minimum and maximum. |
| `Stats.MeanRow` | app.py:100 | There is one average per category, and each is NaN exactly when no row was selected. |
| `Stats.MeanRowEntries` | pokemon_stats/app.py:105 | Every mean-row entry is NaN for no rows. Otherwise it is the column sum divided by the filtered row count, and it lies within the column's range. |
| `Stats.MeanOfSixExample` | app.py:100 | Six rows with HP 10, 20, ..., 60 have mean HP 35. |
| `Stats.Distribution` | app.py:117-122 | A stat's histogram multiset has one value per filtered row. |
| `Stats.SumOfPermutation` | app.py:100 | The column sum depends only on the multiset of values, not on row order. |
| `Stats.MeanOfDistribution` | pokemon_stats/app.py:121-127 | The mean is determined by the histogram's multiset. Two row sequences with the same distribution of a stat have the same mean. |
| `App.IndividualChart` | app.py:138-156 | One Pokémon's chart is titled "Estatísticas de " and its name. Bar i shows stat `radar_categories[i]` with the Pokémon's value and colour `colors[i]`. |
| `App.IndividualChartMatchesRadar` | app.py:138-151 | A Pokémon's individual chart shows its radar vector bar for bar. Bar i carries stat `radar_categories[i]` and colour `colors[i]`, the six colours are pairwise distinct, and the title names the Pokémon. |
| `App.IndividualBarCharts` | app.py:133-159 | The loop yields exactly one chart per filtered row, in filtered order, each equal to that row's individual chart. |
| `Legacy.CategoriesReorderStatColumns` | pokemon_stats/app.py:71 | This file's stat order is a permutation of `app.py`'s `stats_columns`, with Speed fourth instead of last. |
| `Legacy.StatVectorReordered` | pokemon_stats/app.py:73-94 | Each Pokémon's vector here is its vector over `app.py`'s `stats_columns`, permuted by that same permutation. |
| `Grid.Cell` | app.py:180-182 | Each of panels 0..5 lands in row 1..2 and column 1..3. |
| `Grid.CellInjective` | app.py:180-182 | No two of the six panels share a cell. |
| `Grid.CellOnto` | pokemon_stats/app.py:154-156 | Every cell of the 2 × 3 grid holds the panel `(row - 1) * 3 + col - 1`, which is in 0..5. |
| `Grid.Layout` | pokemon_stats/app.py:150-163 | There is one panel per stat. With six stats, the panels occupy pairwise distinct cells and cover the whole grid. |
| `App.ExploratoryLayout` | app.py:176-189 | The loop builds exactly the layout `Grid.Layout` describes: panel i shows stat i over every dataset row at cell `(i // 3 + 1, i % 3 + 1)`. |
| `App.Analyze` | app.py:51-171 | The handler rejects if and only if a slot is empty or two slots repeat. Otherwise every chart table is built from the filtered rows, with heatmap y-labels equal to the selected names the dataset knows and one individual chart per row. |
| `Legacy.Analyze` | pokemon_stats/app.py:46-145 | The handler rejects if and only if a slot is empty or two slots repeat. Otherwise the dictionary is `MatchupGraphs` of the filtered rows, so its keys are the selected names the dataset knows and each holds its last row's chart. Its key order is `MatchupOrder`, and radar, stacked bars, mean and histogram all use this file's stat order. |

## Left out

- Flask routing, `request.form`, `render_template` and the rejection's message and status 400: the slot values are an input, and a rejection is the `Rejected` outcome.
- The `/` route and the `pokemon_names` list it renders: routing only.
- Every plotly call: figure and trace construction, colour scales, `zmin`/`zmax`, layout, titles other than the individual charts', and `to_html`. The model stops at the tables and label sequences handed to plotly.
- Histogram binning (`nbinsx=20`), done inside plotly: the model gives each histogram its multiset of values.
- The `f"{v:.2f}"` bar texts of `pokemon_stats/app.py`: floating-point formatting.
- Floating point: stats are integers, matchup multipliers and means are exact reals, so rounding of the mean is not modelled.
- `Legacy.MatchupGraphs`: a Dafny `map` has no order, so the dictionary's insertion order (used at pokemon_stats/app.py:144) is kept beside it as `Legacy.MatchupOrder` in the page rather than in the map.
- `pd.read_csv`, both at start-up and the re-read in `/exploratory`: the dataset is an input. A missing column would raise a `KeyError`; the handlers instead require a dataset whose rows carry every stat and matchup column (`Table.WellFormed`).
