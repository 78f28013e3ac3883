# IMDb dashboard core in Dafny

This project models the data logic of the IMDb dashboard, a Dash application
over a denormalised table of movies from 2011 to 2020. The table has one row
per (movie, actor, genre) combination, so a movie with two genres appears twice
for each of its actors. Each row carries:

- the movie's title, genre, start year, runtime and rating;
- the actor's name;
- the producing region's code and country name.

The model covers:

- **`update_data`**: the filter that narrows the table to the selected genres, regions and year range.
- **KPIs**: the distinct-title and distinct-actor counts.
- **Small callbacks**: the trend-chart heading, the information collapse toggle and the Top-N ticker.
- **Option lists**: the genre checklist and the region dropdown.
- **Chart data**: what the three charts are built from:
  - the two-stage top-N actor selection of `generate_bar_chart`;
  - the de-duplicated records and genre legend of `generate_box_plot`;
  - the axis label, aggregate field and genre legend of `generate_line_plot`.

Everything is pure functions over immutable values:

| module | file | what it holds |
|---|---|---|
| `Results` | `results.dfy` | `Option` and `Result`. Python exceptions become `Err` values: `KeyError` for a missing key, `UnboundLabel` for returning a local variable no branch assigned, `IndexError` for a too-short list. |
| `Seqs` | `seqs.dfy` | Boolean masks (`Where`), order-preserving de-duplication (`Dedup`, modelling `unique`/`drop_duplicates`), sums and means, `head` (`Take`) and a descending sort (`SortDesc`). |
| `Strings` | `strings.dfy` | The lexicographic order behind Python's `sorted` on strings, an insertion sort, and decimal printing and parsing of integers. |
| `Movies` | `movies.dfy` | The table row (`Row`), the row without actor and index columns (`Record`), column extraction, and the two metric names. |
| `FilterEngine` | `filter.dfy` | `update_data`. |
| `Kpis` | `kpis.dfy` | The `nunique` counts. |
| `Controls` | `controls.dfy` | `update_ycol_title`, `toggle_collapse`, `update_ticker_header` and the option lists. |
| `Legend` | `legend.dfy` | `genre_names`/`genre_colors`, shared by the box plot and the line plot. |
| `BoxPlot` | `boxplot.dfy` | The box plot's data preparation. |
| `LinePlot` | `lineplot.dfy` | The line plot's data preparation. |
| `BarChart` | `barchart.dfy` | The bar chart's data preparation, plus the corrected ranking described under Findings. |

## Model

| member | source | states |
|---|---|---|
| FilterEngine.FilterView | src/app.py:392-394 | A row is in the view exactly when all of these hold: it is in the table, its genre is selected, its country name is selected, and its start year lies within the inclusive year range. The view keeps table order, as a subsequence. Each kept row appears exactly as many times as in the table, and every other row not at all. No selected genre, no selected region, or a range whose start exceeds its end gives an empty view. |
| FilterEngine.SingleMask | src/app.py:392-394 | The three masks applied one after the other select the same rows as one mask testing all three conditions. |
| FilterEngine.UpdateData | src/app.py:391-395 | Indexing `years[0]` and `years[1]` fails with an index error exactly when the list has fewer than two entries. Otherwise the result is the filtered view: the same membership condition, in table order, with each kept row as many times as in the table. |
| FilterEngine.InclusiveYearBounds | src/app.py:394 | Both ends of the year range are inclusive: a row whose start year equals either bound, and whose genre and region are selected, stays in the view. |
| FilterEngine.SingleGenre | src/app.py:392 | Selecting one genre leaves only rows of that genre. |
| Seqs.Where | src/app.py:392-394 | A boolean mask keeps exactly the elements that pass the test, each as many times as in the input, and no other element. The result is never longer than the input. |
| FilterEngine.FilterIdempotent | src/app.py:392-394 | Filtering an already filtered view again with the same selection changes nothing. |
| Kpis.CountDistinct | src/app.py:467 | `nunique` equals the number of distinct values of the column. It is at most the column length, and zero exactly for an empty column. |
| Kpis.TotalMovies | src/app.py:465-468 | The movie count is the number of distinct titles in the view. It is at most the number of rows, and zero exactly on an empty view. |
| Kpis.TotalActors | src/app.py:475-478 | The actor count is the number of distinct actor names in the view. It is at most the number of rows, and zero exactly on an empty view. |
| Kpis.CountsMonotone | src/app.py:467-477 | Narrowing the view (every row of one is a row of the other) never increases either count. |
| Controls.YcolTitle | src/app.py:452-458 | "Average Rating" for `averageRating` and "Average Runtime" for `runtimeMinutes`. Any other value leaves `label` unbound and the callback raises. The result exists exactly for the two metric names. |
| Controls.ToggleCollapse | src/app.py:506-509 | The panel state flips exactly when `n_clicks` is truthy (neither `None` nor 0). Otherwise it is kept. |
| Controls.ToggleTwice | src/app.py:506-509 | Two clicks restore the original panel state. |
| Controls.TickerHeader | src/app.py:444-445 | A one-element list whose text reads back as the slider value, for every integer including negatives. The text is in the form Python prints: a '-' exactly for a negative value, then digits with no leading zero (never "007" or "-0"). |
| Strings.Show | src/app.py:445 | `f'{n}'` prints canonical text: a leading '-' exactly when `n` is negative, then at least one digit, with no leading zero and no "-0". |
| Strings.ShowUnique | src/app.py:445 | Any canonical text that reads back as `n` is the text `f'{n}'` prints, so the header text is fully determined by the slider value. |
| Strings.Sort | src/app.py:192-194 | `sorted` on strings returns an ascending permutation of its input in Python's string order. |
| Strings.SortedDedupStrict | src/app.py:192-194 | `sorted(column.unique())` is strictly ascending and holds exactly the column's values. |
| Controls.OptionList | src/app.py:192-195 | Each entry's label equals its value. The values are strictly ascending in Python's string order, so each value appears once. A value is listed exactly when it occurs in the column and is not the text "nan". |
| Controls.GenreOptions | src/app.py:191-195 | The genre checklist offers, in strictly ascending order, exactly the genres of the table other than "nan". |
| Controls.RegionOptions | src/app.py:242-246 | The region dropdown offers, in strictly ascending order, exactly the country names of the table other than "nan". |
| Controls.OptionListUnique | src/app.py:192-195 | Any strictly ascending list of the column's non-"nan" values equals the option values, so the list is fully determined. |
| Strings.ParseShow | src/app.py:445 | Reading the text of any integer gives back that integer, as `f'{n}'` followed by `int(...)` would. |
| Legend.LookupColors | src/boxplot.py:28-30 | Every name is looked up in the colour map, in order, and the colours align with the names. The lookup fails exactly when some name is missing. The failure names the first missing name, all earlier names being present. |
| Legend.BuildLegend | src/boxplot.py:27-30 | The legend names are the column's distinct genres in order of first appearance, each once, with aligned colours. The legend fails with `KeyError` on a genre missing from the colour map, exactly when such a genre exists. |
| Legend.LegendNamesUnique | src/boxplot.py:27 | Any duplicate-free list of the column's genres in order of first appearance equals the legend names. |
| Seqs.Dedup | src/boxplot.py:24 | De-duplication keeps exactly the values of its input, each once, in order of first occurrence, and is never longer than the input. |
| Seqs.DedupSnoc | src/boxplot.py:24 | Appending a value extends the de-duplicated sequence by that value exactly when it is new. |
| Seqs.DedupIdempotent | src/boxplot.py:24 | De-duplicating twice is the same as de-duplicating once. |
| Seqs.FirstOccurrenceOrderUnique | src/boxplot.py:24 | Two duplicate-free sequences with the same values, both in order of first occurrence in the same input, are equal. |
| Movies.Projections | src/boxplot.py:23 | Dropping the actor and index columns maps each row, in order, to its record without those two columns. |
| BoxPlot.DropDuplicates | src/boxplot.py:23-24 | After dropping the actor and index columns, every projected row appears in the result and every result record is a projected row. There are no duplicates, records keep the order in which they first occur, and the result is never longer than the view. |
| BoxPlot.DropDuplicatesIdempotent | src/boxplot.py:24 | Dropping duplicates from the result again changes nothing. |
| BoxPlot.DropDuplicatesUnique | src/boxplot.py:23-24 | Any duplicate-free list of the projected rows in order of first occurrence is the result. |
| BoxPlot.GenresSurviveDedup | src/boxplot.py:23-27 | A genre occurs among the de-duplicated records exactly when some row of the view has it. |
| BoxPlot.BoxPlotData | src/boxplot.py:23-30 | The box plot succeeds exactly when every genre of the view has a colour. Otherwise it fails with `KeyError` on such a genre. On success the records are the de-duplicated projection, and the legend lists each genre of the view once, in order of first appearance among the records, with aligned colours. |
| LinePlot.AxisLabel | src/line_plot.py:26-29 | "Average Rating (/10)" for `averageRating` and "Average Runtime (minutes)" for `runtimeMinutes`. No label exists for any other value. |
| LinePlot.AxisLabelExtendsTitle | src/line_plot.py:26-29 | The axis label exists for exactly the values the dashboard heading does, and is that heading followed by the metric's unit. |
| LinePlot.FieldRoundTrip | src/line_plot.py:31 | The aggregate field `mean(ycol)` names exactly the column it was built from. |
| Movies.ParseColumnName | src/app.py:319-320 | Each of the two metric radio values is recognised as its own metric. |
| LinePlot.LinePlotSpec | src/line_plot.py:25-46 | The line plot succeeds exactly when the metric is one of the two names and every genre has a colour. A missing colour raises `KeyError` even when the metric is also invalid, because the colour loop (line 37) runs before `label` is read (line 46). With every colour present, an invalid metric raises on the unbound `label`. On success the title matches the metric, the field reads back to the metric, and the legend holds the distinct genres in first-appearance order with aligned colours. |
| BarChart.GroupMeans | src/bar_chart.py:25-27 | The grouped means list each actor of the view once, in strictly ascending order of name, because `groupby` sorts its keys. Each carries the mean of that actor's ratings. |
| BarChart.GroupMeansDetermined | src/bar_chart.py:25-27 | Any name-sorted list holding exactly the view's actors, each with its mean rating, is the grouped means. |
| Seqs.SortDesc | src/bar_chart.py:28 | `sort_values(ascending=False)` returns a permutation of its input in non-increasing order of the key. |
| Seqs.Take | src/bar_chart.py:29 | `head(n)` returns the first `n` elements, or all of them when there are fewer. |
| BarChart.StageA | src/bar_chart.py:25-29 | Stage A keeps `min(top, number of actors)` distinct actors, in non-increasing order of mean rating. Each carries its true mean. Every kept actor's mean is at least every left-out actor's mean. |
| BarChart.Qualifying | src/bar_chart.py:34-36 | The rows of the listed actors, as (name, rating, title) triples. Each such triple appears exactly as many times as among the table's rows, so a movie listed under two genres gives two identical bars. A triple of any other actor does not appear. |
| BarChart.TopRows | src/bar_chart.py:37-38 | Sorting by rating and taking `head(top)` keeps `min(top, rows)` bars, drawn from the input and in non-increasing rating order. No bar left out is rated above the last one kept. |
| BarChart.StageB | src/bar_chart.py:34-38 | Stage B keeps `min(top, qualifying rows)` rows, where the qualifying rows are counted with repeats as above, all of listed actors and all rows of the table, in non-increasing rating order. No qualifying row left out is rated above the last row kept. |
| BarChart.TopBars | src/bar_chart.py:25-38 | The chart data has exactly `min(top, q)` bars, where `q` is the number of table rows of the actors stage A kept. Each bar is a row of the table belonging to such an actor, drawn at most as often as it occurs. The bars are in non-increasing rating order, and no row of those actors left out is rated above the last bar. |
| BarChart.TopOneIsBest | src/bar_chart.py:25-29 | With `top = 1` on a non-empty view, stage A keeps exactly one actor, whose mean is the highest of all actors'. |
| BarChart.TopOneBar | src/bar_chart.py:25-38 | With `top = 1` on a non-empty view, the chart shows exactly one bar, belonging to the actor stage A keeps. |
| BarChart.DuplicateActorWitness | src/bar_chart.py:34-38 | On the three-row view of the finding below with `top = 2`, stage A keeps actors A and B. The chart then shows A's two movies and nothing of B. |
| BarChart.TwoActorsRanked | src/bar_chart.py:25-29 | With exactly two actors and `top = 2`, stage A keeps both, the higher mean first. |
| BarChart.MeanWithinRatings | src/bar_chart.py:25-27 | An actor's mean rating lies between any lower and any upper bound on that actor's ratings. |
| BarChart.StageAMeanBounds | src/bar_chart.py:25-29 | A stage-A actor's mean is at least any lower bound on that actor's ratings, and at most the rating of that actor's best movie. |
| BarChart.BestRow | src/bar_chart.py:34-38 | For an actor of the view, the position of a row of that actor rated at least as high as every other row of that actor. |
| BarChart.BestBar | src/bar_chart.py:34-38 | An actor's bar taken from one of the actor's rows, rated at least as high as all of them, whose title is a top-rated title of that actor. |
| BarChart.RankActors | src/bar_chart.py:25-38 | The corrected ranking. Exactly one bar for each actor stage A keeps, in stage A's order, with distinct names and non-increasing bar values. Each bar's value is the actor's mean rating and its title is one of the actor's top-rated titles. |

## Left out

- Loading the feather and CSV files and merging the country codes (src/app.py:16-19). The model starts from the merged table as a sequence of `Row`. The extra country-code columns are not modelled, apart from the country name and region code.
- The Dash layout, callback wiring and the `dcc.Store` JSON round trip (`to_json`/`read_json`). The model treats the round trip as lossless.
- The average-runtime and average-rating KPIs (src/app.py:485-498): floating-point means with `round`, which the model's exact `real` arithmetic cannot reproduce.
- Building the Altair charts: encodings, themes, HTML rendering, and the per-(genre, year) mean that Vega-Lite computes from the `mean(...)` field. The model stops at the data and parameters handed to Altair.
- `generate_map` and `src/map_plot.py`, which are not part of this model.
- `genre_color_map` (from `src/constants.py`, not part of this model) is a parameter of the legend functions.
- BarChart.StageA: states nothing about the order among actors with equal means. pandas' `sort_values` does not promise a stable order, so the model fixes one order and its contracts hold for any.
- BarChart.StageB: states nothing about the order among rows with equal ratings, for the same reason.
- BarChart.TopBars: `top` is a `nat`. A negative `head(n)` drops the last rows instead, but the slider only offers 1 to 15 (src/app.py:206-209).
- Kpis.TotalMovies: counts every title as a value, whereas `nunique` skips missing cells. Missing cells are represented only in the option lists, as the text "nan" that `.astype(str)` produces.
- Kpis.TotalActors: same as `Kpis.TotalMovies`, for actor names.
- Controls.OptionList: column cells are already strings. Conversion of non-string cells by `astype(str)` is not modelled beyond the "nan" text.
- Ratings are exact `real` numbers and runtimes are `Option<int>`. Floating-point rounding is not modelled.

The code validates no parameters:

- An unknown metric is not rejected up front. `update_ycol_title` fails on the unbound local `label`. In `generate_line_plot`, a missing genre colour raises `KeyError` before that.
- A `top` outside 1 to 15 is not rejected; only the slider bounds it.
- A year range whose start exceeds its end is not rejected: it filters to an empty view.

## Findings

| source | as written | input that shows it | evidently intended | confidence | as-written member | corrected member |
|---|---|---|---|---|---|---|
| src/bar_chart.py:34-38 | Stage B re-selects the rows of the stage-A actors and keeps the `top` highest-rated **rows**. An actor with several movies can fill several bars, and an actor that stage A ranked can get no bar at all. | Rows (A, "T1", 9.0), (A, "T2", 9.0) and (B, "T3", 8.0) with `top = 2`: stage A keeps A and B, but the chart shows A twice and B not at all. | One bar per stage-A actor, sized by the actor's mean rating (stage A's ranking) and labelled with one of that actor's top-rated movies (the "Top Movie" tooltip). | medium; not executed | BarChart.DuplicateActorWitness | BarChart.RankActors |
