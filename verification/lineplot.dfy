/** The parameter logic of `generate_line_plot`: the axis label for the
    chosen metric, the `mean(...)` aggregate field, and the genre legend. */
module LinePlot {
  import opened Results
  import opened Movies
  import opened Legend
  import Controls

  /** What the trend chart is built from; `title` is the y-axis `label`. */
  datatype LineSpec = LineSpec(title: string, field: string, legend: GenreLegend)

  /** The y-axis title; `None` where neither branch assigns `label`. */
  function AxisLabel(ycol: string): (l: Option<string>)
    ensures l.Some? <==> ParseMetric(ycol).Some?
    ensures ycol == "averageRating" ==> l == Some("Average Rating (/10)")
    ensures ycol == "runtimeMinutes" ==> l == Some("Average Runtime (minutes)")
  {
    if ycol == "averageRating" then Some("Average Rating (/10)")
    else if ycol == "runtimeMinutes" then Some("Average Runtime (minutes)")
    else None
  }

  /** The unit shown after the dashboard heading on the axis title. */
  function Unit(m: Metric): string {
    match m
    case AverageRating => " (/10)"
    case RuntimeMinutes => " (minutes)"
  }

  /** The axis title is the dashboard's trend heading followed by the
      metric's unit, and both exist for exactly the same `ycol` values. */
  lemma AxisLabelExtendsTitle(ycol: string)
    ensures AxisLabel(ycol).Some? <==> Controls.YcolTitle(ycol).Ok?
    ensures AxisLabel(ycol).Some? ==>
      AxisLabel(ycol).value == Controls.YcolTitle(ycol).value + Unit(ParseMetric(ycol).value)
  {
  }

  /** `f"mean({ycol})"`: the Vega-Lite aggregate shorthand. */
  function MeanField(ycol: string): string {
    "mean(" + ycol + ")"
  }

  /** The column an aggregate field `mean(c)` reads, if it has that shape. */
  function FieldColumn(field: string): (c: Option<string>)
    ensures c.Some? ==> |field| >= 6 && MeanField(c.value) == field
  {
    if |field| >= 6 && field[..5] == "mean(" && field[|field| - 1] == ')' then
      var c := field[5..|field| - 1];
      assert field == field[..5] + c + [field[|field| - 1]];
      Some(c)
    else None
  }

  /** The field names exactly the column it was built from. */
  lemma FieldRoundTrip(ycol: string)
    ensures FieldColumn(MeanField(ycol)) == Some(ycol)
  {
    var f := MeanField(ycol);
    assert f[..5] == "mean(";
    assert f[5..|f| - 1] == ycol;
  }

  /** `generate_line_plot(data, ycol)` up to the chart. The colour loop
      (line 37) runs before `label` is read (line 46), so a genre missing
      from the map raises `KeyError` even when `ycol` is also invalid. */
  function LinePlotSpec(view: seq<Row>, ycol: string, cmap: map<string, string>): (r: Result<LineSpec>)
    ensures r.Ok? <==> ParseMetric(ycol).Some? && forall g :: g in Genres(view) ==> g in cmap
    ensures (exists g :: g in Genres(view) && g !in cmap) ==> r.Err? && r.error.KeyError?
    ensures (forall g :: g in Genres(view) ==> g in cmap) && ParseMetric(ycol).None? ==>
      r == Err(UnboundLabel("label"))
    ensures r.Ok? && ycol == "averageRating" ==> r.value.title == "Average Rating (/10)"
    ensures r.Ok? && ycol == "runtimeMinutes" ==> r.value.title == "Average Runtime (minutes)"
    ensures r.Ok? ==> FieldColumn(r.value.field) == Some(ycol)
    ensures r.Ok? ==> r.value.legend.names == Seqs.Dedup(Genres(view))
    ensures r.Ok? ==> |r.value.legend.colors| == |r.value.legend.names|
    ensures r.Ok? ==> forall i :: 0 <= i < |r.value.legend.names| ==>
      r.value.legend.names[i] in cmap && r.value.legend.colors[i] == cmap[r.value.legend.names[i]]
  {
    var axis := AxisLabel(ycol);
    var field := MeanField(ycol);
    FieldRoundTrip(ycol);
    var legend :- BuildLegend(Genres(view), cmap);
    if axis.None? then Err(UnboundLabel("label"))
    else Ok(LineSpec(axis.value, field, legend))
  }
}
