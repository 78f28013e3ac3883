/** The colour legend shared by the box plot and the line plot:
    `genre_names = data.genres.unique()` and the loop that looks each name up
    in `genre_color_map`. The colour map is a parameter. */
module Legend {
  import opened Results
  import opened Seqs

  /** Legend domain and range, aligned index by index. */
  datatype GenreLegend = GenreLegend(names: seq<string>, colors: seq<string>)

  /** `for genre in names: colors.append(cmap[genre])`: the first name missing
      from the map raises `KeyError`. */
  function LookupColors(names: seq<string>, cmap: map<string, string>): (r: Result<seq<string>>)
    ensures r.Ok? <==> forall g :: g in names ==> g in cmap
    ensures r.Ok? ==> |r.value| == |names|
    ensures r.Ok? ==> forall i :: 0 <= i < |names| ==> names[i] in cmap && r.value[i] == cmap[names[i]]
    ensures r.Err? ==> exists i :: (0 <= i < |names| && r.error == KeyError(names[i])
      && names[i] !in cmap && forall j :: 0 <= j < i ==> names[j] in cmap)
  {
    if |names| == 0 then Ok([])
    else if names[0] !in cmap then Err(KeyError(names[0]))
    else
      var rest := LookupColors(names[1..], cmap);
      assert forall g :: g in names <==> g == names[0] || g in names[1..] by {
        assert names == [names[0]] + names[1..];
      }
      if rest.Err? then
        var i :| 0 <= i < |names[1..]| && rest.error == KeyError(names[1..][i])
          && names[1..][i] !in cmap && forall j :: 0 <= j < i ==> names[1..][j] in cmap;
        assert names[i + 1] == names[1..][i];
        Err(rest.error)
      else
        Ok([cmap[names[0]]] + rest.value)
  }

  /** The legend of a genre column: the distinct genres in order of first
      appearance, each with its colour. */
  function BuildLegend(genres: seq<string>, cmap: map<string, string>): (r: Result<GenreLegend>)
    ensures r.Ok? <==> forall g :: g in genres ==> g in cmap
    ensures r.Err? ==> r.error.KeyError? && r.error.key in genres && r.error.key !in cmap
    ensures r.Ok? ==> r.value.names == Dedup(genres)
    ensures r.Ok? ==> NoDups(r.value.names)
    ensures r.Ok? ==> forall g :: g in r.value.names <==> g in genres
    ensures r.Ok? ==> InFirstOccurrenceOrder(genres, r.value.names)
    ensures r.Ok? ==> |r.value.colors| == |r.value.names|
    ensures r.Ok? ==> forall i :: 0 <= i < |r.value.names| ==>
      r.value.names[i] in cmap && r.value.colors[i] == cmap[r.value.names[i]]
  {
    var names := Dedup(genres);
    var colors :- LookupColors(names, cmap);
    Ok(GenreLegend(names, colors))
  }

  /** The legend names are the only duplicate-free list of the column's
      genres in order of first appearance. */
  lemma LegendNamesUnique(genres: seq<string>, cmap: map<string, string>, other: seq<string>)
    requires BuildLegend(genres, cmap).Ok?
    requires forall g :: g in other <==> g in genres
    requires InFirstOccurrenceOrder(genres, other)
    ensures other == BuildLegend(genres, cmap).value.names
  {
    FirstOccurrenceOrderUnique(genres, other, BuildLegend(genres, cmap).value.names);
  }
}
