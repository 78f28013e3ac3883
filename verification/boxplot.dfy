/** The data preparation of `generate_box_plot`: drop the actor and index
    columns, remove duplicate rows, and build the genre legend. */
module BoxPlot {
  import opened Results
  import opened Seqs
  import opened Movies
  import opened Legend

  /** What the box-plot chart is built from. */
  datatype BoxData = BoxData(records: seq<Record>, legend: GenreLegend)

  /** `data.drop(['primaryName', 'Unnamed: 0'], axis=1).drop_duplicates()`:
      one record per distinct projected row, where it first occurs. */
  function DropDuplicates(view: seq<Row>): (recs: seq<Record>)
    ensures forall r :: r in view ==> Project(r) in recs
    ensures forall x :: x in recs ==> exists r :: r in view && Project(r) == x
    ensures NoDups(recs)
    ensures InFirstOccurrenceOrder(Projections(view), recs)
    ensures |recs| <= |view|
  {
    var p := Projections(view);
    assert forall r :: r in view ==> Project(r) in p by {
      forall r | r in view
        ensures Project(r) in p
      {
        var i :| 0 <= i < |view| && view[i] == r;
        assert p[i] == Project(r);
      }
    }
    assert forall x :: x in p ==> exists r :: r in view && Project(r) == x by {
      forall x | x in p
        ensures exists r :: r in view && Project(r) == x
      {
        var i :| 0 <= i < |p| && p[i] == x;
        assert view[i] in view;
      }
    }
    Dedup(p)
  }

  /** Removing duplicates from the result again changes nothing. */
  lemma DropDuplicatesIdempotent(view: seq<Row>)
    ensures Dedup(DropDuplicates(view)) == DropDuplicates(view)
  {
    DedupOfNoDups(DropDuplicates(view));
  }

  /** Any duplicate-free list of the projected rows in order of first
      occurrence is the result of `drop_duplicates`. */
  lemma DropDuplicatesUnique(view: seq<Row>, other: seq<Record>)
    requires forall x :: x in other <==> x in Projections(view)
    requires InFirstOccurrenceOrder(Projections(view), other)
    ensures other == DropDuplicates(view)
  {
    FirstOccurrenceOrderUnique(Projections(view), other, DropDuplicates(view));
  }

  /** `generate_box_plot` up to the chart: the records, then
      `genre_names = data.genres.unique()` over them and their colours. */
  function BoxPlotData(view: seq<Row>, cmap: map<string, string>): (r: Result<BoxData>)
    ensures r.Ok? <==> forall row :: row in view ==> row.genre in cmap
    ensures r.Err? ==> (r.error.KeyError? && r.error.key !in cmap
      && exists row :: row in view && row.genre == r.error.key)
    ensures r.Ok? ==> r.value.records == DropDuplicates(view)
    ensures r.Ok? ==> NoDups(r.value.legend.names)
    ensures r.Ok? ==> InFirstOccurrenceOrder(RecordGenres(r.value.records), r.value.legend.names)
    ensures r.Ok? ==> forall g :: g in r.value.legend.names <==> exists row :: row in view && row.genre == g
    ensures r.Ok? ==> |r.value.legend.colors| == |r.value.legend.names|
    ensures r.Ok? ==> forall i :: 0 <= i < |r.value.legend.names| ==>
      r.value.legend.names[i] in cmap && r.value.legend.colors[i] == cmap[r.value.legend.names[i]]
  {
    var recs := DropDuplicates(view);
    var genres := RecordGenres(recs);
    GenresSurviveDedup(view, recs, genres);
    var legend :- BuildLegend(genres, cmap);
    Ok(BoxData(recs, legend))
  }

  /** A genre occurs among the de-duplicated records exactly when some row
      of the view has it. */
  lemma GenresSurviveDedup(view: seq<Row>, recs: seq<Record>, genres: seq<string>)
    requires recs == DropDuplicates(view)
    requires genres == RecordGenres(recs)
    ensures forall g :: g in genres <==> exists row :: row in view && row.genre == g
  {
    forall g
      ensures g in genres <==> exists row :: row in view && row.genre == g
    {
      if g in genres {
        var i :| 0 <= i < |genres| && genres[i] == g;
        assert recs[i] in recs;
        var row :| row in view && Project(row) == recs[i];
      }
      if exists row :: row in view && row.genre == g {
        var row :| row in view && row.genre == g;
        assert Project(row) in recs;
        var i :| 0 <= i < |recs| && recs[i] == Project(row);
        assert genres[i] == g;
      }
    }
  }
}
