/** The rows of the joined IMDb table (movies 2011-2020 joined with the
    country-code table on the region code) and the columns the dashboard reads. */
module Movies {
  import opened Results

  /** One row of the base table: one (movie, actor, genre) combination.
      `index` is the `Unnamed: 0` column left over from the CSV export;
      `regionName` is the `name` column brought in by the join. */
  datatype Row = Row(
    index: int,
    title: string,          // primaryTitle
    name: string,           // primaryName, the actor
    genre: string,          // genres, one genre per row
    startYear: int,
    runtime: Option<int>,   // runtimeMinutes, NaN when unknown
    rating: real,           // averageRating, 0-10
    regionCode: string,     // region (equal to the joined alpha_2)
    regionName: string)     // name

  /** A row with the `primaryName` and `Unnamed: 0` columns dropped. */
  datatype Record = Record(
    title: string,
    genre: string,
    startYear: int,
    runtime: Option<int>,
    rating: real,
    regionCode: string,
    regionName: string)

  function Project(r: Row): Record {
    Record(r.title, r.genre, r.startYear, r.runtime, r.rating, r.regionCode, r.regionName)
  }

  function Projections(rows: seq<Row>): (p: seq<Record>)
    ensures |p| == |rows|
    ensures forall i :: 0 <= i < |rows| ==> p[i] == Project(rows[i])
  {
    seq(|rows|, i requires 0 <= i < |rows| => Project(rows[i]))
  }

  /* The single columns the dashboard reads. */

  function Titles(rows: seq<Row>): (c: seq<string>)
    ensures |c| == |rows|
    ensures forall i :: 0 <= i < |rows| ==> c[i] == rows[i].title
  {
    seq(|rows|, i requires 0 <= i < |rows| => rows[i].title)
  }

  function Names(rows: seq<Row>): (c: seq<string>)
    ensures |c| == |rows|
    ensures forall i :: 0 <= i < |rows| ==> c[i] == rows[i].name
  {
    seq(|rows|, i requires 0 <= i < |rows| => rows[i].name)
  }

  function Genres(rows: seq<Row>): (c: seq<string>)
    ensures |c| == |rows|
    ensures forall i :: 0 <= i < |rows| ==> c[i] == rows[i].genre
  {
    seq(|rows|, i requires 0 <= i < |rows| => rows[i].genre)
  }

  function RecordGenres(recs: seq<Record>): (c: seq<string>)
    ensures |c| == |recs|
    ensures forall i :: 0 <= i < |recs| ==> c[i] == recs[i].genre
  {
    seq(|recs|, i requires 0 <= i < |recs| => recs[i].genre)
  }

  function RegionNames(rows: seq<Row>): (c: seq<string>)
    ensures |c| == |rows|
    ensures forall i :: 0 <= i < |rows| ==> c[i] == rows[i].regionName
  {
    seq(|rows|, i requires 0 <= i < |rows| => rows[i].regionName)
  }

  /* The metric selector of the trend chart (the `ycol` radio items). */

  datatype Metric = AverageRating | RuntimeMinutes

  /** The dataframe column a metric reads. */
  function ColumnName(m: Metric): string {
    match m
    case AverageRating => "averageRating"
    case RuntimeMinutes => "runtimeMinutes"
  }

  /** The metric whose column is `ycol`, if any. */
  function ParseMetric(ycol: string): (m: Option<Metric>)
    ensures m.Some? ==> ColumnName(m.value) == ycol
  {
    if ycol == "averageRating" then Some(AverageRating)
    else if ycol == "runtimeMinutes" then Some(RuntimeMinutes)
    else None
  }

  /** Every metric is recognised from its own column name. */
  lemma ParseColumnName(m: Metric)
    ensures ParseMetric(ColumnName(m)) == Some(m)
  {
  }
}
