/** The `update_data` callback: the genre, region and year-range masks that
    produce the filtered view every chart and KPI reads. */
module FilterEngine {
  import opened Results
  import opened Seqs
  import opened Movies

  /** The three tests a row must pass to stay in the view; both year bounds
      are inclusive. */
  predicate Keep(r: Row, genres: seq<string>, regions: seq<string>, lo: int, hi: int) {
    r.genre in genres && r.regionName in regions && lo <= r.startYear <= hi
  }

  /** The three masks of `update_data`, applied one after the other. */
  function FilterView(data: seq<Row>, genres: seq<string>, regions: seq<string>, lo: int, hi: int)
    : (view: seq<Row>)
    ensures forall r :: r in view <==> r in data && Keep(r, genres, regions, lo, hi)
    ensures IsSubseq(view, data)
    ensures |view| <= |data|
    ensures multiset(view) <= multiset(data)
    ensures forall r :: multiset(view)[r] == if Keep(r, genres, regions, lo, hi) then multiset(data)[r] else 0
    ensures |genres| == 0 || |regions| == 0 || lo > hi ==> view == []
  {
    var byGenre := Where(data, (r: Row) => r.genre in genres);
    var byRegion := Where(byGenre, (r: Row) => r.regionName in regions);
    var byYear := Where(byRegion, (r: Row) => lo <= r.startYear && r.startYear <= hi);
    SingleMask(data, genres, regions, lo, hi);
    WhereIsSubseq(data, (r: Row) => Keep(r, genres, regions, lo, hi));
    WhereNone(data, (r: Row) => Keep(r, genres, regions, lo, hi));
    byYear
  }

  /** The stepwise masks equal one mask testing all three conditions. */
  lemma SingleMask(data: seq<Row>, genres: seq<string>, regions: seq<string>, lo: int, hi: int)
    ensures
      Where(Where(Where(data, (r: Row) => r.genre in genres), (r: Row) => r.regionName in regions),
            (r: Row) => lo <= r.startYear && r.startYear <= hi)
      == Where(data, (r: Row) => Keep(r, genres, regions, lo, hi))
  {
    var g := (r: Row) => r.genre in genres;
    var n := (r: Row) => r.regionName in regions;
    var y := (r: Row) => lo <= r.startYear && r.startYear <= hi;
    var gn := (r: Row) => r.genre in genres && r.regionName in regions;
    WhereWhere(data, g, n, gn);
    WhereWhere(data, gn, y, (r: Row) => Keep(r, genres, regions, lo, hi));
  }

  /** `update_data(genres, regions, years)`: reading `years[0]` and
      `years[1]` raises `IndexError` on a shorter list; extra entries are
      ignored. */
  function UpdateData(data: seq<Row>, genres: seq<string>, regions: seq<string>, years: seq<int>)
    : (res: Result<seq<Row>>)
    ensures res.Err? <==> |years| < 2
    ensures res.Err? ==> res.error == IndexError
    ensures res.Ok? ==> forall r :: r in res.value <==>
      r in data && r.genre in genres && r.regionName in regions && years[0] <= r.startYear <= years[1]
    ensures res.Ok? ==> IsSubseq(res.value, data)
    ensures res.Ok? ==>
      forall r :: multiset(res.value)[r] == if Keep(r, genres, regions, years[0], years[1]) then multiset(data)[r] else 0
  {
    if |years| < 2 then Err(IndexError)
    else Ok(FilterView(data, genres, regions, years[0], years[1]))
  }

  /** Filtering an already filtered view with the same selection changes nothing. */
  lemma FilterIdempotent(data: seq<Row>, genres: seq<string>, regions: seq<string>, lo: int, hi: int)
    ensures FilterView(FilterView(data, genres, regions, lo, hi), genres, regions, lo, hi)
         == FilterView(data, genres, regions, lo, hi)
  {
    var k := (r: Row) => Keep(r, genres, regions, lo, hi);
    var view := FilterView(data, genres, regions, lo, hi);
    SingleMask(data, genres, regions, lo, hi);
    SingleMask(view, genres, regions, lo, hi);
    WhereWhere(data, k, k, k);
  }

  /** A row on either year bound that passes the genre and region tests is kept. */
  lemma InclusiveYearBounds(data: seq<Row>, genres: seq<string>, regions: seq<string>, lo: int, hi: int, r: Row)
    requires r in data && r.genre in genres && r.regionName in regions
    requires lo <= hi
    requires r.startYear == lo || r.startYear == hi
    ensures r in FilterView(data, genres, regions, lo, hi)
  {
  }

  /** Selecting a single genre leaves only rows of that genre. */
  lemma SingleGenre(data: seq<Row>, g: string, regions: seq<string>, lo: int, hi: int)
    ensures forall r :: r in FilterView(data, [g], regions, lo, hi) ==> r.genre == g
  {
  }
}
