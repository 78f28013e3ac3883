/** The two counting KPIs of the dashboard header: `nunique` over the
    `primaryTitle` and `primaryName` columns of the filtered view. */
module Kpis {
  import opened Seqs
  import opened Movies

  /** `Series.nunique()`: the number of distinct values in a column. */
  function CountDistinct<T(==,!new)>(column: seq<T>): (n: nat)
    ensures n == |set x | x in column|
    ensures n <= |column|
    ensures n == 0 <==> |column| == 0
  {
    var u := Dedup(column);
    NoDupsCardinality(u);
    assert (set x | x in u) == (set x | x in column);
    assert |column| > 0 ==> column[0] in u;
    |u|
  }

  /** `df["primaryTitle"].nunique()`: the number of distinct movies. */
  function TotalMovies(view: seq<Row>): (n: nat)
    ensures n == |set r | r in view :: r.title|
    ensures n <= |view|
    ensures n == 0 <==> |view| == 0
  {
    var c := Titles(view);
    assert (set x | x in c) == (set r | r in view :: r.title) by {
      forall x | x in (set r | r in view :: r.title)
        ensures x in c
      {
        var r :| r in view && r.title == x;
        var i :| 0 <= i < |view| && view[i] == r;
        assert c[i] == x;
      }
    }
    CountDistinct(c)
  }

  /** `df["primaryName"].nunique()`: the number of distinct actors. */
  function TotalActors(view: seq<Row>): (n: nat)
    ensures n == |set r | r in view :: r.name|
    ensures n <= |view|
    ensures n == 0 <==> |view| == 0
  {
    var c := Names(view);
    assert (set x | x in c) == (set r | r in view :: r.name) by {
      forall x | x in (set r | r in view :: r.name)
        ensures x in c
      {
        var r :| r in view && r.name == x;
        var i :| 0 <= i < |view| && view[i] == r;
        assert c[i] == x;
      }
    }
    CountDistinct(c)
  }

  /** Narrowing the view never raises a count: a sub-view has at most as
      many distinct movies and actors as the view it was taken from. */
  lemma CountsMonotone(sub: seq<Row>, view: seq<Row>)
    requires forall r :: r in sub ==> r in view
    ensures TotalMovies(sub) <= TotalMovies(view)
    ensures TotalActors(sub) <= TotalActors(view)
  {
    var ts := set r | r in sub :: r.title;
    var tv := set r | r in view :: r.title;
    SubsetCardinality(ts, tv);
    var ns := set r | r in sub :: r.name;
    var nv := set r | r in view :: r.name;
    SubsetCardinality(ns, nv);
  }

  lemma SubsetCardinality(a: set<string>, b: set<string>)
    requires a <= b
    ensures |a| <= |b|
  {
    assert b == a + (b - a);
  }
}
