/** The data selection of `generate_bar_chart`: the top actors by mean
    rating (stage A), then the top rows of those actors by rating (stage B). */
module BarChart {
  import opened Seqs
  import opened Movies
  import opened Strings

  /** One entry of `groupby("primaryName")["averageRating"].mean()`. */
  datatype ActorMean = ActorMean(name: string, mean: real)

  /** A row of `data[["primaryName", "averageRating", "primaryTitle"]]`. */
  datatype Bar = Bar(name: string, rating: real, title: string)

  function MeanKey(m: ActorMean): real {
    m.mean
  }

  function RatingKey(b: Bar): real {
    b.rating
  }

  function ActorNames(a: seq<ActorMean>): (ns: seq<string>)
    ensures |ns| == |a|
    ensures forall i :: 0 <= i < |a| ==> ns[i] == a[i].name
  {
    seq(|a|, i requires 0 <= i < |a| => a[i].name)
  }

  function ToBar(r: Row): Bar {
    Bar(r.name, r.rating, r.title)
  }

  function Bars(rows: seq<Row>): (bs: seq<Bar>)
    ensures |bs| == |rows|
    ensures forall i :: 0 <= i < |rows| ==> bs[i] == ToBar(rows[i])
  {
    seq(|rows|, i requires 0 <= i < |rows| => ToBar(rows[i]))
  }

  /* ------------------------------------------------------------ stage A */

  /** The ratings of one actor's rows, in row order. */
  function RatingsOf(rows: seq<Row>, actor: string): (xs: seq<real>)
    ensures |xs| > 0 <==> actor in Names(rows)
    ensures forall x :: x in xs ==> exists r :: r in rows && r.name == actor && r.rating == x
  {
    if |rows| == 0 then []
    else
      assert Names(rows) == [rows[0].name] + Names(rows[1..]);
      (if rows[0].name == actor then [rows[0].rating] else []) + RatingsOf(rows[1..], actor)
  }

  /** The grouped means: one entry per actor, in ascending order of name
      (`groupby` sorts its keys), each the mean of that actor's ratings. */
  function GroupMeans(rows: seq<Row>): (g: seq<ActorMean>)
    ensures StrictlySorted(ActorNames(g))
    ensures forall actor :: actor in ActorNames(g) <==> actor in Names(rows)
    ensures |g| == |Dedup(Names(rows))|
    ensures forall i :: 0 <= i < |g| ==>
      |RatingsOf(rows, g[i].name)| > 0 && g[i].mean == Mean(RatingsOf(rows, g[i].name))
  {
    var actors := Sort(Dedup(Names(rows)));
    SortedDedupStrict(Names(rows));
    assert |actors| == |Dedup(Names(rows))| by {
      assert |multiset(actors)| == |multiset(Dedup(Names(rows)))|;
    }
    MeansOf(rows, actors)
  }

  /** One entry per listed actor, in the listed order, with its mean rating. */
  function MeansOf(rows: seq<Row>, actors: seq<string>): (g: seq<ActorMean>)
    requires forall actor :: actor in actors ==> actor in Names(rows)
    ensures ActorNames(g) == actors
    ensures forall i :: 0 <= i < |g| ==>
      |RatingsOf(rows, g[i].name)| > 0 && g[i].mean == Mean(RatingsOf(rows, g[i].name))
  {
    var g := seq(|actors|, i requires 0 <= i < |actors| =>
      assert actors[i] in actors;
      ActorMean(actors[i], Mean(RatingsOf(rows, actors[i]))));
    assert ActorNames(g) == actors;
    g
  }

  /** Any name-sorted list of one entry per actor with that actor's mean
      is the grouped means. */
  lemma GroupMeansDetermined(rows: seq<Row>, other: seq<ActorMean>)
    requires StrictlySorted(ActorNames(other))
    requires forall actor :: actor in ActorNames(other) <==> actor in Names(rows)
    requires forall i :: 0 <= i < |other| ==>
      other[i].name in Names(rows) && other[i].mean == Mean(RatingsOf(rows, other[i].name))
    ensures other == GroupMeans(rows)
  {
    var g := GroupMeans(rows);
    StrictlySortedUnique(ActorNames(other), ActorNames(g));
    assert |other| == |ActorNames(g)| == |g|;
    forall i | 0 <= i < |g|
      ensures other[i] == g[i]
    {
      assert other[i].name == ActorNames(other)[i] == ActorNames(g)[i] == g[i].name;
    }
  }

  /** Stage A, lines 25-29: group by actor, average the ratings, sort
      descending and keep the first `top` actors. */
  function StageA(rows: seq<Row>, top: nat): (a: seq<ActorMean>)
    ensures |a| == if top <= |Dedup(Names(rows))| then top else |Dedup(Names(rows))|
    ensures NoDups(ActorNames(a))
    ensures NonIncreasing(a, MeanKey)
    ensures forall i :: 0 <= i < |a| ==>
      a[i].name in Names(rows) && a[i].mean == Mean(RatingsOf(rows, a[i].name))
    ensures forall i, actor :: 0 <= i < |a| && actor in Names(rows) && actor !in ActorNames(a) ==>
      a[i].mean >= Mean(RatingsOf(rows, actor))
  {
    var g := GroupMeans(rows);
    var s := SortDesc(g, MeanKey);
    SortedGroups(rows, g, s);
    var a := Take(s, top);
    KeptPrefix(rows, s, a);
    a
  }

  /** A prefix of the sorted groups keeps their facts, and beats the rest. */
  lemma KeptPrefix(rows: seq<Row>, s: seq<ActorMean>, a: seq<ActorMean>)
    requires NoDups(ActorNames(s)) && NonIncreasing(s, MeanKey)
    requires forall i :: 0 <= i < |s| ==>
      s[i].name in Names(rows) && s[i].mean == Mean(RatingsOf(rows, s[i].name))
    requires forall actor :: actor in Names(rows) ==> exists j :: 0 <= j < |s| && s[j].name == actor
    requires |a| <= |s| && a == s[..|a|]
    ensures NoDups(ActorNames(a))
    ensures NonIncreasing(a, MeanKey)
    ensures forall i :: 0 <= i < |a| ==>
      a[i].name in Names(rows) && a[i].mean == Mean(RatingsOf(rows, a[i].name))
    ensures forall i, actor :: 0 <= i < |a| && actor in Names(rows) && actor !in ActorNames(a) ==>
      a[i].mean >= Mean(RatingsOf(rows, actor))
  {
    assert forall i :: 0 <= i < |a| ==> a[i] == s[i];
    assert forall i :: 0 <= i < |a| ==> ActorNames(a)[i] == ActorNames(s)[i];
    KeptBeatLeftOut(rows, s, |a|);
  }

  /** The sorted groups keep the grouped entries and their distinct names. */
  lemma SortedGroups(rows: seq<Row>, g: seq<ActorMean>, s: seq<ActorMean>)
    requires g == GroupMeans(rows)
    requires multiset(s) == multiset(g)
    ensures |s| == |Dedup(Names(rows))|
    ensures NoDups(ActorNames(s))
    ensures forall i :: 0 <= i < |s| ==>
      s[i].name in Names(rows) && s[i].mean == Mean(RatingsOf(rows, s[i].name))
    ensures forall actor :: actor in Names(rows) ==> exists j :: 0 <= j < |s| && s[j].name == actor
  {
    assert |s| == |g| by {
      assert |multiset(s)| == |multiset(g)|;
    }
    StrictNoDups(ActorNames(g));
    DistinctNamesKept(g, s);
    GroupFactsKept(rows, g, s);
    EveryActorKept(rows, g, s);
  }

  lemma GroupFactsKept(rows: seq<Row>, g: seq<ActorMean>, s: seq<ActorMean>)
    requires forall i :: 0 <= i < |g| ==>
      |RatingsOf(rows, g[i].name)| > 0 && g[i].mean == Mean(RatingsOf(rows, g[i].name))
    requires multiset(s) == multiset(g)
    ensures forall i :: 0 <= i < |s| ==>
      s[i].name in Names(rows) && s[i].mean == Mean(RatingsOf(rows, s[i].name))
  {
    SameElements(g, s);
    forall i | 0 <= i < |s|
      ensures s[i].name in Names(rows) && s[i].mean == Mean(RatingsOf(rows, s[i].name))
    {
      assert s[i] in s;
      var k :| 0 <= k < |g| && g[k] == s[i];
    }
  }

  lemma EveryActorKept(rows: seq<Row>, g: seq<ActorMean>, s: seq<ActorMean>)
    requires forall actor :: actor in ActorNames(g) <==> actor in Names(rows)
    requires multiset(s) == multiset(g)
    ensures forall actor :: actor in Names(rows) ==> exists j :: 0 <= j < |s| && s[j].name == actor
  {
    SameElements(g, s);
    forall actor | actor in Names(rows)
      ensures exists j :: 0 <= j < |s| && s[j].name == actor
    {
      assert actor in ActorNames(g);
      var k :| 0 <= k < |g| && ActorNames(g)[k] == actor;
      assert g[k] in g;
      var j :| 0 <= j < |s| && s[j] == g[k];
    }
  }

  lemma SameElements<T>(g: seq<T>, s: seq<T>)
    requires multiset(s) == multiset(g)
    ensures forall x :: x in s <==> x in g
  {
    forall x
      ensures x in s <==> x in g
    {
      assert x in s <==> x in multiset(s);
      assert x in g <==> x in multiset(g);
    }
  }

  /** A permutation of entries with distinct names has distinct names. */
  lemma DistinctNamesKept(g: seq<ActorMean>, s: seq<ActorMean>)
    requires NoDups(ActorNames(g))
    requires multiset(s) == multiset(g)
    ensures NoDups(ActorNames(s))
  {
    SameElements(g, s);
    GroupsNoDups(g);
    PermutationNoDups(g, s);
    forall i, j | 0 <= i < j < |s|
      ensures s[i].name != s[j].name
    {
      assert s[i] in g && s[j] in g;
      var k1 :| 0 <= k1 < |g| && g[k1] == s[i];
      var k2 :| 0 <= k2 < |g| && g[k2] == s[j];
      assert ActorNames(g)[k1] == s[i].name && ActorNames(g)[k2] == s[j].name;
      assert s[i] != s[j];
    }
  }

  lemma GroupsNoDups(g: seq<ActorMean>)
    requires NoDups(ActorNames(g))
    ensures NoDups(g)
  {
    forall i, j | 0 <= i < j < |g|
      ensures g[i] != g[j]
    {
      assert ActorNames(g)[i] != ActorNames(g)[j];
    }
  }

  /** Every kept actor's mean is at least every left-out actor's mean. */
  lemma KeptBeatLeftOut(rows: seq<Row>, s: seq<ActorMean>, k: nat)
    requires k <= |s|
    requires NonIncreasing(s, MeanKey)
    requires forall i :: 0 <= i < |s| ==>
      s[i].name in Names(rows) && s[i].mean == Mean(RatingsOf(rows, s[i].name))
    requires forall actor :: actor in Names(rows) ==> exists j :: 0 <= j < |s| && s[j].name == actor
    ensures forall i, actor :: 0 <= i < k && actor in Names(rows) && actor !in ActorNames(s[..k]) ==>
      s[i].mean >= Mean(RatingsOf(rows, actor))
  {
    forall i, actor | 0 <= i < k && actor in Names(rows) && actor !in ActorNames(s[..k])
      ensures s[i].mean >= Mean(RatingsOf(rows, actor))
    {
      var j :| 0 <= j < |s| && s[j].name == actor;
      PrefixNames(s, k);
      assert MeanKey(s[i]) >= MeanKey(s[j]);
    }
  }

  lemma PrefixNames(s: seq<ActorMean>, k: nat)
    requires k <= |s|
    ensures forall j :: 0 <= j < k ==> s[j].name in ActorNames(s[..k])
  {
    forall j | 0 <= j < k
      ensures s[j].name in ActorNames(s[..k])
    {
      assert ActorNames(s[..k])[j] == s[j].name;
    }
  }

  /* ------------------------------------------------------------ stage B */

  /** `data[data.primaryName.isin(actors)][["primaryName", "averageRating",
      "primaryTitle"]]`: the rows of the given actors, in row order. */
  function Qualifying(rows: seq<Row>, actors: seq<string>): (q: seq<Bar>)
    ensures forall b :: b in q ==> b.name in actors && b in Bars(rows)
    ensures forall i :: 0 <= i < |rows| && rows[i].name in actors ==> ToBar(rows[i]) in q
    ensures multiset(q) <= multiset(Bars(rows))
    ensures KeepsCounts(Bars(rows), q, (b: Bar) => b.name in actors)
  {
    var bars := Bars(rows);
    assert forall i :: 0 <= i < |rows| ==> ToBar(rows[i]) == bars[i] && bars[i] in bars;
    Where(bars, (b: Bar) => b.name in actors)
  }

  /** No bar of `q` left out of `out` (one with more copies in `q` than in
      `out`) is rated above the last bar kept. */
  predicate NoneLeftAbove(q: seq<Bar>, out: seq<Bar>) {
    |out| > 0 ==> forall b :: b in q && multiset(out)[b] < multiset(q)[b] ==> b.rating <= out[|out| - 1].rating
  }

  /** `sort_values("averageRating", ascending=False).head(top)`: the `top`
      highest-rated bars, nothing left behind rated above the last one kept. */
  function TopRows(q: seq<Bar>, top: nat): (out: seq<Bar>)
    ensures |out| == if top <= |q| then top else |q|
    ensures multiset(out) <= multiset(q)
    ensures NonIncreasing(out, RatingKey)
    ensures NoneLeftAbove(q, out)
  {
    var s := SortDesc(q, RatingKey);
    var k := if top <= |q| then top else |q|;
    CutOfSorted(q, s, k);
    s[..k]
  }

  /** Stage B, lines 34-38: sort the qualifying rows by rating, descending,
      and keep the first `top` rows. */
  function StageB(rows: seq<Row>, actors: seq<string>, top: nat): (out: seq<Bar>)
    ensures |out| == if top <= |Qualifying(rows, actors)| then top else |Qualifying(rows, actors)|
    ensures multiset(out) <= multiset(Qualifying(rows, actors))
    ensures forall i :: 0 <= i < |out| ==> out[i].name in actors && out[i] in Bars(rows)
    ensures NonIncreasing(out, RatingKey)
    ensures NoneLeftAbove(Qualifying(rows, actors), out)
  {
    var q := Qualifying(rows, actors);
    var out := TopRows(q, top);
    FromQualifying(rows, actors, q, out);
    out
  }

  lemma FromQualifying(rows: seq<Row>, actors: seq<string>, q: seq<Bar>, out: seq<Bar>)
    requires q == Qualifying(rows, actors)
    requires multiset(out) <= multiset(q)
    ensures forall i :: 0 <= i < |out| ==> out[i].name in actors && out[i] in Bars(rows)
  {
    forall i | 0 <= i < |out|
      ensures out[i].name in actors && out[i] in Bars(rows)
    {
      assert out[i] in multiset(out);
      assert out[i] in multiset(q);
      assert out[i] in q;
    }
  }

  /** Cutting a non-increasing permutation of `q` after `k` elements leaves
      behind nothing rated above the last kept element. */
  lemma CutOfSorted(q: seq<Bar>, s: seq<Bar>, k: nat)
    requires k <= |s|
    requires multiset(s) == multiset(q)
    requires NonIncreasing(s, RatingKey)
    ensures NonIncreasing(s[..k], RatingKey)
    ensures multiset(s[..k]) <= multiset(q)
    ensures NoneLeftAbove(q, s[..k])
  {
    assert s == s[..k] + s[k..];
    assert multiset(s) == multiset(s[..k]) + multiset(s[k..]);
    if k > 0 {
      LeftOutBelow(q, s, k);
    }
  }

  /** A bar with more copies in `q` than in the first `k` elements lies in
      the rest, so it is rated no higher than element `k - 1`. */
  lemma LeftOutBelow(q: seq<Bar>, s: seq<Bar>, k: nat)
    requires 0 < k <= |s|
    requires multiset(q) == multiset(s[..k]) + multiset(s[k..])
    requires NonIncreasing(s, RatingKey)
    ensures forall b :: b in q && multiset(s[..k])[b] < multiset(q)[b] ==> b.rating <= s[..k][k - 1].rating
  {
    forall b | b in q && multiset(s[..k])[b] < multiset(q)[b]
      ensures b.rating <= s[..k][k - 1].rating
    {
      assert b in multiset(s[k..]);
      var j :| 0 <= j < |s[k..]| && s[k..][j] == b;
      assert RatingKey(s[k - 1]) >= RatingKey(s[k + j]);
    }
  }

  /** `generate_bar_chart(data, top)` up to the chart: stage B applied to
      the actors stage A keeps. */
  function TopBars(rows: seq<Row>, top: nat): (out: seq<Bar>)
    ensures |out| <= top
    ensures var q := Qualifying(rows, ActorNames(StageA(rows, top)));
      |out| == (if top <= |q| then top else |q|) && multiset(out) <= multiset(q) && NoneLeftAbove(q, out)
    ensures forall i :: 0 <= i < |out| ==> out[i].name in ActorNames(StageA(rows, top))
    ensures forall i :: 0 <= i < |out| ==> out[i] in Bars(rows)
    ensures NonIncreasing(out, RatingKey)
  {
    StageB(rows, ActorNames(StageA(rows, top)), top)
  }

  /** With `top = 1` on a non-empty view, stage A keeps one actor whose mean
      is the highest of all actors'. */
  lemma TopOneIsBest(rows: seq<Row>)
    requires |rows| > 0
    ensures |StageA(rows, 1)| == 1
    ensures forall actor :: actor in Names(rows) ==>
      StageA(rows, 1)[0].mean >= Mean(RatingsOf(rows, actor))
  {
    var a := StageA(rows, 1);
    assert rows[0].name in Names(rows);
    assert Names(rows)[0] in Dedup(Names(rows));
    forall actor | actor in Names(rows)
      ensures a[0].mean >= Mean(RatingsOf(rows, actor))
    {
      if actor in ActorNames(a) {
        assert ActorNames(a)[0] == actor;
      }
    }
  }

  /** With `top = 1` on a non-empty view, the chart shows exactly one bar,
      and it belongs to the actor stage A keeps. */
  lemma TopOneBar(rows: seq<Row>)
    requires |rows| > 0
    ensures |StageA(rows, 1)| == 1
    ensures |TopBars(rows, 1)| == 1
    ensures TopBars(rows, 1)[0].name == StageA(rows, 1)[0].name
  {
    var a := StageA(rows, 1);
    assert Names(rows)[0] in Dedup(Names(rows));
    assert ActorNames(a) == [a[0].name];
    StageBOne(rows, a[0].name);
  }

  /** Stage B with one listed actor and `top = 1` keeps one of that actor's rows. */
  lemma StageBOne(rows: seq<Row>, actor: string)
    requires actor in Names(rows)
    ensures |StageB(rows, [actor], 1)| == 1
    ensures StageB(rows, [actor], 1)[0].name == actor
  {
    var i :| 0 <= i < |rows| && rows[i].name == actor;
    assert ToBar(rows[i]) in Qualifying(rows, [actor]);
  }

  /* ------------------------------------- stage B's row-versus-actor edge */

  /** Three rows: actor A in two movies rated 9.0, actor B in one rated 8.0. */
  function WitnessRows(): seq<Row> {
    [Row(0, "T1", "A", "Drama", 2015, Results.None, 9.0, "US", "United States of America"),
     Row(1, "T2", "A", "Drama", 2016, Results.None, 9.0, "US", "United States of America"),
     Row(2, "T3", "B", "Drama", 2017, Results.None, 8.0, "US", "United States of America")]
  }

  /** With `top = 2`, stage A keeps both actors, but stage B keeps A's two
      rows: A gets two bars and B, a stage-A actor, gets none. */
  lemma DuplicateActorWitness()
    ensures ActorNames(StageA(WitnessRows(), 2)) == ["A", "B"]
    ensures TopBars(WitnessRows(), 2) == [Bar("A", 9.0, "T1"), Bar("A", 9.0, "T2")]
  {
    WitnessActors();
    WitnessStageB();
  }

  lemma WitnessActors()
    ensures ActorNames(StageA(WitnessRows(), 2)) == ["A", "B"]
  {
    WitnessStageA();
    ActorNamesPair(ActorMean("A", 9.0), ActorMean("B", 8.0));
  }

  lemma WitnessNames()
    ensures Dedup(Names(WitnessRows())) == ["A", "B"]
  {
    WitnessNameColumn();
    WitnessDedup();
  }

  lemma WitnessNameColumn()
    ensures Names(WitnessRows()) == ["A", "A", "B"]
  {
  }

  lemma WitnessDedup()
    ensures Dedup(["A", "A", "B"]) == ["A", "B"]
  {
    DedupRepeatThenNew("A", "B");
  }

  lemma DedupRepeatThenNew<T(!new)>(a: T, b: T)
    requires a != b
    ensures Dedup([a, a, b]) == [a, b]
  {
    var s := [a, a, b];
    FirstIndexAt(s, 0);
    assert s[..2] == [a, a];
    FirstIndexAt(s, 2);
    assert InFirstOccurrenceOrder(s, [a, b]);
    FirstOccurrenceOrderUnique(s, [a, b], Dedup(s));
  }

  lemma WitnessRatings()
    ensures RatingsOf(WitnessRows(), "A") == [9.0, 9.0]
    ensures RatingsOf(WitnessRows(), "B") == [8.0]
  {
    var rows := WitnessRows();
    assert rows[1..][1..] == [rows[2]];
    assert RatingsOf([rows[2]], "A") == [];
    assert RatingsOf([rows[2]], "B") == [8.0];
  }

  lemma WitnessMeans()
    ensures Mean(RatingsOf(WitnessRows(), "A")) == 9.0
    ensures Mean(RatingsOf(WitnessRows(), "B")) == 8.0
  {
    WitnessRatings();
    MeanOfEqual(9.0);
    MeanOfEqual(8.0);
  }

  lemma MeanOfEqual(x: real)
    ensures Mean([x]) == x && Mean([x, x]) == x
  {
    assert Sum([x]) == x;
    assert [x, x][1..] == [x];
    assert Sum([x, x]) == x + x;
  }

  /** Stage A keeps both actors, A (mean 9.0) ahead of B (mean 8.0). */
  lemma WitnessStageA()
    ensures StageA(WitnessRows(), 2) == [ActorMean("A", 9.0), ActorMean("B", 8.0)]
  {
    WitnessNameColumn();
    WitnessNames();
    WitnessMeans();
    TwoActorsRanked(WitnessRows(), "A", "B");
  }

  /** With exactly two actors, `top = 2` keeps both, the higher mean first. */
  lemma TwoActorsRanked(rows: seq<Row>, x: string, y: string)
    requires Dedup(Names(rows)) == [x, y]
    requires x in Names(rows) && y in Names(rows)
    requires Mean(RatingsOf(rows, x)) > Mean(RatingsOf(rows, y))
    ensures StageA(rows, 2) == [ActorMean(x, Mean(RatingsOf(rows, x))), ActorMean(y, Mean(RatingsOf(rows, y)))]
  {
    var a := StageA(rows, 2);
    TwoRanked(a, x, y, Mean(RatingsOf(rows, x)), Mean(RatingsOf(rows, y)));
  }

  /** Two entries with distinct names drawn from `x` and `y`, ordered by a
      strictly larger mean for `x`, are `x` then `y`. */
  lemma TwoRanked(a: seq<ActorMean>, x: string, y: string, mx: real, my: real)
    requires |a| == 2 && NoDups(ActorNames(a)) && NonIncreasing(a, MeanKey)
    requires forall i :: 0 <= i < 2 ==> a[i].name in [x, y]
    requires forall i :: 0 <= i < 2 && a[i].name == x ==> a[i].mean == mx
    requires forall i :: 0 <= i < 2 && a[i].name == y ==> a[i].mean == my
    requires mx > my
    ensures a == [ActorMean(x, mx), ActorMean(y, my)]
  {
    assert ActorNames(a)[0] != ActorNames(a)[1];
    assert MeanKey(a[0]) >= MeanKey(a[1]);
  }

  lemma ActorNamesPair(m1: ActorMean, m2: ActorMean)
    ensures ActorNames([m1, m2]) == [m1.name, m2.name]
  {
  }

  lemma WitnessStageB()
    ensures StageB(WitnessRows(), ["A", "B"], 2) == [Bar("A", 9.0, "T1"), Bar("A", 9.0, "T2")]
  {
    WitnessQualifying();
    WitnessSort();
  }

  lemma WitnessQualifying()
    ensures Qualifying(WitnessRows(), ["A", "B"])
         == [Bar("A", 9.0, "T1"), Bar("A", 9.0, "T2"), Bar("B", 8.0, "T3")]
  {
    var bars := [Bar("A", 9.0, "T1"), Bar("A", 9.0, "T2"), Bar("B", 8.0, "T3")];
    assert Bars(WitnessRows()) == bars;
    WhereAll(bars, (b: Bar) => b.name in ["A", "B"]);
  }

  lemma WitnessSort()
    ensures SortDesc([Bar("A", 9.0, "T1"), Bar("A", 9.0, "T2"), Bar("B", 8.0, "T3")], RatingKey)
         == [Bar("A", 9.0, "T1"), Bar("A", 9.0, "T2"), Bar("B", 8.0, "T3")]
  {
    SortDescOfSorted([Bar("A", 9.0, "T1"), Bar("A", 9.0, "T2"), Bar("B", 8.0, "T3")], RatingKey);
  }

  /** `title` is the title of one of `actor`'s highest-rated rows. */
  predicate TopRatedTitle(rows: seq<Row>, actor: string, title: string) {
    exists k :: 0 <= k < |rows| && rows[k].name == actor && rows[k].title == title
      && forall m :: 0 <= m < |rows| && rows[m].name == actor ==> rows[m].rating <= rows[k].rating
  }

  /** Position of one actor's first highest-rated row. */
  function BestRow(rows: seq<Row>, actor: string): (k: nat)
    requires actor in Names(rows)
    ensures k < |rows| && rows[k].name == actor
    ensures forall m :: 0 <= m < |rows| && rows[m].name == actor ==> rows[m].rating <= rows[k].rating
  {
    if actor !in Names(rows[1..]) then
      HeadOnly(rows, actor);
      0
    else
      var j := BestRow(rows[1..], actor);
      BestOfTail(rows, actor, j);
      if rows[0].name == actor && rows[0].rating >= rows[j + 1].rating then 0 else j + 1
  }

  /** The name column of a non-empty view is its head's name before the tail's. */
  lemma NamesCons(rows: seq<Row>)
    requires |rows| > 0
    ensures Names(rows) == [rows[0].name] + Names(rows[1..])
  {
  }

  /** An actor missing from the tail appears only in the head row. */
  lemma HeadOnly(rows: seq<Row>, actor: string)
    requires |rows| > 0 && actor in Names(rows) && actor !in Names(rows[1..])
    ensures rows[0].name == actor
    ensures forall m :: 1 <= m < |rows| ==> rows[m].name != actor
  {
    NamesCons(rows);
    forall m | 1 <= m < |rows|
      ensures rows[m].name != actor
    {
      assert Names(rows[1..])[m - 1] == rows[m].name;
    }
  }

  /** The tail's best row, shifted by one, beats every later row of the actor. */
  lemma BestOfTail(rows: seq<Row>, actor: string, j: nat)
    requires j + 1 < |rows| && rows[1..][j].name == actor
    requires forall m :: 0 <= m < |rows| - 1 && rows[1..][m].name == actor ==>
      rows[1..][m].rating <= rows[1..][j].rating
    ensures rows[j + 1].name == actor
    ensures forall m :: 1 <= m < |rows| && rows[m].name == actor ==> rows[m].rating <= rows[j + 1].rating
  {
    forall m | 1 <= m < |rows| && rows[m].name == actor
      ensures rows[m].rating <= rows[j + 1].rating
    {
      assert rows[1..][m - 1] == rows[m];
    }
  }

  /** The highest-rated row of one actor, as a bar. */
  function BestBar(rows: seq<Row>, actor: string): (b: Bar)
    requires actor in Names(rows)
    ensures b.name == actor && b in Bars(rows)
    ensures forall i :: 0 <= i < |rows| && rows[i].name == actor ==> rows[i].rating <= b.rating
    ensures TopRatedTitle(rows, actor, b.title)
  {
    var k := BestRow(rows, actor);
    assert Bars(rows)[k] == ToBar(rows[k]);
    ToBar(rows[k])
  }

  /** An actor's mean rating lies between any bounds on that actor's ratings. */
  lemma MeanWithinRatings(rows: seq<Row>, actor: string, lo: real, hi: real)
    requires actor in Names(rows)
    requires forall i :: 0 <= i < |rows| && rows[i].name == actor ==> lo <= rows[i].rating <= hi
    ensures lo <= Mean(RatingsOf(rows, actor)) <= hi
  {
    var xs := RatingsOf(rows, actor);
    forall i | 0 <= i < |xs|
      ensures lo <= xs[i] <= hi
    {
      assert xs[i] in xs;
      var r :| r in rows && r.name == actor && r.rating == xs[i];
      var k :| 0 <= k < |rows| && rows[k] == r;
    }
    MeanBounds(xs, lo, hi);
  }

  /** A stage-A mean is at least any lower bound on that actor's ratings
      and at most the rating of that actor's best movie. */
  lemma StageAMeanBounds(rows: seq<Row>, top: nat, i: nat, lo: real)
    requires i < |StageA(rows, top)|
    requires forall k :: 0 <= k < |rows| && rows[k].name == StageA(rows, top)[i].name ==> lo <= rows[k].rating
    ensures lo <= StageA(rows, top)[i].mean <= BestBar(rows, StageA(rows, top)[i].name).rating
  {
    var m := StageA(rows, top)[i];
    MeanWithinRatings(rows, m.name, lo, BestBar(rows, m.name).rating);
  }

  /** The ranking the chart evidently intends: one bar per stage-A actor,
      sized by the actor's mean rating and labelled with the actor's
      highest-rated movie. */
  function RankActors(rows: seq<Row>, top: nat): (out: seq<Bar>)
    ensures |out| == if top <= |Dedup(Names(rows))| then top else |Dedup(Names(rows))|
    ensures forall i :: 0 <= i < |out| ==> out[i].name == ActorNames(StageA(rows, top))[i]
    ensures forall i, j :: 0 <= i < j < |out| ==> out[i].name != out[j].name
    ensures NonIncreasing(out, RatingKey)
    ensures forall i :: 0 <= i < |out| ==>
      out[i].name in Names(rows) && out[i].rating == Mean(RatingsOf(rows, out[i].name))
    ensures forall i :: 0 <= i < |out| ==> TopRatedTitle(rows, out[i].name, out[i].title)
  {
    var a := StageA(rows, top);
    var out := RankBars(rows, a);
    RankedLikeStageA(rows, a, out);
    out
  }

  /** The bars of a list of stage-A entries, one each, in the same order. */
  function RankBars(rows: seq<Row>, a: seq<ActorMean>): (out: seq<Bar>)
    requires forall i :: 0 <= i < |a| ==> a[i].name in Names(rows)
    ensures |out| == |a|
    ensures forall i :: 0 <= i < |a| ==> out[i].name == a[i].name && out[i].rating == a[i].mean
    ensures forall i :: 0 <= i < |a| ==> TopRatedTitle(rows, a[i].name, out[i].title)
  {
    seq(|a|, i requires 0 <= i < |a| => RankBar(rows, a[i]))
  }

  /** The bar of one stage-A entry. */
  function RankBar(rows: seq<Row>, m: ActorMean): (b: Bar)
    requires m.name in Names(rows)
    ensures b.name == m.name && b.rating == m.mean
    ensures TopRatedTitle(rows, m.name, b.title)
  {
    Bar(m.name, m.mean, BestBar(rows, m.name).title)
  }

  lemma RankedLikeStageA(rows: seq<Row>, a: seq<ActorMean>, out: seq<Bar>)
    requires |out| == |a|
    requires NoDups(ActorNames(a)) && NonIncreasing(a, MeanKey)
    requires forall i :: 0 <= i < |a| ==>
      a[i].name in Names(rows) && a[i].mean == Mean(RatingsOf(rows, a[i].name))
    requires forall i :: 0 <= i < |a| ==>
      out[i].name == a[i].name && out[i].rating == a[i].mean && TopRatedTitle(rows, a[i].name, out[i].title)
    ensures forall i :: 0 <= i < |out| ==> out[i].name == ActorNames(a)[i]
    ensures forall i, j :: 0 <= i < j < |out| ==> out[i].name != out[j].name
    ensures NonIncreasing(out, RatingKey)
    ensures forall i :: 0 <= i < |out| ==>
      out[i].name in Names(rows) && out[i].rating == Mean(RatingsOf(rows, out[i].name))
    ensures forall i :: 0 <= i < |out| ==> TopRatedTitle(rows, out[i].name, out[i].title)
  {
    forall i, j | 0 <= i < j < |out|
      ensures out[i].name != out[j].name && RatingKey(out[i]) >= RatingKey(out[j])
    {
      assert ActorNames(a)[i] != ActorNames(a)[j];
      assert MeanKey(a[i]) >= MeanKey(a[j]);
    }
  }
}
