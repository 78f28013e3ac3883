/** The small callbacks and widget options of the dashboard: the trend-chart
    title, the information collapse, the Top-N ticker and the genre and region
    option lists. */
module Controls {
  import opened Results
  import opened Seqs
  import opened Strings
  import opened Movies

  /* ------------------------------------------------- update_ycol_title */

  /** `update_ycol_title(ycol)`: the heading above the trend chart. For any
      other value neither branch binds `label`, and returning it raises. */
  function YcolTitle(ycol: string): (r: Result<string>)
    ensures r.Ok? <==> ParseMetric(ycol).Some?
    ensures ycol == "averageRating" ==> r == Ok("Average Rating")
    ensures ycol == "runtimeMinutes" ==> r == Ok("Average Runtime")
    ensures r.Err? ==> r.error == UnboundLabel("label")
  {
    if ycol == "averageRating" then Ok("Average Rating")
    else if ycol == "runtimeMinutes" then Ok("Average Runtime")
    else Err(UnboundLabel("label"))
  }

  /* --------------------------------------------------- toggle_collapse */

  /** Python truthiness of `n_clicks`: `None` and `0` are false. */
  predicate Truthy(n: Option<int>) {
    n.Some? && n.value != 0
  }

  /** `toggle_collapse(n, is_open)`: a click flips the panel, no click keeps it. */
  function ToggleCollapse(n: Option<int>, isOpen: bool): (open: bool)
    ensures open != isOpen <==> Truthy(n)
  {
    if Truthy(n) then !isOpen else isOpen
  }

  /** Two clicks restore the original state. */
  lemma ToggleTwice(n1: Option<int>, n2: Option<int>, isOpen: bool)
    requires Truthy(n1) && Truthy(n2)
    ensures ToggleCollapse(n2, ToggleCollapse(n1, isOpen)) == isOpen
  {
  }

  /* ---------------------------------------------- update_ticker_header */

  /** `update_ticker_header(top_n_val)`: a one-element list holding the
      slider value as text. */
  function TickerHeader(topN: int): (h: seq<string>)
    ensures |h| == 1
    ensures Parse(h[0]) == Some(topN)
    ensures CanonicalInt(h[0])
    ensures h[0][0] == '-' <==> topN < 0
  {
    ParseShow(topN);
    [Show(topN)]
  }

  /* ------------------------------------------------------ option lists */

  /** One entry of a checklist or dropdown, `{"label": v, "value": v}`;
      `text` holds the label. */
  datatype Choice = Choice(text: string, value: string)

  /** The values of `sorted(column.unique().astype(str))` other than "nan".
      A missing cell is already the text "nan" here. */
  function OptionValues(column: seq<string>): (vs: seq<string>)
    ensures StrictlySorted(vs)
    ensures forall v :: v in vs <==> v in column && v != "nan"
  {
    var s := Sort(Dedup(column));
    SortedDedupStrict(column);
    WhereKeepsStrict(s, (v: string) => v != "nan");
    Where(s, (v: string) => v != "nan")
  }

  /** Masking keeps a strictly sorted list strictly sorted. */
  lemma {:induction false} WhereKeepsStrict(s: seq<string>, p: string -> bool)
    requires StrictlySorted(s)
    ensures StrictlySorted(Where(s, p))
  {
    if |s| > 0 {
      var t := s[1..];
      assert StrictlySorted(t);
      WhereKeepsStrict(t, p);
      var rest := Where(t, p);
      if p(s[0]) {
        HeadBelowTail(s, rest);
        ConsStrict(s[0], rest);
        assert Where(s, p) == [s[0]] + rest;
      } else {
        assert Where(s, p) == rest;
      }
    }
  }

  /** A head below every value of a strictly sorted tail keeps it strictly sorted. */
  lemma ConsStrict(h: string, t: seq<string>)
    requires StrictlySorted(t)
    requires forall k :: 0 <= k < |t| ==> Lt(h, t[k])
    ensures StrictlySorted([h] + t)
  {
    var c := [h] + t;
    forall i, j | 0 <= i < j < |c|
      ensures Lt(c[i], c[j])
    {
      assert c[j] == t[j - 1];
      if i > 0 {
        assert c[i] == t[i - 1];
      }
    }
  }

  /** The head of a strictly sorted list is below every value of its tail. */
  lemma HeadBelowTail(s: seq<string>, rest: seq<string>)
    requires |s| > 0 && StrictlySorted(s)
    requires forall x :: x in rest ==> x in s[1..]
    ensures forall k :: 0 <= k < |rest| ==> Lt(s[0], rest[k])
  {
    forall k | 0 <= k < |rest|
      ensures Lt(s[0], rest[k])
    {
      assert rest[k] in s[1..];
      var j :| 0 <= j < |s[1..]| && s[1..][j] == rest[k];
      assert s[j + 1] == rest[k];
    }
  }

  /** `[{"label": v, "value": v} for v in values]`. */
  function Choices(values: seq<string>): (opts: seq<Choice>)
    ensures |opts| == |values|
    ensures forall i :: 0 <= i < |values| ==> opts[i] == Choice(values[i], values[i])
  {
    seq(|values|, i requires 0 <= i < |values| => Choice(values[i], values[i]))
  }

  /** The values carried by a list of options. */
  function ValuesOf(opts: seq<Choice>): (vs: seq<string>)
    ensures |vs| == |opts|
    ensures forall i :: 0 <= i < |opts| ==> vs[i] == opts[i].value
  {
    seq(|opts|, i requires 0 <= i < |opts| => opts[i].value)
  }

  /** The option list of a column: one entry per distinct non-"nan" value,
      labelled by itself, in strictly ascending order. */
  function OptionList(column: seq<string>): (opts: seq<Choice>)
    ensures forall i :: 0 <= i < |opts| ==> opts[i].text == opts[i].value
    ensures StrictlySorted(ValuesOf(opts))
    ensures forall v :: v in ValuesOf(opts) <==> v in column && v != "nan"
  {
    var vs := OptionValues(column);
    var opts := Choices(vs);
    assert ValuesOf(opts) == vs;
    opts
  }

  /** The genre checklist options. */
  function GenreOptions(data: seq<Row>): (opts: seq<Choice>)
    ensures StrictlySorted(ValuesOf(opts))
    ensures forall g :: g in ValuesOf(opts) <==> g in Genres(data) && g != "nan"
  {
    OptionList(Genres(data))
  }

  /** The region dropdown options. */
  function RegionOptions(data: seq<Row>): (opts: seq<Choice>)
    ensures StrictlySorted(ValuesOf(opts))
    ensures forall n :: n in ValuesOf(opts) <==> n in RegionNames(data) && n != "nan"
  {
    OptionList(RegionNames(data))
  }

  /** The option list is the only strictly ascending list of the column's
      non-"nan" values. */
  lemma OptionListUnique(column: seq<string>, other: seq<string>)
    requires StrictlySorted(other)
    requires forall v :: v in other <==> v in column && v != "nan"
    ensures other == ValuesOf(OptionList(column))
  {
    StrictlySortedUnique(ValuesOf(OptionList(column)), other);
  }
}
