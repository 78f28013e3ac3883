/** Python string ordering (code-point lexicographic, as `sorted` uses),
    sorting under it, and the decimal text of an integer (`f'{n}'`). */
module Strings {
  import opened Results
  import opened Seqs

  /* ------------------------------------------------------------- ordering */

  /** `a < b` on Python `str`: the first differing character decides, and a
      proper prefix is smaller. */
  predicate Lt(a: string, b: string)
    decreases |a|
  {
    if |a| == 0 then |b| > 0
    else |b| > 0 && (a[0] < b[0] || (a[0] == b[0] && Lt(a[1..], b[1..])))
  }

  predicate Le(a: string, b: string) {
    a == b || Lt(a, b)
  }

  lemma {:induction false} LtIrreflexive(a: string)
    ensures !Lt(a, a)
  {
    if |a| > 0 {
      LtIrreflexive(a[1..]);
    }
  }

  lemma {:induction false} LtTransitive(a: string, b: string, c: string)
    requires Lt(a, b) && Lt(b, c)
    ensures Lt(a, c)
    decreases |a|
  {
    if |a| > 0 && a[0] == b[0] && b[0] == c[0] {
      LtTransitive(a[1..], b[1..], c[1..]);
    }
  }

  /** Any two distinct strings are ordered one way or the other. */
  lemma {:induction false} LtTotal(a: string, b: string)
    ensures a == b || Lt(a, b) || Lt(b, a)
    decreases |a|
  {
    if |a| > 0 && |b| > 0 && a[0] == b[0] {
      LtTotal(a[1..], b[1..]);
      if a[1..] == b[1..] {
        assert a == [a[0]] + a[1..] && b == [b[0]] + b[1..];
      }
    }
  }

  lemma LtAsymmetric(a: string, b: string)
    requires Lt(a, b)
    ensures !Lt(b, a)
  {
    if Lt(b, a) {
      LtTransitive(a, b, a);
      LtIrreflexive(a);
    }
  }

  /* -------------------------------------------------------------- sorting */

  predicate Sorted(s: seq<string>) {
    forall i, j :: 0 <= i < j < |s| ==> Le(s[i], s[j])
  }

  predicate StrictlySorted(s: seq<string>) {
    forall i, j :: 0 <= i < j < |s| ==> Lt(s[i], s[j])
  }

  /** Inserts `x` into a sorted sequence before the first element not below it. */
  function Insert(x: string, s: seq<string>): (r: seq<string>)
    requires Sorted(s)
    ensures Sorted(r)
    ensures multiset(r) == multiset(s) + multiset{x}
    ensures |r| == |s| + 1
  {
    if |s| == 0 then [x]
    else if Le(x, s[0]) then
      assert forall k :: 0 <= k < |s| ==> Le(x, s[k]) by {
        forall k | 0 <= k < |s|
          ensures Le(x, s[k])
        {
          if x != s[0] && s[0] != s[k] {
            LtTransitive(x, s[0], s[k]);
          }
        }
      }
      [x] + s
    else
      assert s == [s[0]] + s[1..];
      LtTotal(x, s[0]);
      var rest := Insert(x, s[1..]);
      HeadBelowAll(s[0], x, s[1..], rest);
      [s[0]] + rest
  }

  lemma HeadBelowAll(h: string, x: string, tail: seq<string>, rest: seq<string>)
    requires Le(h, x)
    requires forall k :: 0 <= k < |tail| ==> Le(h, tail[k])
    requires multiset(rest) == multiset(tail) + multiset{x}
    ensures forall k :: 0 <= k < |rest| ==> Le(h, rest[k])
  {
    forall k | 0 <= k < |rest|
      ensures Le(h, rest[k])
    {
      assert rest[k] in multiset(rest);
      if rest[k] != x {
        assert rest[k] in multiset(tail);
        var j :| 0 <= j < |tail| && tail[j] == rest[k];
      }
    }
  }

  /** Python's `sorted` on a list of `str`: an ascending permutation. */
  function Sort(s: seq<string>): (r: seq<string>)
    ensures Sorted(r)
    ensures multiset(r) == multiset(s)
  {
    if |s| == 0 then []
    else
      assert s == [s[0]] + s[1..];
      Insert(s[0], Sort(s[1..]))
  }

  /** A sorted sequence without repeated values is strictly sorted. */
  lemma SortedDistinctIsStrict(s: seq<string>)
    requires Sorted(s)
    requires forall i, j :: 0 <= i < j < |s| ==> s[i] != s[j]
    ensures StrictlySorted(s)
  {
  }

  /** Two strictly sorted sequences with the same values are equal: a strictly
      sorted list is determined by its set of values. */
  lemma {:induction false} StrictlySortedUnique(a: seq<string>, b: seq<string>)
    requires StrictlySorted(a) && StrictlySorted(b)
    requires forall x :: x in a <==> x in b
    ensures a == b
    decreases |a|
  {
    if |a| > 0 {
      assert a[0] in a;
    }
    if |b| > 0 {
      assert b[0] in b;
    }
    if |a| > 0 && |b| > 0 {
      SmallestFirst(a);
      SmallestFirst(b);
      if a[0] != b[0] {
        LtAsymmetric(a[0], b[0]);
      }
      TailOfStrict(a);
      TailOfStrict(b);
      StrictlySortedUnique(a[1..], b[1..]);
      assert a == [a[0]] + a[1..];
      assert b == [b[0]] + b[1..];
    }
  }

  lemma SmallestFirst(a: seq<string>)
    requires |a| > 0 && StrictlySorted(a)
    ensures forall x :: x in a && x != a[0] ==> Lt(a[0], x)
  {
    forall x | x in a && x != a[0]
      ensures Lt(a[0], x)
    {
      var i :| 0 <= i < |a| && a[i] == x;
      assert i != 0;
    }
  }

  lemma TailOfStrict(a: seq<string>)
    requires |a| > 0 && StrictlySorted(a)
    ensures StrictlySorted(a[1..])
    ensures forall x :: x in a[1..] <==> x in a && x != a[0]
  {
    forall x | x in a[1..]
      ensures x != a[0]
    {
      var i :| 0 <= i < |a[1..]| && a[1..][i] == x;
      assert Lt(a[0], a[i + 1]);
      LtIrreflexive(a[0]);
    }
    assert a == [a[0]] + a[1..];
  }

  /** Sorting the distinct values gives a strictly ascending list of exactly them. */
  lemma SortedDedupStrict(column: seq<string>)
    ensures StrictlySorted(Sort(Dedup(column)))
    ensures forall v :: v in Sort(Dedup(column)) <==> v in column
  {
    var u := Dedup(column);
    var s := Sort(u);
    forall v
      ensures v in s <==> v in u
    {
      assert v in s <==> v in multiset(s);
      assert v in u <==> v in multiset(u);
    }
    PermutationNoDups(u, s);
    SortedDistinctIsStrict(s);
  }

  /** A strictly sorted list repeats no value. */
  lemma StrictNoDups(s: seq<string>)
    requires StrictlySorted(s)
    ensures NoDups(s)
  {
    forall i, j | 0 <= i < j < |s|
      ensures s[i] != s[j]
    {
      LtIrreflexive(s[i]);
    }
  }

  /* ------------------------------------------------------ decimal numbers */

  predicate IsDigit(c: char) {
    '0' <= c <= '9'
  }

  function DigitChar(d: nat): (c: char)
    requires d < 10
    ensures IsDigit(c)
    ensures c as int == '0' as int + d
  {
    ['0', '1', '2', '3', '4', '5', '6', '7', '8', '9'][d]
  }

  function DigitValue(c: char): (d: nat)
    requires IsDigit(c)
    ensures d < 10
  {
    (c as int - '0' as int) as nat
  }

  /** Decimal digits of `n`, most significant first, no leading zero. */
  function ShowNat(n: nat): (s: string)
    ensures |s| > 0
    ensures forall i :: 0 <= i < |s| ==> IsDigit(s[i])
    ensures |s| > 1 ==> s[0] != '0'
    ensures n > 0 ==> s != "0"
  {
    if n < 10 then [DigitChar(n)] else ShowNat(n / 10) + [DigitChar(n % 10)]
  }

  /** Digits as Python prints a non-negative `int`: at least one, and no
      leading zero unless the number is zero. */
  predicate CanonicalDigits(d: string) {
    |d| > 0 && (forall i :: 0 <= i < |d| ==> IsDigit(d[i])) && (|d| > 1 ==> d[0] != '0')
  }

  /** The text Python prints for some `int`: canonical digits, preceded by
      '-' exactly for a negative number (so never "-0"). */
  predicate CanonicalInt(t: string) {
    if |t| > 0 && t[0] == '-' then CanonicalDigits(t[1..]) && t[1..] != "0"
    else CanonicalDigits(t)
  }

  /** `f'{n}'` for a Python `int`. */
  function Show(n: int): (t: string)
    ensures CanonicalInt(t)
    ensures t[0] == '-' <==> n < 0
  {
    if n < 0 then
      var d := ShowNat(-n);
      assert ("-" + d)[1..] == d;
      "-" + d
    else ShowNat(n)
  }

  function ParseNat(s: string): nat
    requires forall i :: 0 <= i < |s| ==> IsDigit(s[i])
  {
    if |s| == 0 then 0
    else 10 * ParseNat(s[..|s| - 1]) + DigitValue(s[|s| - 1])
  }

  /** `int(s)` on an optionally signed run of decimal digits, `None` otherwise. */
  function Parse(s: string): Option<int> {
    if |s| > 1 && s[0] == '-' && forall i :: 1 <= i < |s| ==> IsDigit(s[i]) then
      Some(0 - ParseNat(s[1..]) as int)
    else if |s| > 0 && forall i :: 0 <= i < |s| ==> IsDigit(s[i]) then
      Some(ParseNat(s))
    else None
  }

  lemma {:induction false} ParseShowNat(n: nat)
    ensures ParseNat(ShowNat(n)) == n
  {
    if n >= 10 {
      ParseShowNat(n / 10);
      var s := ShowNat(n);
      assert s[..|s| - 1] == ShowNat(n / 10);
      assert DigitValue(DigitChar(n % 10)) == n % 10;
    } else {
      assert DigitValue(DigitChar(n)) == n;
    }
  }

  /** The text of an integer reads back as that integer. */
  lemma ParseShow(n: int)
    ensures Parse(Show(n)) == Some(n)
  {
    if n < 0 {
      ParseShowNegative(n);
    } else {
      ParseShowNonNegative(n);
    }
  }

  lemma ParseShowNegative(n: int)
    requires n < 0
    ensures Parse(Show(n)) == Some(n)
  {
    var m: nat := -n;
    var d := ShowNat(m);
    assert Show(n) == "-" + d;
    ParseMinus(d);
    ParseShowNat(m);
    assert ParseNat(d) == m;
  }

  /** A minus sign before a non-empty run of digits reads as the negated number. */
  lemma ParseMinus(d: string)
    requires |d| > 0 && forall i :: 0 <= i < |d| ==> IsDigit(d[i])
    ensures Parse("-" + d) == Some(0 - ParseNat(d) as int)
  {
    var s := "-" + d;
    assert s[0] == '-';
    assert s[1..] == d;
    assert forall i :: 1 <= i < |s| ==> s[i] == d[i - 1];
  }

  lemma ParseShowNonNegative(n: int)
    requires n >= 0
    ensures Parse(Show(n)) == Some(n)
  {
    var s := ShowNat(n);
    assert IsDigit(s[0]);
    ParseShowNat(n);
  }

  /** A non-empty run of digits starting with a non-zero digit reads as a
      positive number. */
  lemma {:induction false} LeadingNonZero(d: string)
    requires |d| > 0 && (forall i :: 0 <= i < |d| ==> IsDigit(d[i])) && d[0] != '0'
    ensures ParseNat(d) >= 1
    decreases |d|
  {
    if |d| > 1 {
      var init := d[..|d| - 1];
      assert init[0] == d[0];
      LeadingNonZero(init);
    }
  }

  /** Canonical digits are the text of the number they read as. */
  lemma {:induction false} ShowParseNat(d: string)
    requires CanonicalDigits(d)
    ensures ShowNat(ParseNat(d)) == d
    decreases |d|
  {
    var last := d[|d| - 1];
    var v := DigitValue(last);
    if |d| == 1 {
      assert ParseNat(d) == v;
      assert d == [last];
    } else {
      var init := d[..|d| - 1];
      assert init[0] == d[0];
      ShowParseNat(init);
      LeadingNonZero(init);
      var n := ParseNat(d);
      assert n == 10 * ParseNat(init) + v;
      assert n / 10 == ParseNat(init) && n % 10 == v;
      assert d == init + [last];
    }
  }

  /** Only one canonical text reads as a given integer: the one `Show` prints. */
  lemma ShowUnique(t: string, n: int)
    requires CanonicalInt(t)
    requires Parse(t) == Some(n)
    ensures t == Show(n)
  {
    if t[0] == '-' {
      ShowUniqueNegative(t, n);
    } else {
      ShowParseNat(t);
    }
  }

  lemma ShowUniqueNegative(t: string, n: int)
    requires CanonicalInt(t) && t[0] == '-'
    requires Parse(t) == Some(n)
    ensures t == Show(n)
  {
    var d := t[1..];
    assert forall i :: 1 <= i < |t| ==> IsDigit(t[i]) by {
      forall i | 1 <= i < |t|
        ensures IsDigit(t[i])
      {
        assert t[i] == d[i - 1];
      }
    }
    assert n == 0 - ParseNat(d) as int;
    ShowParseNat(d);
    if |d| == 1 {
      assert ParseNat(d) == DigitValue(d[0]);
    } else {
      LeadingNonZero(d);
    }
    assert t == "-" + d;
  }
}
