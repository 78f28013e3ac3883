/** Sequence operations shared by the dataframe transforms: boolean masks,
    order-preserving de-duplication, sums and means, `head` and a descending
    sort. */
module Seqs {

  /* ---------------------------------------------------------------- masks */

  /** `a` is an order-preserving subsequence of `b` (greedy matching). */
  predicate IsSubseq<T(==)>(a: seq<T>, b: seq<T>)
    decreases |b|
  {
    |a| == 0 ||
    (|b| > 0 && if a[0] == b[0] then IsSubseq(a[1..], b[1..]) else IsSubseq(a, b[1..]))
  }

  /** `s[mask]` for the boolean mask `p(s[i])`: the rows that pass, in order. */
  function Where<T(==,!new)>(s: seq<T>, p: T -> bool): (r: seq<T>)
    ensures |r| <= |s|
    ensures forall x :: x in r <==> x in s && p(x)
    ensures multiset(r) <= multiset(s)
    ensures KeepsCounts(s, r, p)
  {
    if |s| == 0 then []
    else
      assert s == [s[0]] + s[1..];
      assert multiset(s) == multiset{s[0]} + multiset(s[1..]);
      if p(s[0]) then [s[0]] + Where(s[1..], p) else Where(s[1..], p)
  }

  /** `r` holds each value passing `p` exactly as often as `s` does, and
      no other value. */
  ghost predicate KeepsCounts<T(!new)>(s: seq<T>, r: seq<T>, p: T -> bool) {
    forall x :: multiset(r)[x] == if p(x) then multiset(s)[x] else 0
  }

  /** A mask every element passes keeps the whole sequence. */
  lemma {:induction false} WhereAll<T(!new)>(s: seq<T>, p: T -> bool)
    requires forall i :: 0 <= i < |s| ==> p(s[i])
    ensures Where(s, p) == s
  {
    if |s| > 0 {
      var t := s[1..];
      assert p(s[0]);
      WhereAll(t, p);
      calc {
        Where(s, p);
        [s[0]] + Where(t, p);
        [s[0]] + t;
        s;
      }
    }
  }

  /** Masking never reorders: the result is a subsequence of the input. */
  lemma {:induction false} WhereIsSubseq<T(!new)>(s: seq<T>, p: T -> bool)
    ensures IsSubseq(Where(s, p), s)
  {
    if |s| > 0 {
      WhereIsSubseq(s[1..], p);
      var rest := Where(s[1..], p);
      if p(s[0]) {
        assert ([s[0]] + rest)[1..] == rest;
      } else if |rest| > 0 {
        assert p(rest[0]) && rest[0] != s[0];
      }
    }
  }

  /** Two masks applied one after the other equal their conjunction applied once. */
  lemma {:induction false} WhereWhere<T(!new)>(s: seq<T>, p: T -> bool, q: T -> bool, pq: T -> bool)
    requires forall x :: pq(x) == (p(x) && q(x))
    ensures Where(Where(s, p), q) == Where(s, pq)
  {
    if |s| > 0 {
      WhereWhere(s[1..], p, q, pq);
    }
  }

  /** A mask rejecting every element yields the empty sequence. */
  lemma WhereNone<T(!new)>(s: seq<T>, p: T -> bool)
    ensures (forall x :: x in s ==> !p(x)) ==> Where(s, p) == []
  {
    var r := Where(s, p);
    if |r| > 0 {
      assert r[0] in r;
    }
  }

  /* ------------------------------------------------------ de-duplication */

  predicate NoDups<T(==)>(s: seq<T>) {
    forall i, j :: 0 <= i < j < |s| ==> s[i] != s[j]
  }

  /** Position of the first occurrence of `x` in `s`, or `|s|` when absent. */
  function FirstIndex<T(==)>(s: seq<T>, x: T): (k: nat)
    ensures k <= |s|
    ensures k < |s| <==> x in s
    ensures k < |s| ==> s[k] == x && x !in s[..k]
  {
    if |s| == 0 then 0
    else
      var init := s[..|s| - 1];
      assert s == init + [s[|s| - 1]];
      if x in init then
        var k := FirstIndex(init, x);
        assert s[..k] == init[..k];
        k
      else if s[|s| - 1] == x then |s| - 1
      else |s|
  }

  /** A value not seen before position `i` first occurs at `i`. */
  lemma FirstIndexAt<T>(s: seq<T>, i: nat)
    requires i < |s| && s[i] !in s[..i]
    ensures FirstIndex(s, s[i]) == i
  {
  }

  /** `pd.unique` / `drop_duplicates`: one copy of each value, kept where it
      first occurs, in order of first occurrence. */
  function Dedup<T(==,!new)>(s: seq<T>): (r: seq<T>)
    ensures NoDups(r)
    ensures forall x :: x in r <==> x in s
    ensures |r| <= |s|
    ensures InFirstOccurrenceOrder(s, r)
  {
    if |s| == 0 then []
    else
      var init := s[..|s| - 1];
      var last := s[|s| - 1];
      assert s == init + [last];
      var u := Dedup(init);
      FirstIndexSnoc(init, last);
      if last in u then u else u + [last]
  }

  /** Appending a value keeps the first occurrences of the old values; a new
      value first occurs at the end. */
  lemma FirstIndexSnoc<T>(init: seq<T>, last: T)
    ensures forall x :: x in init ==> FirstIndex(init + [last], x) == FirstIndex(init, x)
    ensures last !in init ==> FirstIndex(init + [last], last) == |init|
  {
    assert (init + [last])[..|init|] == init;
  }

  /** Appending a value extends the de-duplicated sequence exactly when the
      value is new. */
  lemma DedupSnoc<T(!new)>(s: seq<T>, x: T)
    ensures Dedup(s + [x]) == if x in s then Dedup(s) else Dedup(s) + [x]
  {
    assert (s + [x])[..|s|] == s;
  }

  /** Dedup leaves a duplicate-free sequence unchanged. */
  lemma {:induction false} DedupOfNoDups<T(!new)>(s: seq<T>)
    requires NoDups(s)
    ensures Dedup(s) == s
  {
    if |s| > 0 {
      var init := s[..|s| - 1];
      assert NoDups(init);
      DedupOfNoDups(init);
      assert s[|s| - 1] !in init;
      DedupSnoc(init, s[|s| - 1]);
      assert s == init + [s[|s| - 1]];
    }
  }

  /** De-duplicating twice is de-duplicating once. */
  lemma DedupIdempotent<T(!new)>(s: seq<T>)
    ensures Dedup(Dedup(s)) == Dedup(s)
  {
    DedupOfNoDups(Dedup(s));
  }

  /** `a` lists values in strictly increasing order of first occurrence in `s`. */
  predicate InFirstOccurrenceOrder<T(==)>(s: seq<T>, a: seq<T>) {
    forall i, j :: 0 <= i < j < |a| ==> FirstIndex(s, a[i]) < FirstIndex(s, a[j])
  }

  /** Dropping the head of such a sequence removes exactly that value. */
  lemma TailValues<T>(s: seq<T>, a: seq<T>)
    requires |a| > 0 && InFirstOccurrenceOrder(s, a)
    ensures InFirstOccurrenceOrder(s, a[1..])
    ensures forall x :: x in a[1..] <==> x in a && x != a[0]
  {
    forall x | x in a[1..]
      ensures x != a[0]
    {
      var i :| 0 <= i < |a[1..]| && a[1..][i] == x;
      assert FirstIndex(s, a[0]) < FirstIndex(s, a[i + 1]);
    }
    assert a == [a[0]] + a[1..];
  }

  /** The head of such a sequence occurs in `s` before every other value of it. */
  lemma HeadOccursFirst<T>(s: seq<T>, a: seq<T>)
    requires |a| > 0 && InFirstOccurrenceOrder(s, a)
    ensures forall x :: x in a && x != a[0] ==> FirstIndex(s, a[0]) < FirstIndex(s, x)
  {
    forall x | x in a && x != a[0]
      ensures FirstIndex(s, a[0]) < FirstIndex(s, x)
    {
      var i :| 0 <= i < |a| && a[i] == x;
      assert i != 0;
    }
  }

  /** Two sequences strictly ordered by first occurrence in `s` and holding
      the same values are equal. */
  lemma {:induction false} FirstOccurrenceOrderUnique<T>(s: seq<T>, a: seq<T>, b: seq<T>)
    requires forall x :: x in a <==> x in b
    requires InFirstOccurrenceOrder(s, a) && InFirstOccurrenceOrder(s, b)
    ensures a == b
    decreases |a|
  {
    if |a| > 0 {
      assert a[0] in a;
    }
    if |b| > 0 {
      assert b[0] in b;
    }
    if |a| > 0 && |b| > 0 {
      HeadOccursFirst(s, a);
      HeadOccursFirst(s, b);
      assert a[0] == b[0];
      TailValues(s, a);
      TailValues(s, b);
      FirstOccurrenceOrderUnique(s, a[1..], b[1..]);
      assert a == [a[0]] + a[1..];
      assert b == [b[0]] + b[1..];
    }
  }

  /** A duplicate-free sequence has as many distinct values as elements. */
  lemma {:induction false} NoDupsCardinality<T>(s: seq<T>)
    requires NoDups(s)
    ensures |set x | x in s| == |s|
  {
    if |s| > 0 {
      var init := s[..|s| - 1];
      assert NoDups(init);
      NoDupsCardinality(init);
      assert s == init + [s[|s| - 1]];
      assert (set x | x in s) == (set x | x in init) + {s[|s| - 1]};
      assert s[|s| - 1] !in (set x | x in init);
    }
  }

  /** Permuting a duplicate-free sequence leaves it duplicate-free. */
  lemma PermutationNoDups<T>(u: seq<T>, s: seq<T>)
    requires NoDups(u)
    requires multiset(s) == multiset(u)
    ensures NoDups(s)
  {
    forall i, j | 0 <= i < j < |s|
      ensures s[i] != s[j]
    {
      if s[i] == s[j] {
        TwoOccurrences(s, i, j);
        NoDupsMultiplicity(u, s[i]);
      }
    }
  }

  lemma TwoOccurrences<T>(s: seq<T>, i: nat, j: nat)
    requires i < j < |s| && s[i] == s[j]
    ensures multiset(s)[s[i]] >= 2
  {
    assert s == s[..j] + s[j..];
    assert s[i] in s[..j];
    assert s[j..][0] == s[j];
    assert multiset(s) == multiset(s[..j]) + multiset(s[j..]);
  }

  /** A value occurs at most once in a duplicate-free sequence. */
  lemma {:induction false} NoDupsMultiplicity<T>(u: seq<T>, x: T)
    requires NoDups(u)
    ensures multiset(u)[x] <= 1
  {
    if |u| > 0 {
      var init := u[..|u| - 1];
      assert NoDups(init);
      NoDupsMultiplicity(init, x);
      assert u == init + [u[|u| - 1]];
      assert u[|u| - 1] !in init;
      assert u[|u| - 1] !in multiset(init);
    }
  }

  /* ---------------------------------------------------------- arithmetic */

  function Sum(xs: seq<real>): real {
    if |xs| == 0 then 0.0 else xs[0] + Sum(xs[1..])
  }

  /** Arithmetic mean of a non-empty column. */
  function Mean(xs: seq<real>): (m: real)
    requires |xs| > 0
  {
    Sum(xs) / |xs| as real
  }

  lemma {:induction false} SumBounds(xs: seq<real>, lo: real, hi: real)
    requires forall i :: 0 <= i < |xs| ==> lo <= xs[i] <= hi
    ensures |xs| as real * lo <= Sum(xs) <= |xs| as real * hi
  {
    if |xs| > 0 {
      SumBounds(xs[1..], lo, hi);
    }
  }

  /** A mean lies between any lower and any upper bound of its column. */
  lemma MeanBounds(xs: seq<real>, lo: real, hi: real)
    requires |xs| > 0
    requires forall i :: 0 <= i < |xs| ==> lo <= xs[i] <= hi
    ensures lo <= Mean(xs) <= hi
  {
    SumBounds(xs, lo, hi);
    var n := |xs| as real;
    assert Mean(xs) * n == Sum(xs);
  }

  /* ----------------------------------------------------- head and sorting */

  /** `head(n)`: the first `n` elements, or all of them when there are fewer. */
  function Take<T>(s: seq<T>, n: nat): (r: seq<T>)
    ensures |r| == if n <= |s| then n else |s|
    ensures r == s[..|r|]
  {
    if n <= |s| then s[..n] else s
  }

  predicate NonIncreasing<T>(s: seq<T>, key: T -> real) {
    forall i, j :: 0 <= i < j < |s| ==> key(s[i]) >= key(s[j])
  }

  /** Inserts `x` into a non-increasing sequence, before the first element
      whose key does not exceed `x`'s. */
  function InsertDesc<T(==)>(x: T, s: seq<T>, key: T -> real): (r: seq<T>)
    requires NonIncreasing(s, key)
    ensures NonIncreasing(r, key)
    ensures multiset(r) == multiset(s) + multiset{x}
    ensures |r| == |s| + 1
  {
    if |s| == 0 then [x]
    else if key(x) >= key(s[0]) then
      ConsNonIncreasing(x, s, key);
      [x] + s
    else
      var tail := s[1..];
      assert s == [s[0]] + tail;
      assert multiset(s) == multiset{s[0]} + multiset(tail);
      assert forall k :: 0 <= k < |tail| ==> key(tail[k]) <= key(s[0]);
      var rest := InsertDesc(x, tail, key);
      BoundedByHead(s[0], x, tail, rest, key);
      ConsNonIncreasing(s[0], rest, key);
      assert multiset([s[0]] + rest) == multiset{s[0]} + multiset(rest);
      [s[0]] + rest
  }

  /** A head with a key no smaller than every key of a non-increasing tail
      keeps the sequence non-increasing. */
  lemma ConsNonIncreasing<T>(h: T, t: seq<T>, key: T -> real)
    requires NonIncreasing(t, key)
    requires forall k :: 0 <= k < |t| ==> key(t[k]) <= key(h)
    ensures NonIncreasing([h] + t, key)
  {
    var c := [h] + t;
    forall i, j | 0 <= i < j < |c|
      ensures key(c[i]) >= key(c[j])
    {
      assert c[j] == t[j - 1];
      if i > 0 {
        assert c[i] == t[i - 1];
      }
    }
  }

  /** Every element of `rest`, a permutation of `tail` plus `x`, has a key no
      larger than `h`'s when `x` and all of `tail` do. */
  lemma BoundedByHead<T>(h: T, x: T, tail: seq<T>, rest: seq<T>, key: T -> real)
    requires key(x) <= key(h)
    requires forall k :: 0 <= k < |tail| ==> key(tail[k]) <= key(h)
    requires multiset(rest) == multiset(tail) + multiset{x}
    ensures forall k :: 0 <= k < |rest| ==> key(rest[k]) <= key(h)
  {
    forall k | 0 <= k < |rest|
      ensures key(rest[k]) <= key(h)
    {
      assert rest[k] in multiset(rest);
      if rest[k] != x {
        assert rest[k] in multiset(tail);
        var j :| 0 <= j < |tail| && tail[j] == rest[k];
      }
    }
  }

  /** `sort_values(ascending=False)`: a non-increasing permutation. Ties are
      left in one fixed order; callers state nothing about tie order. */
  function SortDesc<T(==)>(s: seq<T>, key: T -> real): (r: seq<T>)
    ensures NonIncreasing(r, key)
    ensures multiset(r) == multiset(s)
    ensures |r| == |s|
  {
    if |s| == 0 then []
    else
      assert s == [s[0]] + s[1..];
      InsertDesc(s[0], SortDesc(s[1..], key), key)
  }

  /** Sorting a sequence that is already non-increasing leaves it unchanged. */
  lemma {:induction false} SortDescOfSorted<T>(s: seq<T>, key: T -> real)
    requires NonIncreasing(s, key)
    ensures SortDesc(s, key) == s
  {
    if |s| > 0 {
      var t := s[1..];
      assert NonIncreasing(t, key);
      SortDescOfSorted(t, key);
      if |t| > 0 {
        assert key(s[0]) >= key(t[0]);
      }
      calc {
        SortDesc(s, key);
        InsertDesc(s[0], SortDesc(t, key), key);
        InsertDesc(s[0], t, key);
        [s[0]] + t;
        s;
      }
    }
  }
}
