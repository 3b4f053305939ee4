/** The quartiles of a numeric column and Tukey's outlier fences, as pandas'
    `Series.quantile` computes them: linear interpolation between the order
    statistics of the non-missing values. NaN, the value of a statistic of a
    column without any number, is `None`. */
module Quantiles {
  import opened Common

  /** The non-missing values of a column, in row order (`dropna()`). */
  function Values(column: seq<Cell>): (vs: seq<real>)
    ensures |vs| <= |column|
  {
    if column == [] then []
    else if column[0].Num? then [column[0].x] + Values(column[1..])
    else Values(column[1..])
  }

  /** The values are exactly the numbers the column holds, each as many
      times as the column holds it. */
  lemma {:induction false} ValuesAreCells(column: seq<Cell>, x: real)
    ensures x in Values(column) <==> Num(x) in column
    ensures multiset(Values(column))[x] == multiset(column)[Num(x)]
  {
    if column != [] {
      ValuesAreCells(column[1..], x);
      assert column == [column[0]] + column[1..];
      assert multiset(column) == multiset([column[0]]) + multiset(column[1..]);
    }
  }

  predicate Sorted(xs: seq<real>)
  {
    forall i, j :: 0 <= i <= j < |xs| ==> xs[i] <= xs[j]
  }

  /** A sorted sequence stays sorted when a value not above any of its
      elements is put in front. */
  lemma SortedPrepend(a: real, xs: seq<real>)
    requires Sorted(xs)
    requires forall k :: 0 <= k < |xs| ==> a <= xs[k]
    ensures Sorted([a] + xs)
  {
    var r := [a] + xs;
    forall i, j | 0 <= i <= j < |r| ensures r[i] <= r[j] {
      if i > 0 {
        assert r[i] == xs[i - 1] && r[j] == xs[j - 1];
      } else if j > 0 {
        assert r[j] == xs[j - 1];
      }
    }
  }

  /** Inserts `x` into a sorted sequence, before the first element not below it. */
  function Insert(x: real, xs: seq<real>): (r: seq<real>)
    requires Sorted(xs)
    ensures Sorted(r)
    ensures multiset(r) == multiset(xs) + multiset{x}
    ensures |r| == |xs| + 1
  {
    if xs == [] || x <= xs[0] then
      SortedPrepend(x, xs);
      [x] + xs
    else
      SortedTail(xs);
      var rest := Insert(x, xs[1..]);
      LowerBound(xs, x, rest);
      SortedPrepend(xs[0], rest);
      assert xs == [xs[0]] + xs[1..];
      [xs[0]] + rest
  }

  lemma SortedTail(xs: seq<real>)
    requires Sorted(xs) && xs != []
    ensures Sorted(xs[1..])
  {
  }

  /** The head of a sorted sequence bounds from below any arrangement of its
      tail with a larger value added. */
  lemma LowerBound(xs: seq<real>, x: real, rest: seq<real>)
    requires Sorted(xs) && xs != [] && xs[0] < x
    requires multiset(rest) == multiset(xs[1..]) + multiset{x}
    ensures forall k :: 0 <= k < |rest| ==> xs[0] <= rest[k]
  {
    forall k | 0 <= k < |rest| ensures xs[0] <= rest[k] {
      assert rest[k] in multiset(rest);
      if rest[k] != x {
        assert rest[k] in multiset(xs[1..]);
        var m :| 0 <= m < |xs[1..]| && xs[1..][m] == rest[k];
        assert xs[0] <= xs[m + 1];
      }
    }
  }

  /** The order statistics of `xs`: its values in ascending order. */
  function Sort(xs: seq<real>): (r: seq<real>)
    ensures Sorted(r)
    ensures multiset(r) == multiset(xs)
    ensures |r| == |xs|
  {
    if xs == [] then []
    else
      assert xs == [xs[0]] + xs[1..];
      Insert(xs[0], Sort(xs[1..]))
  }

  /** The first element of a sorted sequence is its least. */
  lemma HeadIsLeast(a: seq<real>, x: real)
    requires Sorted(a) && x in multiset(a)
    ensures a[0] <= x
  {
    var k :| 0 <= k < |a| && a[k] == x;
  }

  /** Equal multisets with equal heads have equal tails. */
  lemma TailsAgree(a: seq<real>, b: seq<real>)
    requires a != [] && b != [] && a[0] == b[0] && multiset(a) == multiset(b)
    ensures multiset(a[1..]) == multiset(b[1..])
  {
    assert a == [a[0]] + a[1..] && b == [b[0]] + b[1..];
    assert multiset(a) == multiset([a[0]]) + multiset(a[1..]);
    assert multiset(b) == multiset([b[0]]) + multiset(b[1..]);
    forall x ensures multiset(a[1..])[x] == multiset(b[1..])[x] {
      assert multiset(a)[x] == multiset([a[0]])[x] + multiset(a[1..])[x];
      assert multiset(b)[x] == multiset([b[0]])[x] + multiset(b[1..])[x];
    }
  }

  /** Two sorted sequences with the same elements are equal: the order
      statistics of a collection of values are determined by it. */
  lemma {:induction false} SortedUnique(a: seq<real>, b: seq<real>)
    requires Sorted(a) && Sorted(b) && multiset(a) == multiset(b)
    ensures a == b
  {
    assert |a| == |multiset(a)| == |multiset(b)| == |b|;
    if a != [] {
      HeadIsLeast(a, b[0]);
      HeadIsLeast(b, a[0]);
      TailsAgree(a, b);
      assert Sorted(a[1..]) && Sorted(b[1..]);
      SortedUnique(a[1..], b[1..]);
      assert a == [a[0]] + a[1..] && b == [b[0]] + b[1..];
    }
  }

  /** Sorting gives the one sorted arrangement of the values. */
  lemma SortIsUnique(xs: seq<real>, ys: seq<real>)
    requires Sorted(ys) && multiset(ys) == multiset(xs)
    ensures Sort(xs) == ys
  {
    SortedUnique(Sort(xs), ys);
  }

  lemma MulNonNegative(x: real, y: real)
    requires 0.0 <= x && 0.0 <= y
    ensures 0.0 <= x * y
  {
  }

  lemma MulDistributes(g: real, t: real, t': real)
    ensures g * t' - g * t == g * (t' - t)
  {
  }

  /** Multiplying by a non-negative factor keeps an inequality. */
  lemma ScaleMonotone(a: real, p: real, p': real)
    requires 0.0 <= a && p <= p'
    ensures a * p <= a * p'
  {
    MulNonNegative(a, p' - p);
    MulDistributes(a, p, p');
  }

  /** The virtual index `(n - 1) * p` of the `p`-quantile among `n` order statistics. */
  function VirtualIndex(n: nat, p: real): (h: real)
    requires 0 < n && 0.0 <= p <= 1.0
    ensures 0.0 <= h <= (n - 1) as real
  {
    MulNonNegative((n - 1) as real, p);
    MulNonNegative((n - 1) as real, 1.0 - p);
    MulDistributes((n - 1) as real, p, 1.0);
    (n - 1) as real * p
  }

  /** The order statistic at or just below the virtual index. */
  function LowerRank(n: nat, p: real): (lo: nat)
    requires 0 < n && 0.0 <= p <= 1.0
    ensures lo < n
    ensures lo as real <= VirtualIndex(n, p) < lo as real + 1.0
  {
    VirtualIndex(n, p).Floor
  }

  lemma LowerRankMonotone(n: nat, p: real, p': real)
    requires 0 < n && 0.0 <= p <= p' <= 1.0
    ensures VirtualIndex(n, p) <= VirtualIndex(n, p')
    ensures LowerRank(n, p) <= LowerRank(n, p')
  {
    ScaleMonotone((n - 1) as real, p, p');
  }

  /** The point a fraction `t` of the way from `a` to `b`. */
  function Lerp(a: real, b: real, t: real): (r: real)
    requires a <= b && 0.0 <= t <= 1.0
    ensures a <= r <= b
  {
    MulNonNegative(b - a, t);
    MulNonNegative(b - a, 1.0 - t);
    MulDistributes(b - a, t, 1.0);
    a + (b - a) * t
  }

  lemma LerpMonotone(a: real, b: real, t: real, t': real)
    requires a <= b && 0.0 <= t <= t' <= 1.0
    ensures Lerp(a, b, t) <= Lerp(a, b, t')
  {
    MulNonNegative(b - a, t' - t);
    MulDistributes(b - a, t, t');
  }

  /** The `p`-quantile of sorted values with linear interpolation: the lower
      order statistic plus the fractional part of the virtual index times the
      gap to the next order statistic (numpy's "linear" method). */
  function Quantile(xs: seq<real>, p: real): (q: real)
    requires Sorted(xs) && 0 < |xs| && 0.0 <= p <= 1.0
    ensures xs[LowerRank(|xs|, p)] <= q
    ensures LowerRank(|xs|, p) + 1 < |xs| ==> q <= xs[LowerRank(|xs|, p) + 1]
    ensures LowerRank(|xs|, p) + 1 == |xs| ==> q == xs[|xs| - 1]
    ensures VirtualIndex(|xs|, p) == LowerRank(|xs|, p) as real ==> q == xs[LowerRank(|xs|, p)]
    ensures xs[0] <= q <= xs[|xs| - 1]
  {
    var lo := LowerRank(|xs|, p);
    if lo + 1 < |xs| then Lerp(xs[lo], xs[lo + 1], VirtualIndex(|xs|, p) - lo as real)
    else xs[lo]
  }

  /** When the virtual index is a whole number `k`, the quantile is the
      order statistic `xs[k]` itself: no interpolation happens. */
  lemma QuantileAtRank(xs: seq<real>, p: real, k: nat)
    requires Sorted(xs) && 0 < |xs| && 0.0 <= p <= 1.0 && k < |xs|
    requires VirtualIndex(|xs|, p) == k as real
    ensures Quantile(xs, p) == xs[k]
  {
    assert LowerRank(|xs|, p) == k;
  }

  /** A higher probability never gives a smaller quantile. */
  lemma QuantileMonotone(xs: seq<real>, p: real, p': real)
    requires Sorted(xs) && 0 < |xs| && 0.0 <= p <= p' <= 1.0
    ensures Quantile(xs, p) <= Quantile(xs, p')
  {
    var n := |xs|;
    LowerRankMonotone(n, p, p');
    var lo, lo' := LowerRank(n, p), LowerRank(n, p');
    if lo < lo' {
      assert Quantile(xs, p) <= xs[lo + 1] <= xs[lo'] <= Quantile(xs, p');
    } else if lo + 1 < n {
      LerpMonotone(xs[lo], xs[lo + 1], VirtualIndex(n, p) - lo as real, VirtualIndex(n, p') - lo as real);
    }
  }

  /** The `p`-quantile of a column's non-missing values, or `None` (NaN) when
      the column has none. */
  function ColumnQuantile(column: seq<Cell>, p: real): (q: Option<real>)
    requires 0.0 <= p <= 1.0
    ensures q.None? <==> Values(column) == []
    ensures q.Some? ==> exists i :: 0 <= i < |column| && column[i].Num? && column[i].x <= q.value
    ensures q.Some? ==> exists i :: 0 <= i < |column| && column[i].Num? && q.value <= column[i].x
  {
    var vs := Values(column);
    if vs == [] then None
    else
      var xs := Sort(vs);
      var q := Quantile(xs, p);
      assert xs[0] in multiset(vs) && xs[|xs| - 1] in multiset(vs);
      ValuesAreCells(column, xs[0]);
      ValuesAreCells(column, xs[|xs| - 1]);
      assert Num(xs[0]) in column && Num(xs[|xs| - 1]) in column;
      Some(q)
  }

  /** First quartile (`quantile(.25)`). */
  function Q1(column: seq<Cell>): Option<real>
  {
    ColumnQuantile(column, 0.25)
  }

  /** Median, the second quartile (`quantile(.5)`). */
  function Median(column: seq<Cell>): Option<real>
  {
    ColumnQuantile(column, 0.5)
  }

  /** Third quartile (`quantile(.75)`). */
  function Q3(column: seq<Cell>): Option<real>
  {
    ColumnQuantile(column, 0.75)
  }

  /** Lower Tukey fence, q1 - 1.5 * (q3 - q1); NaN when a quartile is. */
  function LInf(column: seq<Cell>): Option<real>
  {
    var q1, q3 := Q1(column), Q3(column);
    if q1.Some? && q3.Some? then Some(q1.value - 1.5 * (q3.value - q1.value)) else None
  }

  /** Upper Tukey fence, q3 + 1.5 * (q3 - q1); NaN when a quartile is. */
  function LSup(column: seq<Cell>): Option<real>
  {
    var q1, q3 := Q1(column), Q3(column);
    if q1.Some? && q3.Some? then Some(q3.value + 1.5 * (q3.value - q1.value)) else None
  }

  /** The five statistics of a column, read off its order statistics and
      their three quartiles. */
  lemma StatisticsOf(column: seq<Cell>, xs: seq<real>, a: real, m: real, b: real)
    requires xs != [] && Sorted(xs) && Sort(Values(column)) == xs
    requires Quantile(xs, 0.25) == a && Quantile(xs, 0.5) == m && Quantile(xs, 0.75) == b
    ensures Q1(column) == Some(a) && Median(column) == Some(m) && Q3(column) == Some(b)
    ensures LInf(column) == Some(a - 1.5 * (b - a)) && LSup(column) == Some(b + 1.5 * (b - a))
  {
    ColumnQuantileOf(column, xs, 0.25, a);
    ColumnQuantileOf(column, xs, 0.5, m);
    ColumnQuantileOf(column, xs, 0.75, b);
    FencesOf(column, a, b);
  }

  lemma FencesOf(column: seq<Cell>, a: real, b: real)
    requires Q1(column) == Some(a) && Q3(column) == Some(b)
    ensures LInf(column) == Some(a - 1.5 * (b - a)) && LSup(column) == Some(b + 1.5 * (b - a))
  {
  }

  lemma ColumnQuantileOf(column: seq<Cell>, xs: seq<real>, p: real, q: real)
    requires xs != [] && Sorted(xs) && Sort(Values(column)) == xs
    requires 0.0 <= p <= 1.0 && Quantile(xs, p) == q
    ensures ColumnQuantile(column, p) == Some(q)
  {
  }

  /** The five statistics are all defined exactly when the column has a value,
      and then they are ordered: the median lies between the quartiles, and
      the quartiles between the fences. So the median is never an outlier. */
  lemma QuartilesOrdered(column: seq<Cell>)
    ensures Values(column) != [] <==> Median(column).Some?
    ensures Median(column).Some? <==>
      Q1(column).Some? && Q3(column).Some? && LInf(column).Some? && LSup(column).Some?
    ensures Median(column).Some? ==>
      LInf(column).value <= Q1(column).value <= Median(column).value
      <= Q3(column).value <= LSup(column).value
  {
    var vs := Values(column);
    if vs != [] {
      var xs := Sort(vs);
      QuantileMonotone(xs, 0.25, 0.5);
      QuantileMonotone(xs, 0.5, 0.75);
    }
  }
}
