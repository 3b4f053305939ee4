/** Per-column cleaning: missing cells take the median, and values outside
    Tukey's fences are overwritten with the median. This module holds the
    value-level meaning of `fill_na`, `replace_outliers` and `clean`; the
    table that they update in place is `Tables.Table`. */
module ColumnCleaning {
  import opened Common
  import opened Quantiles

  /** What `fill_na` and `replace_outliers` write: a value given outright, or
      a function of the column that computes it. */
  datatype Replacement = Given(v: Cell) | Computed(f: seq<Cell> -> Cell)

  /** The value a replacement stands for, on the column as it is before the update. */
  function Resolve(r: Replacement, column: seq<Cell>): Cell
  {
    match r
    case Given(v) => v
    case Computed(f) => f(column)
  }

  /** The column after `fillna(v)`: every missing cell becomes `v`. */
  function FilledNa(column: seq<Cell>, v: Cell): (r: seq<Cell>)
    ensures |r| == |column|
    ensures forall i :: 0 <= i < |r| && !column[i].Null? ==> r[i] == column[i]
    ensures forall i :: 0 <= i < |r| && column[i].Null? ==> r[i] == v
  {
    seq(|column|, i requires 0 <= i < |column| => if column[i].Null? then v else column[i])
  }

  /** The column after `df.loc[mask, col] = v`: every cell the mask selects becomes `v`. */
  function ReplacedWhere(column: seq<Cell>, mask: Cell -> bool, v: Cell): (r: seq<Cell>)
    ensures |r| == |column|
    ensures forall i :: 0 <= i < |r| && !mask(column[i]) ==> r[i] == column[i]
    ensures forall i :: 0 <= i < |r| && mask(column[i]) ==> r[i] == v
  {
    seq(|column|, i requires 0 <= i < |column| => if mask(column[i]) then v else column[i])
  }

  /** The outlier mask `(x < inf) | (x > sup)`: a comparison with a missing
      cell or with a NaN fence is false. */
  predicate IsOutlier(c: Cell, inf: Option<real>, sup: Option<real>)
  {
    c.Num? && ((inf.Some? && c.x < inf.value) || (sup.Some? && c.x > sup.value))
  }

  /** The outlier predicate `clean` hands to `replace_outliers`. */
  function OutlierMask(inf: Option<real>, sup: Option<real>): (mask: Cell -> bool)
    ensures forall c :: mask(c) == IsOutlier(c, inf, sup)
  {
    c => IsOutlier(c, inf, sup)
  }

  /** The column after `clean`: fences and median come from the column before
      it is modified; missing cells are filled first, then outliers replaced. */
  function CleanedColumn(column: seq<Cell>): (r: seq<Cell>)
    ensures |r| == |column|
  {
    CleanedWith(column, LInf(column), LSup(column), Median(column))
  }

  /** Filling with `me`, then replacing with `me` whatever lies outside the
      fences `inf` and `sup`. */
  function CleanedWith(column: seq<Cell>, inf: Option<real>, sup: Option<real>, me: Option<real>): (r: seq<Cell>)
    ensures |r| == |column|
  {
    ReplacedWhere(FilledNa(column, AsCell(me)), OutlierMask(inf, sup), AsCell(me))
  }

  /** Cell by cell: a missing cell or an outlier becomes the median, anything
      else is kept. */
  lemma CleanedWithAt(column: seq<Cell>, inf: Option<real>, sup: Option<real>, me: Option<real>, i: nat)
    requires i < |column|
    requires me.Some? ==> !IsOutlier(Num(me.value), inf, sup)
    ensures column[i].Null? || IsOutlier(column[i], inf, sup) ==>
      CleanedWith(column, inf, sup, me)[i] == AsCell(me)
    ensures !column[i].Null? && !IsOutlier(column[i], inf, sup) ==>
      CleanedWith(column, inf, sup, me)[i] == column[i]
  {
  }

  /** After `clean`, no cell of a numeric column that had a value is missing,
      and every cell lies within the fences computed before the update. */
  lemma CleanedWithinFences(column: seq<Cell>)
    requires IsNumeric(column) && Values(column) != []
    ensures LInf(column).Some? && LSup(column).Some?
    ensures forall i :: 0 <= i < |column| ==>
      CleanedColumn(column)[i].Num? &&
      LInf(column).value <= CleanedColumn(column)[i].x <= LSup(column).value
  {
    QuartilesOrdered(column);
    var inf, sup, me := LInf(column), LSup(column), Median(column);
    forall i | 0 <= i < |column|
      ensures CleanedWith(column, inf, sup, me)[i].Num?
      ensures inf.value <= CleanedWith(column, inf, sup, me)[i].x <= sup.value
    {
      CleanedWithAt(column, inf, sup, me, i);
    }
  }

  /** `clean` changes only what it must: a value inside the fences is kept,
      while a missing cell and a value outside the fences both become the
      median of the column before the update. */
  lemma CleanedChangesOnlyOutliers(column: seq<Cell>, i: nat)
    requires i < |column|
    ensures !column[i].Null? && !IsOutlier(column[i], LInf(column), LSup(column)) ==>
      CleanedColumn(column)[i] == column[i]
    ensures column[i].Null? || IsOutlier(column[i], LInf(column), LSup(column)) ==>
      CleanedColumn(column)[i] == AsCell(Median(column))
  {
    QuartilesOrdered(column);
    CleanedWithAt(column, LInf(column), LSup(column), Median(column), i);
  }

  /** A column without any value is left as it is: its quartiles are NaN, so
      `fillna` writes NaN and no comparison selects a cell. */
  lemma CleanedAllMissing(column: seq<Cell>)
    requires Values(column) == []
    ensures CleanedColumn(column) == column
  {
    QuartilesOrdered(column);
    var r := CleanedColumn(column);
    forall i | 0 <= i < |column| ensures r[i] == column[i] {
      CleanedChangesOnlyOutliers(column, i);
    }
  }

  /** `clean` read off given statistics. */
  lemma CleanedByStats(column: seq<Cell>, inf: Option<real>, sup: Option<real>, me: Option<real>)
    requires LInf(column) == inf && LSup(column) == sup && Median(column) == me
    ensures CleanedColumn(column) == CleanedWith(column, inf, sup, me)
  {
  }

  /** The worked case `[1, 2, 3, 4, 100]`: quartiles 2, 3 and 4, fences -1 and
      7, so 100 alone is replaced by the median. (The column is a parameter
      equal to the literal so that the verifier does not evaluate the sort on
      the literal.) */
  lemma CleanedExample(column: seq<Cell>)
    requires column == [Num(1.0), Num(2.0), Num(3.0), Num(4.0), Num(100.0)]
    ensures Q1(column) == Some(2.0) && Median(column) == Some(3.0) && Q3(column) == Some(4.0)
    ensures LInf(column) == Some(-1.0) && LSup(column) == Some(7.0)
    ensures CleanedColumn(column) == [Num(1.0), Num(2.0), Num(3.0), Num(4.0), Num(3.0)]
  {
    ExampleStatistics(column);
    ExampleCleaned(column);
  }

  lemma ExampleStatistics(column: seq<Cell>)
    requires column == [Num(1.0), Num(2.0), Num(3.0), Num(4.0), Num(100.0)]
    ensures Q1(column) == Some(2.0) && Median(column) == Some(3.0) && Q3(column) == Some(4.0)
    ensures LInf(column) == Some(-1.0) && LSup(column) == Some(7.0)
  {
    var xs := ExampleValues(column);
    ExampleQuantiles(xs);
    SortedExample(xs, xs);
    StatisticsOf(column, xs, 2.0, 3.0, 4.0);
  }

  lemma ExampleValues(column: seq<Cell>) returns (xs: seq<real>)
    requires column == [Num(1.0), Num(2.0), Num(3.0), Num(4.0), Num(100.0)]
    ensures xs == Values(column) == [1.0, 2.0, 3.0, 4.0, 100.0]
  {
    assert Values(column[4..]) == [100.0];
    assert Values(column[3..]) == [4.0, 100.0];
    assert Values(column[2..]) == [3.0, 4.0, 100.0];
    assert Values(column[1..]) == [2.0, 3.0, 4.0, 100.0];
    xs := Values(column);
  }

  lemma ExampleCleaned(column: seq<Cell>)
    requires column == [Num(1.0), Num(2.0), Num(3.0), Num(4.0), Num(100.0)]
    requires LInf(column) == Some(-1.0) && LSup(column) == Some(7.0) && Median(column) == Some(3.0)
    ensures CleanedColumn(column) == [Num(1.0), Num(2.0), Num(3.0), Num(4.0), Num(3.0)]
  {
    CleanedByStats(column, Some(-1.0), Some(7.0), Some(3.0));
    var expected := [Num(1.0), Num(2.0), Num(3.0), Num(4.0), Num(3.0)];
    forall i | 0 <= i < 5 ensures CleanedWith(column, Some(-1.0), Some(7.0), Some(3.0))[i] == expected[i] {
      CleanedWithAt(column, Some(-1.0), Some(7.0), Some(3.0), i);
    }
  }

  /** `sorted` is the sort of `xs`, for sequences given by literals. */
  lemma SortedExample(xs: seq<real>, sorted: seq<real>)
    requires Sorted(sorted) && multiset(xs) == multiset(sorted)
    ensures Sort(xs) == sorted
  {
    SortIsUnique(xs, sorted);
  }

  lemma ExampleQuantiles(xs: seq<real>)
    requires xs == [1.0, 2.0, 3.0, 4.0, 100.0]
    ensures Sorted(xs)
    ensures Quantile(xs, 0.25) == 2.0 && Quantile(xs, 0.5) == 3.0 && Quantile(xs, 0.75) == 4.0
  {
    QuantileAtRank(xs, 0.25, 1);
    QuantileAtRank(xs, 0.5, 2);
    QuantileAtRank(xs, 0.75, 3);
  }

  /** Cleaning is not idempotent: filling with the median can narrow the
      quartiles so much that a second pass finds new outliers. Here the first
      pass fills three missing cells with 5 and sees no outlier (fences -5 and
      15); the second pass has every quartile at 5 and replaces 0 and 10. */
  lemma CleanedNotIdempotent(column: seq<Cell>)
    requires column == [Num(0.0), Num(10.0), Null, Null, Null]
    ensures CleanedColumn(column) == [Num(0.0), Num(10.0), Num(5.0), Num(5.0), Num(5.0)]
    ensures CleanedColumn(CleanedColumn(column)) == [Num(5.0), Num(5.0), Num(5.0), Num(5.0), Num(5.0)]
  {
    FirstPassStatistics(column);
    FirstPassCleaned(column);
    var once := CleanedColumn(column);
    SecondPassStatistics(once);
    SecondPassCleaned(once);
  }

  lemma FirstPassStatistics(column: seq<Cell>)
    requires column == [Num(0.0), Num(10.0), Null, Null, Null]
    ensures Median(column) == Some(5.0) && LInf(column) == Some(-5.0) && LSup(column) == Some(15.0)
  {
    assert Values(column[4..]) == [];
    assert Values(column[3..]) == [];
    assert Values(column[2..]) == [];
    assert Values(column[1..]) == [10.0];
    var xs := Values(column);
    FirstPassQuantiles(xs);
    SortedExample(xs, xs);
    StatisticsOf(column, xs, 2.5, 5.0, 7.5);
  }

  lemma FirstPassQuantiles(xs: seq<real>)
    requires xs == [0.0, 10.0]
    ensures Sorted(xs)
    ensures Quantile(xs, 0.25) == 2.5 && Quantile(xs, 0.5) == 5.0 && Quantile(xs, 0.75) == 7.5
  {
    assert VirtualIndex(2, 0.25) == 0.25 && VirtualIndex(2, 0.5) == 0.5 && VirtualIndex(2, 0.75) == 0.75;
    assert LowerRank(2, 0.25) == 0 && LowerRank(2, 0.5) == 0 && LowerRank(2, 0.75) == 0;
    assert Lerp(0.0, 10.0, 0.25) == 2.5 && Lerp(0.0, 10.0, 0.5) == 5.0 && Lerp(0.0, 10.0, 0.75) == 7.5;
  }

  lemma FirstPassCleaned(column: seq<Cell>)
    requires column == [Num(0.0), Num(10.0), Null, Null, Null]
    requires Median(column) == Some(5.0) && LInf(column) == Some(-5.0) && LSup(column) == Some(15.0)
    ensures CleanedColumn(column) == [Num(0.0), Num(10.0), Num(5.0), Num(5.0), Num(5.0)]
  {
    CleanedByStats(column, Some(-5.0), Some(15.0), Some(5.0));
    var once := [Num(0.0), Num(10.0), Num(5.0), Num(5.0), Num(5.0)];
    forall i | 0 <= i < 5 ensures CleanedWith(column, Some(-5.0), Some(15.0), Some(5.0))[i] == once[i] {
      CleanedWithAt(column, Some(-5.0), Some(15.0), Some(5.0), i);
    }
  }

  lemma SecondPassStatistics(column: seq<Cell>)
    requires column == [Num(0.0), Num(10.0), Num(5.0), Num(5.0), Num(5.0)]
    ensures Median(column) == Some(5.0) && LInf(column) == Some(5.0) && LSup(column) == Some(5.0)
  {
    var xs := SecondPassValues(column);
    var sorted := [0.0, 5.0, 5.0, 5.0, 10.0];
    SecondPassQuantiles(sorted);
    SecondPassPermutation(xs, sorted);
    SortedExample(xs, sorted);
    StatisticsOf(column, sorted, 5.0, 5.0, 5.0);
  }

  lemma SecondPassValues(column: seq<Cell>) returns (xs: seq<real>)
    requires column == [Num(0.0), Num(10.0), Num(5.0), Num(5.0), Num(5.0)]
    ensures xs == Values(column) == [0.0, 10.0, 5.0, 5.0, 5.0]
  {
    assert Values(column[4..]) == [5.0];
    assert Values(column[3..]) == [5.0, 5.0];
    assert Values(column[2..]) == [5.0, 5.0, 5.0];
    assert Values(column[1..]) == [10.0, 5.0, 5.0, 5.0];
    xs := Values(column);
  }

  lemma SecondPassPermutation(xs: seq<real>, sorted: seq<real>)
    requires xs == [0.0, 10.0, 5.0, 5.0, 5.0] && sorted == [0.0, 5.0, 5.0, 5.0, 10.0]
    ensures multiset(xs) == multiset(sorted)
  {
  }

  lemma SecondPassQuantiles(xs: seq<real>)
    requires xs == [0.0, 5.0, 5.0, 5.0, 10.0]
    ensures Sorted(xs)
    ensures Quantile(xs, 0.25) == 5.0 && Quantile(xs, 0.5) == 5.0 && Quantile(xs, 0.75) == 5.0
  {
    QuantileAtRank(xs, 0.25, 1);
    QuantileAtRank(xs, 0.5, 2);
    QuantileAtRank(xs, 0.75, 3);
  }

  lemma SecondPassCleaned(column: seq<Cell>)
    requires column == [Num(0.0), Num(10.0), Num(5.0), Num(5.0), Num(5.0)]
    requires Median(column) == Some(5.0) && LInf(column) == Some(5.0) && LSup(column) == Some(5.0)
    ensures CleanedColumn(column) == [Num(5.0), Num(5.0), Num(5.0), Num(5.0), Num(5.0)]
  {
    CleanedByStats(column, Some(5.0), Some(5.0), Some(5.0));
    forall i | 0 <= i < 5 ensures CleanedWith(column, Some(5.0), Some(5.0), Some(5.0))[i] == Num(5.0) {
      CleanedWithAt(column, Some(5.0), Some(5.0), Some(5.0), i);
    }
  }
}
