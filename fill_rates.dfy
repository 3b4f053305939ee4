/** Filling rates of columns and rows, and the selections the script makes
    with them before cleaning: a column less than 30% filled is deleted, and a
    row is kept when 1 - (its missing cells)/30 >= 0.3, i.e. when at most 21
    of its cells are missing. */
module FillRates {
  import opened Common

  /** The sparsity threshold shared by both filters. */
  const MIN_RATE: real := 0.3

  /** The divisor of the row rate: the 43 columns left after the column
      filter minus the 13 always-filled technical ones. */
  const MEASURE_COLUMNS: nat := 43 - 13

  /** `col_filling_rate`: one minus the share of missing cells. An empty
      table gives 0/0, which is NaN (`None`). */
  function ColFillingRate(column: seq<Cell>): (rate: Option<real>)
    ensures rate.None? <==> column == []
    ensures rate.Some? ==> 0.0 <= rate.value <= 1.0
    ensures rate.Some? ==> (rate.value == 1.0 <==> NullCount(column) == 0)
  {
    if column == [] then None
    else
      RatioBounds(NullCount(column), |column|);
      Some(1.0 - NullCount(column) as real / |column| as real)
  }

  lemma RatioBounds(k: nat, n: nat)
    requires 0 < n && k <= n
    ensures 0.0 <= k as real / n as real <= 1.0
    ensures k as real / n as real == 0.0 <==> k == 0
  {
    var q := k as real / n as real;
    assert q * n as real == k as real;
  }

  /** A column the filter deletes: its rate is below the threshold (a NaN
      rate compares false, so the columns of an empty table all stay). */
  predicate IsSparseColumn(column: seq<Cell>)
  {
    var rate := ColFillingRate(column);
    rate.Some? && rate.value < MIN_RATE
  }

  /** In whole numbers: a column is deleted exactly when more than 70% of its
      cells are missing. */
  lemma SparseColumnCount(column: seq<Cell>)
    ensures IsSparseColumn(column) <==> 0 < |column| && 10 * NullCount(column) > 7 * |column|
  {
    if column != [] {
      var k, n := NullCount(column), |column|;
      assert IsSparseColumn(column) <==> k as real / n as real > 0.7;
      RatioAbove(k as real, n as real, 0.7);
      assert 10 * k > 7 * n <==> k as real > 0.7 * n as real;
    }
  }

  lemma RatioAbove(k: real, n: real, c: real)
    requires n > 0.0
    ensures k / n > c <==> k > c * n
  {
    var q := k / n;
    assert q * n == k;
    if q > c {
      assert (q - c) * n > 0.0;
    } else {
      assert (c - q) * n >= 0.0;
    }
  }

  /** The columns that survive the column filter, unchanged. */
  function WithoutSparseColumns(columns: map<string, seq<Cell>>): (r: map<string, seq<Cell>>)
    ensures forall c :: c in r <==> c in columns && !IsSparseColumn(columns[c])
    ensures forall c :: c in r ==> r[c] == columns[c]
  {
    map c | c in columns && !IsSparseColumn(columns[c]) :: columns[c]
  }

  /** Every column has one cell per row. */
  predicate Rectangular(columns: map<string, seq<Cell>>, height: nat)
  {
    forall c :: c in columns ==> |columns[c]| == height
  }

  /** Row `i` of the table, as a map from column name to cell. */
  function RowOf(columns: map<string, seq<Cell>>, height: nat, i: nat): (row: map<string, Cell>)
    requires Rectangular(columns, height) && i < height
    ensures row.Keys == columns.Keys
    ensures forall c :: c in row ==> row[c] == columns[c][i]
  {
    map c | c in columns :: columns[c][i]
  }

  /** The number of missing cells of a row (`sum(row.isnull())`). */
  function RowNulls(row: map<string, Cell>): (n: nat)
    ensures n <= |row|
  {
    var nulls := set c | c in row && row[c].Null?;
    assert nulls <= row.Keys;
    SubsetCard(nulls, row.Keys);
    |nulls|
  }

  lemma SubsetCard<T>(a: set<T>, b: set<T>)
    requires a <= b
    ensures |a| <= |b|
  {
    assert b == a + (b - a);
  }

  /** `row_filling_rate`: one minus the missing cells over the fixed divisor
      30, whatever the number of columns (so it can be negative). */
  function RowFillingRate(row: map<string, Cell>): (rate: real)
    ensures rate <= 1.0
  {
    1.0 - RowNulls(row) as real / MEASURE_COLUMNS as real
  }

  /** In whole numbers: a row is kept exactly when at most 21 of its cells are
      missing. */
  lemma RowKeptCount(row: map<string, Cell>)
    ensures RowFillingRate(row) >= MIN_RATE <==> RowNulls(row) <= 21
  {
  }

  /** The rate of every row, in row order (the `row_filling_rate` column). */
  function RowRates(columns: map<string, seq<Cell>>, height: nat): (rates: seq<real>)
    requires Rectangular(columns, height)
    ensures |rates| == height
    ensures forall i :: 0 <= i < height ==> rates[i] == RowFillingRate(RowOf(columns, height, i))
  {
    seq(height, i requires 0 <= i < height => RowFillingRate(RowOf(columns, height, i)))
  }

  /** The positions of the rows whose rate reaches the threshold, in order. */
  function KeptRows(rates: seq<real>): (keep: seq<nat>)
    ensures forall k :: 0 <= k < |keep| ==> keep[k] < |rates| && rates[keep[k]] >= MIN_RATE
    ensures forall k, l :: 0 <= k < l < |keep| ==> keep[k] < keep[l]
    ensures forall i :: 0 <= i < |rates| && rates[i] >= MIN_RATE ==> i in keep
  {
    if rates == [] then []
    else
      var n := |rates| - 1;
      var front := KeptRows(rates[..n]);
      assert forall i :: 0 <= i < n ==> rates[..n][i] == rates[i];
      front + (if rates[n] >= MIN_RATE then [n] else [])
  }

  /** The rows at the given positions, in every column
      (`products[products['row_filling_rate'] >= 0.3]`). */
  function SelectRows(columns: map<string, seq<Cell>>, height: nat, keep: seq<nat>): (r: map<string, seq<Cell>>)
    requires Rectangular(columns, height)
    requires forall k :: 0 <= k < |keep| ==> keep[k] < height
    ensures r.Keys == columns.Keys && Rectangular(r, |keep|)
    ensures forall c, k :: c in r && 0 <= k < |keep| ==> r[c][k] == columns[c][keep[k]]
  {
    map c | c in columns :: seq(|keep|, k requires 0 <= k < |keep| => columns[c][keep[k]])
  }

  /** The rate column the script adds before filtering rows. */
  function RateCells(rates: seq<real>): (cells: seq<Cell>)
    ensures |cells| == |rates|
    ensures forall i :: 0 <= i < |rates| ==> cells[i] == Num(rates[i])
  {
    seq(|rates|, i requires 0 <= i < |rates| => Num(rates[i]))
  }

  /** The row filter keeps exactly the rows with at most 21 missing cells,
      in their original order. */
  lemma KeptRowsAreDense(columns: map<string, seq<Cell>>, height: nat)
    requires Rectangular(columns, height)
    ensures var keep := KeptRows(RowRates(columns, height));
      (forall k :: 0 <= k < |keep| ==> keep[k] < height && RowNulls(RowOf(columns, height, keep[k])) <= 21) &&
      (forall i :: 0 <= i < height && RowNulls(RowOf(columns, height, i)) <= 21 ==> i in keep)
  {
    var rates := RowRates(columns, height);
    var keep := KeptRows(rates);
    forall k | 0 <= k < |keep|
      ensures keep[k] < height && RowNulls(RowOf(columns, height, keep[k])) <= 21
    {
      RowKeptCount(RowOf(columns, height, keep[k]));
    }
    forall i | 0 <= i < height && RowNulls(RowOf(columns, height, i)) <= 21
      ensures i in keep
    {
      RowKeptCount(RowOf(columns, height, i));
    }
  }
}
