/** The product table the script modifies in place: deleting sparse columns,
    adding the row rate and dropping sparse rows, filling missing cells,
    replacing outliers and cleaning the seventeen nutrient columns. */
module Tables {
  import opened Common
  import opened Quantiles
  import opened ColumnCleaning
  import opened FillRates

  /** The column the row filter adds and then reads. */
  const RATE_COLUMN: string := "row_filling_rate"

  /** The nutrient columns cleaned, in the order of the cleaning loop. */
  const NUTRIENT_COLUMNS: seq<string> := [
    "energy_100g", "trans-fat_100g", "cholesterol_100g", "saturated-fat_100g", "carbohydrates_100g",
    "sugars_100g", "fat_100g", "fiber_100g", "proteins_100g", "sodium_100g",
    "salt_100g", "calcium_100g", "vitamin-c_100g", "vitamin-a_100g", "iron_100g",
    "nutrition-score-fr_100g", "nutrition-score-uk_100g"]

  /** `clean(df, col)` as a value: it fails with pandas' KeyError on a missing
      column and with its TypeError on a column holding text, and otherwise
      rewrites that one column. */
  function CleanStep(columns: map<string, seq<Cell>>, name: string): (r: (Outcome, map<string, seq<Cell>>))
    ensures r.0.Pass? <==> name in columns && IsNumeric(columns[name])
    ensures r.0.Fail? ==> r.1 == columns
    ensures r.0 == Fail(MissingColumn(name)) <==> name !in columns
    ensures r.1.Keys == columns.Keys
    ensures forall c :: c in columns && c != name ==> r.1[c] == columns[c]
    ensures r.0.Pass? ==> r.1[name] == CleanedColumn(columns[name])
  {
    if name !in columns then (Fail(MissingColumn(name)), columns)
    else if !IsNumeric(columns[name]) then (Fail(NotNumeric(name)), columns)
    else (Pass, columns[name := CleanedColumn(columns[name])])
  }

  /** The cleaning loop as a value: the columns are cleaned in order and the
      first failure ends the loop, leaving the earlier columns cleaned. */
  function CleanedAll(columns: map<string, seq<Cell>>, names: seq<string>): (r: (Outcome, map<string, seq<Cell>>))
    ensures r.1.Keys == columns.Keys
    decreases |names|
  {
    if names == [] then (Pass, columns)
    else
      var step := CleanStep(columns, names[0]);
      if step.0.Fail? then step else CleanedAll(step.1, names[1..])
  }

  /** Distinct names that all denote numeric columns: the loop succeeds, every
      named column ends up cleaned as if alone, and nothing else changes. */
  lemma {:induction false} CleanedAllIndependent(columns: map<string, seq<Cell>>, names: seq<string>)
    requires forall k, l :: 0 <= k < l < |names| ==> names[k] != names[l]
    requires forall k :: 0 <= k < |names| ==> names[k] in columns && IsNumeric(columns[names[k]])
    ensures CleanedAll(columns, names).0 == Pass
    ensures forall c :: c in columns ==>
      CleanedAll(columns, names).1[c] == if c in names then CleanedColumn(columns[c]) else columns[c]
    decreases |names|
  {
    if names != [] {
      var step := CleanStep(columns, names[0]);
      var rest := names[1..];
      assert forall k :: 0 <= k < |rest| ==> rest[k] == names[k + 1];
      assert forall k :: 0 <= k < |rest| ==> rest[k] != names[0];
      CleanedAllIndependent(step.1, rest);
      forall c | c in columns
        ensures CleanedAll(columns, names).1[c] == if c in names then CleanedColumn(columns[c]) else columns[c]
      {
        assert c in names <==> c == names[0] || c in rest;
        if c == names[0] {
          assert c !in rest;
        }
      }
    }
  }

  /** The script's cleaning loop: when the seventeen nutrient columns are
      present and numeric, it succeeds, cleans each of them as if alone and
      leaves every other column as it was. */
  lemma CleanedNutrients(columns: map<string, seq<Cell>>)
    requires forall k :: 0 <= k < |NUTRIENT_COLUMNS| ==>
      NUTRIENT_COLUMNS[k] in columns && IsNumeric(columns[NUTRIENT_COLUMNS[k]])
    ensures CleanedAll(columns, NUTRIENT_COLUMNS).0 == Pass
    ensures forall c :: c in columns ==>
      CleanedAll(columns, NUTRIENT_COLUMNS).1[c] ==
        if c in NUTRIENT_COLUMNS then CleanedColumn(columns[c]) else columns[c]
  {
    NutrientsDistinct();
    CleanedAllIndependent(columns, NUTRIENT_COLUMNS);
  }

  /** No nutrient column is named twice in the loop. */
  lemma NutrientsDistinct()
    ensures forall k, l :: 0 <= k < l < |NUTRIENT_COLUMNS| ==> NUTRIENT_COLUMNS[k] != NUTRIENT_COLUMNS[l]
  {
  }

  /** Cleaning a list of columns is cleaning its first part and then, unless
      that failed, its second part. */
  lemma {:induction false} CleanedAllAppend(columns: map<string, seq<Cell>>, first: seq<string>, second: seq<string>)
    ensures CleanedAll(columns, first + second) ==
      var done := CleanedAll(columns, first);
      if done.0.Fail? then done else CleanedAll(done.1, second)
    decreases |first|
  {
    if first == [] {
      assert first + second == second;
    } else {
      assert (first + second)[0] == first[0];
      assert (first + second)[1..] == first[1..] + second;
      var step := CleanStep(columns, first[0]);
      if step.0.Pass? {
        CleanedAllAppend(step.1, first[1..], second);
      }
    }
  }

  /** A missing column stops the loop with a KeyError for it, leaving the
      columns cleaned before it as they are. */
  lemma CleanedAllStopsAtMissing(columns: map<string, seq<Cell>>, done: seq<string>, rest: seq<string>)
    requires rest != [] && rest[0] !in columns
    requires CleanedAll(columns, done).0 == Pass
    ensures CleanedAll(columns, done + rest) == (Fail(MissingColumn(rest[0])), CleanedAll(columns, done).1)
  {
    CleanedAllAppend(columns, done, rest);
    var cleaned := CleanedAll(columns, done).1;
    assert CleanStep(cleaned, rest[0]) == (Fail(MissingColumn(rest[0])), cleaned);
  }

  lemma UpdateTwice<K, V>(m: map<K, V>, k: K, first: V, second: V)
    ensures m[k := first][k := second] == m[k := second]
  {
  }

  /** The product table: named columns of `height` cells each. */
  class Table {
    var columns: map<string, seq<Cell>>
    var height: nat

    ghost predicate Valid()
      reads this
    {
      Rectangular(columns, height)
    }

    constructor (columns: map<string, seq<Cell>>, height: nat)
      requires Rectangular(columns, height)
      ensures Valid()
      ensures this.columns == columns && this.height == height
    {
      this.columns := columns;
      this.height := height;
    }

    /** The column filter: the rate of every column is taken first, then each
        column whose rate is below the threshold is deleted. */
    method DropSparseColumns()
      requires Valid()
      modifies this
      ensures Valid() && height == old(height)
      ensures columns == WithoutSparseColumns(old(columns))
    {
      var rates := map c | c in columns :: ColFillingRate(columns[c]);
      var pending := rates.Keys;
      while pending != {}
        invariant Valid() && height == old(height)
        invariant pending <= rates.Keys == old(columns).Keys
        invariant forall c :: c in rates ==> rates[c] == ColFillingRate(old(columns)[c])
        invariant columns.Keys <= old(columns).Keys
        invariant forall c :: c in columns ==> columns[c] == old(columns)[c]
        invariant forall c :: c in old(columns) ==>
          (c in columns <==> c in pending || !IsSparseColumn(old(columns)[c]))
        decreases pending
      {
        var c :| c in pending;
        var rate := rates[c];
        if c in columns && rate.Some? && rate.value < MIN_RATE {
          columns := columns - {c};
        }
        pending := pending - {c};
      }
      assert forall c :: c in columns <==> c in WithoutSparseColumns(old(columns));
    }

    /** The row filter: the `row_filling_rate` column is added, then only the
        rows whose rate reaches the threshold are kept, in order. */
    method DropSparseRows()
      requires Valid()
      modifies this
      ensures Valid()
      ensures RATE_COLUMN in columns
      ensures forall k :: 0 <= k < height ==>
        columns[RATE_COLUMN][k].Num? && columns[RATE_COLUMN][k].x >= MIN_RATE
      ensures var rates := RowRates(old(columns), old(height));
        var keep := KeptRows(rates);
        height == |keep| &&
        columns == SelectRows(old(columns)[RATE_COLUMN := RateCells(rates)], old(height), keep)
    {
      var rates := RowRates(columns, height);
      columns := columns[RATE_COLUMN := RateCells(rates)];
      var keep := KeptRows(rates);
      columns := SelectRows(columns, height, keep);
      height := |keep|;
    }

    /** `fill_na`: missing cells of the column take the replacement, which is
        computed from the column first when it is a function. */
    method FillNa(name: string, r: Replacement) returns (outcome: Outcome)
      requires Valid()
      modifies this
      ensures Valid() && height == old(height)
      ensures name !in old(columns) ==> outcome == Fail(MissingColumn(name)) && columns == old(columns)
      ensures name in old(columns) ==>
        outcome == Pass &&
        columns == old(columns)[name := FilledNa(old(columns)[name], Resolve(r, old(columns)[name]))]
    {
      if name !in columns {
        return Fail(MissingColumn(name));
      }
      var v := Resolve(r, columns[name]);
      columns := columns[name := FilledNa(columns[name], v)];
      return Pass;
    }

    /** `replace_outliers`: the cells the mask selects take the replacement,
        which is computed from the column first when it is a function. */
    method ReplaceOutliers(name: string, mask: Cell -> bool, r: Replacement) returns (outcome: Outcome)
      requires Valid()
      modifies this
      ensures Valid() && height == old(height)
      ensures name !in old(columns) ==> outcome == Fail(MissingColumn(name)) && columns == old(columns)
      ensures name in old(columns) ==>
        outcome == Pass &&
        columns == old(columns)[name := ReplacedWhere(old(columns)[name], mask, Resolve(r, old(columns)[name]))]
    {
      if name !in columns {
        return Fail(MissingColumn(name));
      }
      var v := Resolve(r, columns[name]);
      columns := columns[name := ReplacedWhere(columns[name], mask, v)];
      return Pass;
    }

    /** `clean`: fences and median are taken before the column changes, then
        missing cells are filled and outliers replaced with the median. */
    method Clean(name: string) returns (outcome: Outcome)
      requires Valid()
      modifies this
      ensures Valid() && height == old(height)
      ensures (outcome, columns) == CleanStep(old(columns), name)
    {
      if name !in columns {
        return Fail(MissingColumn(name));
      }
      if !IsNumeric(columns[name]) {
        return Fail(NotNumeric(name));
      }
      var column := columns[name];
      var inf, sup, me := LInf(column), LSup(column), Median(column);
      outcome := FillNa(name, Given(AsCell(me)));
      ghost var filled := FilledNa(column, AsCell(me));
      assert columns == old(columns)[name := filled];
      outcome := ReplaceOutliers(name, OutlierMask(inf, sup), Given(AsCell(me)));
      ghost var cleaned := ReplacedWhere(filled, OutlierMask(inf, sup), AsCell(me));
      assert columns == old(columns)[name := filled][name := cleaned];
      assert cleaned == CleanedWith(column, inf, sup, me) == CleanedColumn(column);
      UpdateTwice(old(columns), name, filled, cleaned);
    }

    /** The cleaning loop over the given columns, stopping at the first
        failure. */
    method CleanAll(names: seq<string>) returns (outcome: Outcome)
      requires Valid()
      modifies this
      ensures Valid() && height == old(height)
      ensures (outcome, columns) == CleanedAll(old(columns), names)
    {
      var i := 0;
      outcome := Pass;
      while i < |names|
        invariant 0 <= i <= |names|
        invariant Valid() && height == old(height)
        invariant outcome == Pass
        invariant CleanedAll(old(columns), names) == CleanedAll(columns, names[i..])
        decreases |names| - i
      {
        ghost var before := columns;
        assert names[i..][0] == names[i] && names[i..][1..] == names[i + 1..];
        outcome := Clean(names[i]);
        if outcome.Fail? {
          assert CleanedAll(before, names[i..]) == (outcome, columns);
          return;
        }
        i := i + 1;
      }
      assert names[i..] == [];
    }
  }
}
