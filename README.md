# Cleaning of the nutrition product table, modelled in Dafny

The script `projet2-cleaning.py` prepares an Open Food Facts product table for
analysis. It works in three stages.

1. It drops sparse columns. A column whose filling rate is below 0.3 is
   deleted.
2. It drops sparse rows. A row is kept when 1 − missing/30 ≥ 0.3, and the
   rate is kept in a new `row_filling_rate` column.
3. It cleans seventeen nutrient columns. For each column it takes the
   quartiles and Tukey's fences, q1 − 1.5·IQR and q3 + 1.5·IQR. It then fills
   the missing cells with the median and replaces every value outside the
   fences with that same median.

After that, it normalises the `countries_fr` field of every product:

- upper-case it and split it on commas;
- strip any `xx:` language tag;
- translate it through a fixed dictionary;
- memoise the result per raw entry.

Finally, it groups the UK nutrition score by country and keeps only the
countries named at least thirty times. A product naming a country twice
counts twice.

The model is organised as follows:

- `common.dfy` holds the table cells: missing (NaN), a number or a text. It
  also holds the errors the script can raise: a column missing from the table
  (pandas' KeyError), or a quantile of a text column (its TypeError).
- `quantiles.dfy` holds pandas' `quantile`, which is numpy's linear
  interpolation over the sorted non-missing values, together with the quartile
  and fence functions. An undefined statistic (NaN) is `None`.
- `cleaning.dfy` holds `fill_na`, `replace_outliers` and `clean` on one
  column, as functions with their cell-by-cell properties.
- `fill_rates.dfy` holds the column and row filling rates and the selections
  made with them.
- `tables.dfy` holds the table as a class whose methods update its columns in
  place, plus the seventeen-column cleaning loop.
- `countries.dfy` holds `str().upper()`, `split(',')`, the `re.sub(".+:", "", …)`
  tag removal, the `_fr` dictionary, `synonym`, and `clean_country` with its
  cache (a class).
- `aggregation.dfy` holds `scores_by_country` (nested loops) and the final
  filter to thirty scores.

One might expect cleaning to be idempotent, since one pass leaves no missing
or out-of-fence value under the old fences. It is not: the second pass
computes new quartiles from the cleaned values, and imputed medians can move
them. For example, `[0, 10, NaN, NaN, NaN]` cleans to `[0, 10, 5, 5, 5]`, and
that cleans to `[5, 5, 5, 5, 5]`. The model follows the code and proves this
counterexample (`ColumnCleaning.CleanedNotIdempotent`).

A column with no value at all has NaN quartiles. `clean` then fills with NaN
and the NaN fences select nothing, so the column is left unchanged. The model
keeps this case rather than excluding it (`ColumnCleaning.CleanedAllMissing`).

## Model

| member | source | states |
|---|---|---|
| Common.NullCount | projet2-cleaning.py:11-12 | the number of missing cells is at most the length, and zero exactly when no cell is missing |
| FillRates.ColFillingRate | projet2-cleaning.py:11-12 | the column rate lies in [0, 1]; it is 1 exactly when no cell is missing; it is NaN (`None`) for an empty table |
| FillRates.SparseColumnCount | projet2-cleaning.py:19-21 | a column is deleted exactly when the table is non-empty and more than 70% of the column's cells are missing |
| FillRates.WithoutSparseColumns | projet2-cleaning.py:16-21 | the columns left are exactly the non-sparse ones, with their cells unchanged |
| Tables.Table.DropSparseColumns | projet2-cleaning.py:16-21 | the rates are taken first; the loop then deletes exactly the sparse columns and keeps the others unchanged |
| FillRates.RowNulls | projet2-cleaning.py:32-33 | a row's missing-cell count is at most its number of cells |
| FillRates.RowFillingRate | projet2-cleaning.py:32-33 | the row rate, 1 − missing/30, never exceeds 1 |
| FillRates.RowKeptCount | projet2-cleaning.py:32-40 | a row reaches the 0.3 threshold exactly when at most 21 of its cells are missing |
| FillRates.RowRates | projet2-cleaning.py:37 | there is one rate per row, and it is that row's filling rate |
| FillRates.RateCells | projet2-cleaning.py:37 | the added column holds each row's rate as a number |
| FillRates.KeptRows | projet2-cleaning.py:40 | the kept positions are strictly increasing; each has rate ≥ 0.3; every position with rate ≥ 0.3 is kept |
| FillRates.SelectRows | projet2-cleaning.py:40 | every column keeps exactly the selected rows, in order |
| FillRates.KeptRowsAreDense | projet2-cleaning.py:32-40 | the row filter keeps exactly the rows with at most 21 missing cells |
| Tables.Table.DropSparseRows | projet2-cleaning.py:37-40 | the rate column is added, then only the rows whose rate is ≥ 0.3 remain; every remaining rate cell is a number ≥ 0.3 |
| Quantiles.ValuesAreCells | projet2-cleaning.py:44-53 | the values a quantile is taken over are exactly the numbers in the column, each occurring as many times as the column holds it |
| Quantiles.Sort | projet2-cleaning.py:44-53 | the order statistics are sorted and a permutation of the values |
| Quantiles.SortIsUnique | projet2-cleaning.py:44-53 | any sorted permutation of the values is the order statistics |
| Quantiles.Quantile | projet2-cleaning.py:44-53 | the interpolated quantile lies between the order statistics at and after the virtual index (n−1)·p; it equals the order statistic when the index is whole; it lies within [min, max] |
| Quantiles.QuantileAtRank | projet2-cleaning.py:44-53 | at a whole virtual index k, the quantile is the k-th order statistic |
| Quantiles.QuantileMonotone | projet2-cleaning.py:44-53 | a higher probability never gives a lower quantile |
| Quantiles.ColumnQuantile | projet2-cleaning.py:44-53 | a column quantile is NaN exactly when the column has no number; otherwise some cell is ≤ it and some cell is ≥ it |
| Quantiles.QuartilesOrdered | projet2-cleaning.py:44-61 | the median is defined exactly when the column has a number, and then all five statistics are defined and l_inf ≤ q1 ≤ median ≤ q3 ≤ l_sup |
| ColumnCleaning.FilledNa | projet2-cleaning.py:65-68 | missing cells take the fill value; all other cells are unchanged |
| Tables.Table.FillNa | projet2-cleaning.py:65-68 | a replacement that is a function is evaluated on the column first; only the named column changes; a missing column is a KeyError |
| ColumnCleaning.ReplacedWhere | projet2-cleaning.py:72-75 | the cells the mask selects take the new value; the others are unchanged |
| Tables.Table.ReplaceOutliers | projet2-cleaning.py:72-75 | a replacement that is a function is evaluated first; only the named column changes; a missing column is a KeyError |
| ColumnCleaning.OutlierMask | projet2-cleaning.py:88 | a cell is selected exactly when it is a number below a defined l_inf or above a defined l_sup |
| ColumnCleaning.CleanedWithAt | projet2-cleaning.py:83-88 | with a median that is not an outlier, a missing or out-of-fence cell becomes the median and any other cell stays |
| ColumnCleaning.CleanedWithinFences | projet2-cleaning.py:83-88 | after `clean` on a numeric column with a value, no cell is missing and every cell lies in [l_inf, l_sup] of the column before cleaning |
| ColumnCleaning.CleanedChangesOnlyOutliers | projet2-cleaning.py:83-88 | a number inside the fences is kept; a missing cell or an outlier becomes the median of the column before cleaning |
| ColumnCleaning.CleanedAllMissing | projet2-cleaning.py:83-88 | a column without numbers is left as it is |
| ColumnCleaning.CleanedExample | projet2-cleaning.py:44-88 | `[1,2,3,4,100]` has q1 = 2, median 3, q3 = 4 and fences [−1, 7], and cleans to `[1,2,3,4,3]` |
| ColumnCleaning.CleanedNotIdempotent | projet2-cleaning.py:83-88 | `[0,10,NaN,NaN,NaN]` cleans to `[0,10,5,5,5]`, which cleans to `[5,5,5,5,5]`: cleaning twice differs from cleaning once |
| Tables.CleanStep | projet2-cleaning.py:83-88 | `clean` succeeds exactly on a present column without text; it fails with a KeyError exactly when the column is missing; it changes only that column, into its cleaned form, and changes nothing on failure |
| Tables.Table.Clean | projet2-cleaning.py:83-88 | the fences and median are taken before fill_na and replace_outliers run; the table ends as `clean` on the old columns leaves it |
| Tables.CleanedAll | projet2-cleaning.py:92-96 | the cleaning loop never adds or removes a column |
| Tables.CleanedAllAppend | projet2-cleaning.py:92-96 | cleaning a list of names is cleaning its first part, then, unless that failed, its second part |
| Tables.CleanedAllIndependent | projet2-cleaning.py:92-96 | on distinct present numeric columns the loop succeeds; each named column ends cleaned as if alone; every other column is unchanged |
| Tables.CleanedNutrients | projet2-cleaning.py:91-96 | when the seventeen nutrient columns are present and numeric, the loop over them succeeds, cleans each one as if alone, and leaves every other column unchanged |
| Tables.CleanedAllStopsAtMissing | projet2-cleaning.py:92-96 | a missing column stops the loop with a KeyError naming it, and the earlier columns stay cleaned |
| Tables.Table.CleanAll | projet2-cleaning.py:92-96 | the loop leaves the table and outcome the cleaning of the names in order gives |
| Countries.Upper | projet2-cleaning.py:179 | upper-casing keeps the length, leaves no lower-case letter, and changes no other character |
| Countries.UpperIdempotent | projet2-cleaning.py:179 | upper-casing twice is upper-casing once |
| Countries.Split | projet2-cleaning.py:179 | splitting gives at least one piece, and no piece holds a comma |
| Countries.SplitJoin | projet2-cleaning.py:179 | joining the pieces with commas gives the string back, and there is one more piece than there are commas |
| Countries.StripTag | projet2-cleaning.py:179 | when a colon stands at an index ≥ 1, everything through the last colon goes and no colon is left; otherwise the piece is unchanged |
| Countries.StripTagIdempotent | projet2-cleaning.py:179 | stripping twice is stripping once |
| Countries.StripTagged | projet2-cleaning.py:179 | a non-empty tag, a colon, then a colon-free name gives the name |
| Countries.DuplicateKeys | projet2-cleaning.py:158-162 | a key written twice in `_fr` takes the later value: "??" → HONG KONG, "?????????" → KAZAKHSTAN |
| Countries.Translations | projet2-cleaning.py:105-171 | `synonym` translates dictionary keys, e.g. TURKIYE → TURQUIE and THAILAND → THAÏLANDE |
| Countries.CleanCountry | projet2-cleaning.py:179 | there is one name per comma-separated piece of the upper-cased entry |
| Countries.Names | projet2-cleaning.py:179 | each name is its piece with the tag stripped, then translated |
| Countries.NamesConcat | projet2-cleaning.py:179 | names are taken piece by piece, in order |
| Countries.CleanCountryPieces | projet2-cleaning.py:179 | there is one more name than the entry has commas; the k-th name is the k-th piece stripped and translated |
| Countries.CleanCountryConcat | projet2-cleaning.py:179 | entries joined by a comma normalise to the concatenation of their normalisations, so duplicates are kept |
| Countries.CleanCountryTagged | projet2-cleaning.py:179 | `tag:name` gives the single translated, upper-cased name |
| Countries.CleanCountryOfName | projet2-cleaning.py:179 | an untagged name without a comma gives the single translated, upper-cased name |
| Countries.CleanCountryExample | projet2-cleaning.py:105-179 | `"en:Turkiye,thailand"` gives `["TURQUIE", "THAÏLANDE"]` |
| Countries.CleanCountryMissing | projet2-cleaning.py:165-179 | a missing entry prints as "nan" and gives `["INCONNU"]` |
| Countries.CountryCleaner.constructor | projet2-cleaning.py:184 | the cache starts empty |
| Countries.CountryCleaner.Clean | projet2-cleaning.py:176-184 | the memoised answer always equals the uncached normalisation, and afterwards the cache maps the entry to it |
| Aggregation.EntryOf | projet2-cleaning.py:179 | a missing country cell is NaN and a text cell is its text |
| Aggregation.CountryLists | projet2-cleaning.py:192-193 | each row's country list is the normalisation of its entry |
| Aggregation.AppendScore | projet2-cleaning.py:193-196 | the inner loop appends the row's score under each of its countries, creating empty groups on first sight |
| Aggregation.AddAllContents | projet2-cleaning.py:193-196 | under every country, the row's score is appended as many times as the row names that country; no empty group appears |
| Aggregation.GroupedContents | projet2-cleaning.py:190-197 | under every country lie exactly the scores of the rows naming it, in row order, one per occurrence; so their number is the number of occurrences, and a country is a key exactly when it occurs |
| Aggregation.GroupedStep | projet2-cleaning.py:192-196 | one more row adds that row's score under its countries |
| Aggregation.GroupRows | projet2-cleaning.py:192-196 | the row loop builds the grouping of all rows; afterwards the cache holds exactly its old entries plus every row's entry, each mapped to its normalisation |
| Aggregation.ScoresByCountry | projet2-cleaning.py:190-197 | with no rows the result is empty and the cache unchanged; a missing countries column is a KeyError before any cleaning; a missing score column is a KeyError after the first row's entry is cached; otherwise the result is the grouping of all rows and every row's entry is cached |
| Aggregation.AddRow | projet2-cleaning.py:193-196 | one row: its entry goes through the cache, which then also holds that entry, and its score is appended under each country the entry names |
| Aggregation.KeepFrequent | projet2-cleaning.py:202 | exactly the countries with at least the minimum number of scores are kept, with their lists unchanged |
| Aggregation.FrequentCountries | projet2-cleaning.py:202 | a country remains exactly when it is named at least 30 times, so 29 occurrences drop it and 30 keep it |

## Left out

- Reading `products.csv` (line 7) is not modelled: a table is given to the constructor as columns of cells.
- Floating point is modelled as exact `real`: there is no IEEE rounding in the quantiles, the fences or the rates.
- A NaN number is the missing cell `Null`; an infinite value is not modelled.
- pandas dtypes are modelled per cell: a column holding any text counts as non-numeric, so `clean` fails on it as pandas' TypeError would.
- `str.upper()` is modelled on ASCII letters only; Unicode case mapping (e.g. "ß" → "SS") is not modelled.
- Countries.StripTag: models `".+:"` as a match from the first character to the last colon; a newline inside an entry, which `.` does not match, is not modelled.
- Aggregation.ScoresByCountry: requires that no country cell is a number, because the text `str()` gives for a float is not modelled.
- Aggregation.GroupRows: carries the same requirement that no country cell is a number, for the same reason.
- Aggregation.EntryOf: carries the same requirement that no country cell is a number, for the same reason.
- Aggregation.CountryLists: carries the same requirement that no country cell is a number, for the same reason.
- Aggregation.EntriesOf: carries the same requirement that no country cell is a number, for the same reason.
- Countries.CountryCleaner.Clean: keys the cache by the entry value with a single missing entry; Python keys a NaN by its identity, which can only add cache misses and gives the same answers.
- Countries.Translations: states lookups of keys near the end of the 60-entry dictionary only (not e.g. DEUTSCHLAND, nor that FRANCE is left untranslated), because each lookup is proved by comparing the key with every later entry of the display.
- Tables.Table.FillNa: a computed replacement receives the column only, not the whole data frame; the only replacement the script passes is the median, a plain value.
- Tables.Table.ReplaceOutliers: the predicate is a per-cell function rather than a function of the whole series; the one the script passes, `(x < inf) | (x > sup)`, is per cell.
- Dictionary iteration order is not modelled: the column filter and the grouped scores are maps, so the order of `rate_by_column.items()` and of the keys of `scores` is not represented; neither affects the result's contents.
- The quartile helpers read the global `products` rather than their `df` argument (lines 44-53); the model takes the quantiles of the column being cleaned, which is the same column because `clean` is only called on `products`.
- The top-level sequence (column filter, row filter, the seventeen cleanings, grouping, final filter) is modelled as separate operations, not as one pipeline method.
