/** Grouping of the UK nutrition score by country: each product contributes
    its score to a country once per time its entry names it, and only
    countries named at least thirty times are kept. */
module Aggregation {
  import opened Common
  import opened Countries
  import opened Tables

  const COUNTRY_COLUMN: string := "countries_fr"
  const SCORE_COLUMN: string := "nutrition-score-uk_100g"

  /** Countries with fewer scores than this are dropped. */
  const MIN_SCORES: nat := 30

  /** The entry a country cell holds: text, or NaN for a missing cell. */
  function EntryOf(c: Cell): (entry: Option<string>)
    requires !c.Num?
    ensures entry.None? <==> c.Null?
  {
    match c
    case Null => None
    case Text(s) => Some(s)
  }

  /** The country list of every row, in row order. */
  function CountryLists(entries: seq<Cell>): (lists: seq<seq<string>>)
    requires forall i :: 0 <= i < |entries| ==> !entries[i].Num?
    ensures |lists| == |entries|
    ensures forall i :: 0 <= i < |entries| ==> lists[i] == CleanCountry(EntryOf(entries[i]))
  {
    seq(|entries|, i requires 0 <= i < |entries| => CleanCountry(EntryOf(entries[i])))
  }

  /** The scores grouped so far under a country, none when it is absent. */
  function Get(scores: map<string, seq<Cell>>, c: string): seq<Cell>
  {
    if c in scores then scores[c] else []
  }

  /** One score appended under every country of a list, in list order. */
  function AddAll(scores: map<string, seq<Cell>>, countries: seq<string>, v: Cell): map<string, seq<Cell>>
  {
    if countries == [] then scores
    else
      var last := countries[|countries| - 1];
      var before := AddAll(scores, countries[..|countries| - 1], v);
      before[last := Get(before, last) + [v]]
  }

  /** `scores_by_country` as a value: rows are processed in order. */
  function Grouped(lists: seq<seq<string>>, values: seq<Cell>): map<string, seq<Cell>>
    requires |lists| == |values|
  {
    if lists == [] then map[]
    else
      var n := |lists| - 1;
      AddAll(Grouped(lists[..n], values[..n]), lists[n], values[n])
  }

  /** Number of times a country occurs in a list. */
  function Count(countries: seq<string>, c: string): nat
  {
    if countries == [] then 0
    else Count(countries[..|countries| - 1], c) + (if countries[|countries| - 1] == c then 1 else 0)
  }

  /** `n` copies of a value. */
  function Repeat(v: Cell, n: nat): (r: seq<Cell>)
    ensures |r| == n && forall k :: 0 <= k < n ==> r[k] == v
  {
    if n == 0 then [] else Repeat(v, n - 1) + [v]
  }

  /** The reference grouping of one country: row after row, the row's score
      once per time the row names the country. */
  function Contribution(lists: seq<seq<string>>, values: seq<Cell>, c: string): seq<Cell>
    requires |lists| == |values|
  {
    if lists == [] then []
    else
      var n := |lists| - 1;
      Contribution(lists[..n], values[..n], c) + Repeat(values[n], Count(lists[n], c))
  }

  /** Number of times a country is named over all rows. */
  function Occurrences(lists: seq<seq<string>>, c: string): nat
  {
    if lists == [] then 0
    else Occurrences(lists[..|lists| - 1], c) + Count(lists[|lists| - 1], c)
  }

  /** Appending a score under each country of a list adds, under every
      country, that score as many times as the list names it, and creates no
      empty group. */
  lemma {:induction false} AddAllContents(scores: map<string, seq<Cell>>, countries: seq<string>, v: Cell)
    requires forall c :: c in scores ==> scores[c] != []
    ensures forall c :: c in AddAll(scores, countries, v) ==> AddAll(scores, countries, v)[c] != []
    ensures forall c :: Get(AddAll(scores, countries, v), c) == Get(scores, c) + Repeat(v, Count(countries, c))
    decreases |countries|
  {
    if countries != [] {
      var n := |countries| - 1;
      AddAllContents(scores, countries[..n], v);
      var before := AddAll(scores, countries[..n], v);
      forall c
        ensures Get(AddAll(scores, countries, v), c) == Get(scores, c) + Repeat(v, Count(countries, c))
      {
        AppendOne(before, countries[n], v, c);
        if c == countries[n] {
          var prior := Get(scores, c) + Repeat(v, Count(countries[..n], c));
          assert Get(AddAll(scores, countries, v), c) == prior + [v];
          assert Repeat(v, Count(countries, c)) == Repeat(v, Count(countries[..n], c)) + [v];
        }
      }
    }
  }

  /** Appending a score under one country changes no other group. */
  lemma AppendOne(scores: map<string, seq<Cell>>, country: string, v: Cell, c: string)
    ensures Get(scores[country := Get(scores, country) + [v]], c) ==
      if c == country then Get(scores, c) + [v] else Get(scores, c)
  {
  }

  /** The grouping agrees with the reference one: under every country lie
      exactly the scores of the rows naming it, in row order, repeated when
      a row names it twice; a country is a key exactly when some row names
      it. */
  lemma {:induction false} GroupedContents(lists: seq<seq<string>>, values: seq<Cell>)
    requires |lists| == |values|
    ensures forall c :: Get(Grouped(lists, values), c) == Contribution(lists, values, c)
    ensures forall c :: c in Grouped(lists, values) <==> Occurrences(lists, c) > 0
    ensures forall c :: |Contribution(lists, values, c)| == Occurrences(lists, c)
    decreases |lists|
  {
    GroupedNonEmpty(lists, values);
    if lists != [] {
      var n := |lists| - 1;
      GroupedContents(lists[..n], values[..n]);
      assert lists[..n] == lists[..|lists| - 1];
      AddAllContents(Grouped(lists[..n], values[..n]), lists[n], values[n]);
    }
  }

  lemma {:induction false} GroupedNonEmpty(lists: seq<seq<string>>, values: seq<Cell>)
    requires |lists| == |values|
    ensures forall c :: c in Grouped(lists, values) ==> Grouped(lists, values)[c] != []
    decreases |lists|
  {
    if lists != [] {
      var n := |lists| - 1;
      GroupedNonEmpty(lists[..n], values[..n]);
      AddAllContents(Grouped(lists[..n], values[..n]), lists[n], values[n]);
    }
  }

  /** The final filter: the countries with at least `min` scores. */
  function KeepFrequent(scores: map<string, seq<Cell>>, min: nat): (kept: map<string, seq<Cell>>)
    ensures forall c :: c in kept <==> c in scores && |scores[c]| >= min
    ensures forall c :: c in kept ==> kept[c] == scores[c]
  {
    map c | c in scores && |scores[c]| >= min :: scores[c]
  }

  /** After the filter, a country remains exactly when it is named at least
      thirty times over all rows (a row naming it twice counts twice). */
  lemma FrequentCountries(lists: seq<seq<string>>, values: seq<Cell>, c: string)
    requires |lists| == |values|
    ensures c in KeepFrequent(Grouped(lists, values), MIN_SCORES) <==> Occurrences(lists, c) >= MIN_SCORES
  {
    GroupedContents(lists, values);
  }

  /** The inner loop of `scores_by_country`: the score is appended under
      each country of the row, a missing group being created empty first. */
  method AppendScore(scores: map<string, seq<Cell>>, countries: seq<string>, v: Cell)
    returns (updated: map<string, seq<Cell>>)
    ensures updated == AddAll(scores, countries, v)
  {
    updated := scores;
    var j := 0;
    while j < |countries|
      invariant 0 <= j <= |countries|
      invariant updated == AddAll(scores, countries[..j], v)
    {
      var c := countries[j];
      assert countries[..j + 1][..j] == countries[..j];
      if c !in updated {
        updated := updated[c := []];
      }
      updated := updated[c := updated[c] + [v]];
      j := j + 1;
    }
    assert countries[..j] == countries;
  }

  /** `scores_by_country`: every row's country list (through the memoising
      cleaner) receives the row's score. A lookup of a column the table
      lacks fails like pandas' KeyError, on the first row; when the score
      column is the missing one, the first row's entry has already gone
      through the cleaner. */
  method ScoresByCountry(t: Table, cleaner: CountryCleaner) returns (r: Result<map<string, seq<Cell>>>)
    requires t.Valid() && cleaner.Valid()
    requires COUNTRY_COLUMN in t.columns ==>
      forall i :: 0 <= i < |t.columns[COUNTRY_COLUMN]| ==> !t.columns[COUNTRY_COLUMN][i].Num?
    modifies cleaner
    ensures cleaner.Valid()
    ensures t.height == 0 ==> r == Ok(map[])
    ensures t.height > 0 && COUNTRY_COLUMN !in t.columns ==> r == Err(MissingColumn(COUNTRY_COLUMN))
    ensures t.height > 0 && COUNTRY_COLUMN in t.columns && SCORE_COLUMN !in t.columns ==>
      r == Err(MissingColumn(SCORE_COLUMN))
    ensures COUNTRY_COLUMN in t.columns && SCORE_COLUMN in t.columns ==>
      r == Ok(Grouped(CountryLists(t.columns[COUNTRY_COLUMN]), t.columns[SCORE_COLUMN]))
    ensures t.height == 0 || COUNTRY_COLUMN !in t.columns ==> cleaner.cache == old(cleaner.cache)
    ensures t.height > 0 && COUNTRY_COLUMN in t.columns && SCORE_COLUMN !in t.columns ==>
      cleaner.cache.Keys == old(cleaner.cache).Keys + {EntryOf(t.columns[COUNTRY_COLUMN][0])}
    ensures COUNTRY_COLUMN in t.columns && SCORE_COLUMN in t.columns ==>
      cleaner.cache.Keys == old(cleaner.cache).Keys + EntriesOf(t.columns[COUNTRY_COLUMN], t.height)
  {
    if t.height == 0 {
      if COUNTRY_COLUMN in t.columns && SCORE_COLUMN in t.columns {
        assert CountryLists(t.columns[COUNTRY_COLUMN]) == [] && t.columns[SCORE_COLUMN] == [];
        assert EntriesOf(t.columns[COUNTRY_COLUMN], 0) == {};
      }
      return Ok(map[]);
    }
    if COUNTRY_COLUMN !in t.columns {
      return Err(MissingColumn(COUNTRY_COLUMN));
    }
    if SCORE_COLUMN !in t.columns {
      var first := cleaner.Clean(EntryOf(t.columns[COUNTRY_COLUMN][0]));
      return Err(MissingColumn(SCORE_COLUMN));
    }
    var scores := GroupRows(t.columns[COUNTRY_COLUMN], t.columns[SCORE_COLUMN], cleaner);
    return Ok(scores);
  }

  /** The entries of the first `n` cells of a country column, as the
      cleaner's cache keys them. */
  function EntriesOf(entries: seq<Cell>, n: nat): (keys: set<Option<string>>)
    requires n <= |entries|
    requires forall i :: 0 <= i < |entries| ==> !entries[i].Num?
    ensures forall i :: 0 <= i < n ==> EntryOf(entries[i]) in keys
    ensures forall e :: e in keys ==> exists i :: 0 <= i < n && EntryOf(entries[i]) == e
  {
    set i | 0 <= i < n :: EntryOf(entries[i])
  }

  /** The row loop of `scores_by_country`, over the country and score columns. */
  method GroupRows(entries: seq<Cell>, values: seq<Cell>, cleaner: CountryCleaner)
    returns (scores: map<string, seq<Cell>>)
    requires |entries| == |values| && cleaner.Valid()
    requires forall i :: 0 <= i < |entries| ==> !entries[i].Num?
    modifies cleaner
    ensures cleaner.Valid()
    ensures scores == Grouped(CountryLists(entries), values)
    ensures cleaner.cache.Keys == old(cleaner.cache).Keys + EntriesOf(entries, |entries|)
  {
    ghost var lists := CountryLists(entries);
    scores := map[];
    var i := 0;
    while i < |entries|
      invariant 0 <= i <= |entries|
      invariant cleaner.Valid()
      invariant scores == Grouped(lists[..i], values[..i])
      invariant cleaner.cache.Keys == old(cleaner.cache).Keys + EntriesOf(entries, i)
    {
      ghost var seen := cleaner.cache.Keys;
      scores := AddRow(scores, EntryOf(entries[i]), values[i], cleaner);
      EntriesStep(entries, i, old(cleaner.cache).Keys, seen, cleaner.cache.Keys);
      GroupedStep(lists, values, i);
      i := i + 1;
    }
    assert lists[..i] == lists && values[..i] == values;
  }

  /** The body of the row loop: the row's entry goes through the cleaner and
      the row's score is appended under each country it names. */
  method AddRow(scores: map<string, seq<Cell>>, entry: Option<string>, v: Cell, cleaner: CountryCleaner)
    returns (updated: map<string, seq<Cell>>)
    requires cleaner.Valid()
    modifies cleaner
    ensures cleaner.Valid()
    ensures updated == AddAll(scores, CleanCountry(entry), v)
    ensures cleaner.cache.Keys == old(cleaner.cache).Keys + {entry}
  {
    var countries := cleaner.Clean(entry);
    updated := AppendScore(scores, countries, v);
  }

  /** One more row adds that row's entry to the entries seen, so a cache
      holding the first `i` entries and then this one holds the first
      `i + 1`. */
  lemma EntriesStep(entries: seq<Cell>, i: nat, start: set<Option<string>>,
                    before: set<Option<string>>, after: set<Option<string>>)
    requires i < |entries|
    requires forall k :: 0 <= k < |entries| ==> !entries[k].Num?
    requires before == start + EntriesOf(entries, i)
    requires after == before + {EntryOf(entries[i])}
    ensures after == start + EntriesOf(entries, i + 1)
  {
    assert EntriesOf(entries, i + 1) == EntriesOf(entries, i) + {EntryOf(entries[i])};
  }

  /** One more row: the grouping of a longer prefix adds that row's score
      under its countries. */
  lemma GroupedStep(lists: seq<seq<string>>, values: seq<Cell>, i: nat)
    requires i < |lists| == |values|
    ensures Grouped(lists[..i + 1], values[..i + 1]) == AddAll(Grouped(lists[..i], values[..i]), lists[i], values[i])
  {
    assert lists[..i + 1][..i] == lists[..i] && values[..i + 1][..i] == values[..i];
  }
}
