/** Normalisation of the `countries_fr` entries: an entry is upper-cased,
    split on commas, stripped of any `xx:` language tag and translated to the
    French country name through a fixed dictionary; results are memoised. */
module Countries {
  import opened Common

  /** Upper-casing of one character (ASCII letters only). */
  function UpperChar(c: char): (u: char)
    ensures !('a' <= u <= 'z')
    ensures !('a' <= c <= 'z') ==> u == c
    ensures 'a' <= c <= 'z' ==> u as int == c as int - 32
  {
    if 'a' <= c <= 'z' then (c as int - 32) as char else c
  }

  /** `str.upper()` on ASCII letters: no lower-case letter is left, and
      nothing but lower-case letters changes. */
  function Upper(s: string): (r: string)
    ensures |r| == |s|
    ensures forall i :: 0 <= i < |r| ==> !('a' <= r[i] <= 'z')
    ensures forall i :: 0 <= i < |r| && !('a' <= s[i] <= 'z') ==> r[i] == s[i]
    ensures forall i :: 0 <= i < |r| && 'a' <= s[i] <= 'z' ==> 'A' <= r[i] <= 'Z'
  {
    seq(|s|, i requires 0 <= i < |s| => UpperChar(s[i]))
  }

  lemma UpperIdempotent(s: string)
    ensures Upper(Upper(s)) == Upper(s)
  {
    var u := Upper(s);
    assert forall i :: 0 <= i < |u| ==> Upper(u)[i] == u[i];
  }

  /** `s.split(',')`: the pieces between the commas, at least one. */
  function Split(s: string): (pieces: seq<string>)
    ensures |pieces| >= 1
    ensures forall k :: 0 <= k < |pieces| ==> ',' !in pieces[k]
  {
    if s == [] then [""]
    else
      var rest := Split(s[1..]);
      if s[0] == ',' then [""] + rest
      else [[s[0]] + rest[0]] + rest[1..]
  }

  /** The pieces put back together with commas between them. */
  function Join(pieces: seq<string>): string
  {
    if pieces == [] then ""
    else if |pieces| == 1 then pieces[0]
    else pieces[0] + "," + Join(pieces[1..])
  }

  /** Number of commas in a string. */
  function Commas(s: string): nat
  {
    if s == [] then 0 else (if s[0] == ',' then 1 else 0) + Commas(s[1..])
  }

  /** Splitting loses nothing: the pieces joined with commas give the string
      back, and there is one piece more than there are commas. */
  lemma {:induction false} SplitJoin(s: string)
    ensures Join(Split(s)) == s
    ensures |Split(s)| == Commas(s) + 1
  {
    if s != [] {
      SplitJoin(s[1..]);
      var rest := Split(s[1..]);
      if s[0] == ',' {
        assert ([""] + rest)[1..] == rest;
        assert s == [','] + s[1..];
      } else {
        var pieces := [[s[0]] + rest[0]] + rest[1..];
        if |rest| == 1 {
          assert s == [s[0]] + s[1..];
        } else {
          assert pieces[1..] == rest[1..];
          assert Join(rest) == rest[0] + "," + Join(rest[1..]);
          assert s == [s[0]] + s[1..];
        }
      }
    }
  }

  /** Position of the last colon, or -1 when there is none. */
  function LastColon(s: string): (k: int)
    ensures -1 <= k < |s|
    ensures k >= 0 ==> s[k] == ':'
    ensures forall i :: k < i < |s| ==> s[i] != ':'
  {
    if s == [] then -1
    else if s[|s| - 1] == ':' then |s| - 1
    else LastColon(s[..|s| - 1])
  }

  /** `re.sub(".+:", "", s)`: the greedy match runs from the first character
      to the last colon, so everything up to that colon goes, provided at
      least one character precedes it; otherwise nothing matches. */
  function StripTag(s: string): (r: string)
    ensures LastColon(s) >= 1 ==> r == s[LastColon(s) + 1..] && ':' !in r
    ensures LastColon(s) < 1 ==> r == s
  {
    var k := LastColon(s);
    if k >= 1 then s[k + 1..] else s
  }

  /** A string stripped of its tag has no tag left to strip. */
  lemma StripTagIdempotent(s: string)
    ensures StripTag(StripTag(s)) == StripTag(s)
  {
    var k := LastColon(s);
    if k >= 1 {
      var r := s[k + 1..];
      assert forall i :: 0 <= i < |r| ==> r[i] == s[k + 1 + i];
      assert ':' !in r;
      assert LastColon(r) == -1 by { NoColon(r); }
    }
  }

  lemma {:induction false} NoColon(s: string)
    requires ':' !in s
    ensures LastColon(s) == -1
    decreases |s|
  {
    if s != [] {
      assert s[..|s| - 1] <= s;
      NoColon(s[..|s| - 1]);
    }
  }

  /** The translation dictionary, entry for entry. Two keys are written twice
      ("?????????" and "??"); as in a Python dict display, the later entry
      wins. */
  const FR: map<string, string> := map[
    "FRANCIAORSZAG" := "FRANCE",
    "FRANKRIKE" := "FRANCE",
    "FRANKREICH" := "FRANCE",
    "BOUCHES-DU-RHONE" := "FRANCE",
    "BOURGOGNE-AUBE-NOGENT-SUR-SEINE" := "FRANCE",
    "AIX-EN-PROVENCE" := "FRANCE",
    "FRANKRIJK" := "FRANCE",
    "MARSEILLE-6" := "FRANCE",
    "????????" := "ARABIE SAOUDITE",
    "????????-???????-???????" := "ÉMIRATS ARABES UNIS",
    "AUSTRALIEN" := "AUSTRALIE",
    "AZ?RBAYCAN" := "AZERBAÏDJAN",
    "BELGIE" := "BELGIQUE",
    "BELGIEN" := "BELGIQUE",
    "DENEMARKEN" := "DANEMARK",
    "DEUTSCHLAND" := "ALLEMAGNE",
    "DUITSLAND" := "ALLEMAGNE",
    "FINAND" := "FINLANDE",
    "GUYANA" := "GUYANE",
    "ISLAND" := "ISLANDE",
    "ITALIAANS" := "ITALIE",
    "ITALIEN" := "ITALIE",
    "KINA" := "KENYA",
    "SCHWEIZ" := "SUISSE",
    "SVAJC" := "SUISSE",
    "MAGYARORSZAG" := "HONGRIE",
    "NEDERLAND" := "PAYS-BAS",
    "HOLLANDE" := "PAYS-BAS",
    "NOORWEGEN" := "NORVEGE",
    "OTHER-JAPON" := "JAPON",
    "OTHER-TURQUIE" := "TURQUIE",
    "OTHER-??" := "JAPON",
    "PORTUGALIA" := "PORTUGAL",
    "REPUBLIK-CHINA" := "CHINE",
    "REPUBLIQUE-DE-CHINE" := "CHINE",
    "SPANIEN" := "ESPAGNE",
    "SPANJE" := "ESPAGNE",
    "SPANYOLORSZAG" := "ESPAGNE",
    "SVERIGE" := "SUÈDE",
    "ZWITSERLAND" := "SUÈDE",
    "ZWEDEN" := "SUÈDE",
    "SZCZECIN" := "POLOGNE",
    "TURKIYE" := "TURQUIE",
    "CZECH" := "RÉPUBLIQUE TCHÈQUE",
    "TSCHECHIEN" := "RÉPUBLIQUE TCHÈQUE",
    "VEREINIGTES-KONIGREICH" := "ROYAUME-UNI",
    "ANGLETERRE" := "ROYAUME-UNI",
    "??????" := "IRAK",
    "???????-???????" := "ROYAUME-UNI",
    "?????-????" := "OMAN",
    "????????????????" := "AUSTRALIE",
    "?????????????" := "ROYAUME-UNI",
    "?????????" := "THAÏLANDE",
    "THAILAND" := "THAÏLANDE",
    "??" := "JAPON",
    "??" := "HONG KONG",
    "?????????" := "KAZAKHSTAN",
    "SCOTLAND" := "ÉCOSSE",
    "ETATS-UNIS" := "ÉTATS-UNIS",
    "NAN" := "INCONNU"
  ]

  /** `synonym`: the dictionary's translation, or the name itself. */
  function Synonym(x: string): string
  {
    if x in FR then FR[x] else x
  }

  /** The later of two entries with the same key is the one kept. */
  lemma DuplicateKeys()
    ensures Synonym("??") == "HONG KONG"
    ensures Synonym("?????????") == "KAZAKHSTAN"
  {
  }

  /** Foreign names are translated. */
  lemma Translations()
    ensures Synonym("TURKIYE") == "TURQUIE"
    ensures Synonym("ANGLETERRE") == "ROYAUME-UNI"
    ensures Synonym("THAILAND") == "THAÏLANDE"
  {
  }

  /** `str(entry)`: a missing entry (NaN) prints as "nan". */
  function EntryText(entry: Option<string>): string
  {
    match entry
    case None => "nan"
    case Some(s) => s
  }

  /** `clean_country` without its cache: one country name per comma-separated
      piece of the upper-cased entry, tag stripped and translated. */
  function CleanCountry(entry: Option<string>): (names: seq<string>)
    ensures |names| == |Split(Upper(EntryText(entry)))| >= 1
  {
    Names(Split(Upper(EntryText(entry))))
  }

  /** Each piece stripped of its tag and translated. */
  function Names(pieces: seq<string>): (names: seq<string>)
    ensures |names| == |pieces|
    ensures forall k :: 0 <= k < |pieces| ==> names[k] == Synonym(StripTag(pieces[k]))
  {
    seq(|pieces|, k requires 0 <= k < |pieces| => Synonym(StripTag(pieces[k])))
  }

  lemma NamesConcat(p: seq<string>, q: seq<string>)
    ensures Names(p + q) == Names(p) + Names(q)
  {
    var whole, parts := Names(p + q), Names(p) + Names(q);
    forall k | 0 <= k < |whole|
      ensures whole[k] == parts[k]
    {
      if k < |p| {
        assert (p + q)[k] == p[k] && parts[k] == Names(p)[k];
      } else {
        assert (p + q)[k] == q[k - |p|] && parts[k] == Names(q)[k - |p|];
      }
    }
  }

  /** One name per comma-separated piece of the entry, each the translation
      of that piece with its tag removed. */
  lemma CleanCountryPieces(entry: Option<string>)
    ensures |CleanCountry(entry)| == Commas(EntryText(entry)) + 1
    ensures forall k :: 0 <= k < |CleanCountry(entry)| ==>
      CleanCountry(entry)[k] == Synonym(StripTag(Split(Upper(EntryText(entry)))[k]))
  {
    SplitJoin(Upper(EntryText(entry)));
    UpperCommas(EntryText(entry));
  }

  lemma {:induction false} UpperCommas(s: string)
    ensures Commas(Upper(s)) == Commas(s)
    decreases |s|
  {
    if s != [] {
      assert Upper(s)[1..] == Upper(s[1..]);
      UpperCommas(s[1..]);
    }
  }

  /** An untagged single name is only upper-cased and translated. */
  lemma CleanCountryOfName(name: string)
    requires ',' !in name && ':' !in name
    ensures CleanCountry(Some(name)) == [Synonym(Upper(name))]
  {
    var u := Upper(name);
    UpperKeepsComma(name);
    UpperKeepsColon(name);
    SplitNoComma(u);
    NoColon(u);
  }

  lemma {:induction false} SplitNoComma(s: string)
    requires ',' !in s
    ensures Split(s) == [s]
    decreases |s|
  {
    if s != [] {
      assert ',' !in s[1..];
      SplitNoComma(s[1..]);
      assert [s[0]] + s[1..] == s;
    }
  }

  /** A tagged name loses its tag: everything up to the last colon goes. */
  lemma CleanCountryTagged(tag: string, name: string)
    requires |tag| >= 1 && ',' !in tag && ',' !in name && ':' !in name
    ensures CleanCountry(Some(tag + ":" + name)) == [Synonym(Upper(name))]
  {
    var s := tag + ":" + name;
    UpperAround(tag, ':', name);
    UpperKeepsComma(s);
    UpperKeepsColon(name);
    SplitNoComma(Upper(s));
    StripTagged(Upper(tag), Upper(name));
  }

  /** A tag of at least one character before the last colon is stripped. */
  lemma StripTagged(tag: string, name: string)
    requires |tag| >= 1 && ':' !in name
    ensures StripTag(tag + ":" + name) == name
  {
    var s := tag + ":" + name;
    assert s[|tag|] == ':';
    assert forall i :: |tag| < i < |s| ==> s[i] == name[i - |tag| - 1];
    assert LastColon(s) == |tag|;
    assert s[|tag| + 1..] == name;
  }

  /** Upper-casing goes through a separator that is not a lower-case letter. */
  lemma UpperAround(a: string, sep: char, b: string)
    requires !('a' <= sep <= 'z')
    ensures Upper(a + [sep] + b) == Upper(a) + [sep] + Upper(b)
  {
    var s := a + [sep] + b;
    assert forall i :: 0 <= i < |s| ==> Upper(s)[i] == (Upper(a) + [sep] + Upper(b))[i];
  }

  /** Entries joined by a comma normalise to the concatenation of their
      normalisations. */
  lemma CleanCountryConcat(a: string, b: string)
    ensures CleanCountry(Some(a + "," + b)) == CleanCountry(Some(a)) + CleanCountry(Some(b))
  {
    UpperAround(a, ',', b);
    SplitConcat(Upper(a), Upper(b));
    NamesConcat(Split(Upper(a)), Split(Upper(b)));
  }

  lemma UpperKeepsComma(s: string)
    ensures ',' in Upper(s) <==> ',' in s
  {
    var u := Upper(s);
    if ',' in u {
      var i :| 0 <= i < |u| && u[i] == ',';
      assert s[i] == ',';
    }
    if ',' in s {
      var i :| 0 <= i < |s| && s[i] == ',';
      assert u[i] == ',';
    }
  }

  lemma UpperKeepsColon(s: string)
    ensures ':' in Upper(s) <==> ':' in s
  {
    var u := Upper(s);
    if ':' in u {
      var i :| 0 <= i < |u| && u[i] == ':';
      assert s[i] == ':';
    }
    if ':' in s {
      var i :| 0 <= i < |s| && s[i] == ':';
      assert u[i] == ':';
    }
  }

  lemma {:induction false} SplitConcat(a: string, b: string)
    ensures Split(a + "," + b) == Split(a) + Split(b)
    decreases |a|
  {
    if a == [] {
      assert a + "," + b == [','] + b;
      assert ([','] + b)[1..] == b;
    } else {
      var s := a + "," + b;
      assert s[0] == a[0] && s[1..] == a[1..] + "," + b;
      SplitConcat(a[1..], b);
    }
  }

  /** A worked entry: a tagged piece and a plain piece, both translated. */
  lemma CleanCountryExample(tag: string, name: string, other: string)
    requires tag == "en" && name == "Turkiye" && other == "thailand"
    ensures CleanCountry(Some(tag + ":" + name + "," + other)) == ["TURQUIE", "THAÏLANDE"]
  {
    ExamplePieces(tag, name, other);
    Translations();
  }

  lemma ExamplePieces(tag: string, name: string, other: string)
    requires tag == "en" && name == "Turkiye" && other == "thailand"
    ensures CleanCountry(Some(tag + ":" + name + "," + other)) == [Synonym("TURKIYE"), Synonym("THAILAND")]
  {
    CleanCountryConcat(tag + ":" + name, other);
    CleanCountryTagged(tag, name);
    CleanCountryOfName(other);
    UpperExample(name, other);
  }

  lemma UpperExample(a: string, b: string)
    requires a == "Turkiye" && b == "thailand"
    ensures Upper(a) == "TURKIYE" && Upper(b) == "THAILAND"
  {
  }

  /** A missing entry becomes the single name "INCONNU". */
  lemma CleanCountryMissing()
    ensures CleanCountry(None) == ["INCONNU"]
  {
    CleanCountryOfName("nan");
    assert Upper("nan") == "NAN";
  }

  /** The memoised `clean_country`: every cached list is the normalisation of
      its entry. */
  class CountryCleaner {
    var cache: map<Option<string>, seq<string>>

    ghost predicate Valid()
      reads this
    {
      forall entry :: entry in cache ==> cache[entry] == CleanCountry(entry)
    }

    constructor ()
      ensures Valid() && cache == map[]
    {
      cache := map[];
    }

    /** A cached entry is answered from the cache, any other is normalised
        and recorded; either way the answer is the normalisation. */
    method Clean(entry: Option<string>) returns (names: seq<string>)
      requires Valid()
      modifies this
      ensures Valid()
      ensures names == CleanCountry(entry)
      ensures cache == old(cache)[entry := names]
    {
      if entry in cache {
        return cache[entry];
      }
      names := CleanCountry(entry);
      cache := cache[entry := names];
    }
  }
}
