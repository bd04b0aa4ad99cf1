/** The data side of the CO2 bubble map (js/balls.js and its near-copy
    js/country_spheres.js): the lookup tables built when the three CSV files
    arrive, the frame of entries shown for one year, and the pure helpers for
    labels. */
module Co2Data {
  import opened Common
  import opened Sorting

  datatype Metric = PerCapita | Total

  /** Parsed rows of the three CSV files (numbers already converted by `+`). */
  datatype GeoRow = GeoRow(country: string, latitude: real, longitude: real)
  datatype ContinentRow = ContinentRow(country: string, continent: string)
  datatype Co2Row = Co2Row(country: string, year: int, perCapita: real, total: real)

  /** An entry of COUNTRY_GEO; `cont` is null until a continent row names the country. */
  datatype Geo = Geo(lat: real, lng: real, cont: Option<string>)

  /** `geo.cont` is truthy: present and not the empty string. */
  predicate HasContinent(g: Geo)
  {
    g.cont.Some? && g.cont.value != ""
  }

  function Reading(row: Co2Row, m: Metric): real
  {
    if m == PerCapita then row.perCapita else row.total
  }

  /** A JavaScript object `{country: {year: value}}`: its keys in insertion
      order (the order Object.keys reports) and the values behind them. */
  datatype Table = Table(order: seq<string>, rows: map<string, map<int, real>>)
  {
    ghost predicate Valid()
    {
      && (forall i, j :: 0 <= i < j < |order| ==> order[i] != order[j])
      && (forall c :: c in rows <==> c in order)
    }

    /** `if (!t[c]) t[c] = {}; t[c][y] = v;` */
    function Put(c: string, y: int, v: real): Table
    {
      if c in rows then Table(order, rows[c := rows[c][y := v]])
      else Table(order + [c], rows[c := map[y := v]])
    }
  }

  datatype Tables = Tables(geo: map<string, Geo>, pc: Table, total: Table)

  /** getActiveData / getDataFor: the table the metric reads. */
  function Source(t: Tables, m: Metric): Table
  {
    if m == PerCapita then t.pc else t.total
  }

  // ---------------------------------------------------------------------
  // Table building (the forEach loops of the data-load callback), first as
  // left folds over the rows, then as the loops themselves.
  // ---------------------------------------------------------------------

  function GeoOf(rows: seq<GeoRow>): map<string, Geo>
  {
    if rows == [] then map[]
    else
      var last := rows[|rows| - 1];
      GeoOf(rows[..|rows| - 1])[last.country := Geo(last.latitude, last.longitude, None)]
  }

  function WithContinents(geo: map<string, Geo>, rows: seq<ContinentRow>): map<string, Geo>
  {
    if rows == [] then geo
    else
      var g := WithContinents(geo, rows[..|rows| - 1]);
      var last := rows[|rows| - 1];
      if last.country in g then g[last.country := g[last.country].(cont := Some(last.continent))] else g
  }

  /** The row enters the table of metric `m`: known country, positive reading. */
  predicate Qualifies(geo: map<string, Geo>, row: Co2Row, m: Metric)
  {
    row.country in geo && Reading(row, m) > 0.0
  }

  function TableOf(geo: map<string, Geo>, rows: seq<Co2Row>, m: Metric): Table
  {
    if rows == [] then Table([], map[])
    else
      var t := TableOf(geo, rows[..|rows| - 1], m);
      var last := rows[|rows| - 1];
      if Qualifies(geo, last, m) then t.Put(last.country, last.year, Reading(last, m)) else t
  }

  /** The data-load callback: COUNTRY_GEO from the coordinates, continents
      attached to it, then the per-capita and total tables filled row by row. */
  method LoadTables(geoRows: seq<GeoRow>, contRows: seq<ContinentRow>, co2Rows: seq<Co2Row>)
    returns (t: Tables)
    ensures t.geo == WithContinents(GeoOf(geoRows), contRows)
    ensures t.pc == TableOf(t.geo, co2Rows, PerCapita)
    ensures t.total == TableOf(t.geo, co2Rows, Total)
  {
    var geo: map<string, Geo> := map[];
    for i := 0 to |geoRows|
      invariant geo == GeoOf(geoRows[..i])
    {
      var row := geoRows[i];
      geo := geo[row.country := Geo(row.latitude, row.longitude, None)];
      assert geoRows[..i + 1][..i] == geoRows[..i];
    }
    assert geoRows[..|geoRows|] == geoRows;
    var base := geo;
    for i := 0 to |contRows|
      invariant geo == WithContinents(base, contRows[..i])
    {
      var row := contRows[i];
      if row.country in geo {
        geo := geo[row.country := geo[row.country].(cont := Some(row.continent))];
      }
      assert contRows[..i + 1][..i] == contRows[..i];
    }
    assert contRows[..|contRows|] == contRows;
    var pc := Table([], map[]);
    var total := Table([], map[]);
    for i := 0 to |co2Rows|
      invariant pc == TableOf(geo, co2Rows[..i], PerCapita)
      invariant total == TableOf(geo, co2Rows[..i], Total)
    {
      var row := co2Rows[i];
      assert co2Rows[..i + 1][..i] == co2Rows[..i];
      if row.country in geo {
        if row.perCapita > 0.0 {
          pc := pc.Put(row.country, row.year, row.perCapita);
        }
        if row.total > 0.0 {
          total := total.Put(row.country, row.year, row.total);
        }
      }
    }
    assert co2Rows[..|co2Rows|] == co2Rows;
    t := Tables(geo, pc, total);
  }

  // Properties of the tables.

  /** COUNTRY_GEO has one entry per country named by a coordinate row, each
      still without a continent. */
  lemma {:induction false} GeoOfKeys(rows: seq<GeoRow>)
    ensures GeoOf(rows).Keys == set i | 0 <= i < |rows| :: rows[i].country
    ensures forall c :: c in GeoOf(rows) ==> GeoOf(rows)[c].cont == None
  {
    if rows != [] {
      var init := rows[..|rows| - 1];
      GeoOfKeys(init);
      var keys := set i | 0 <= i < |rows| :: rows[i].country;
      var initKeys := set i | 0 <= i < |init| :: init[i].country;
      assert keys == initKeys + {rows[|rows| - 1].country} by {
        forall c | c in keys ensures c in initKeys + {rows[|rows| - 1].country} {
          var i :| 0 <= i < |rows| && rows[i].country == c;
          if i < |init| { assert init[i].country == c; }
        }
        forall c | c in initKeys ensures c in keys {
          var i :| 0 <= i < |init| && init[i].country == c;
          assert rows[i].country == c;
        }
      }
    }
  }

  /** A country listed twice keeps the coordinates of its last row. */
  lemma {:induction false} GeoOfLastRowWins(rows: seq<GeoRow>, i: int)
    requires 0 <= i < |rows|
    requires forall j :: i < j < |rows| ==> rows[j].country != rows[i].country
    ensures rows[i].country in GeoOf(rows)
    ensures GeoOf(rows)[rows[i].country] == Geo(rows[i].latitude, rows[i].longitude, None)
  {
    if i < |rows| - 1 {
      var init := rows[..|rows| - 1];
      GeoOfLastRowWins(init, i);
    }
  }

  /** Continents only decorate countries COUNTRY_GEO already has: the keys and
      coordinates stay, a country named by no continent row keeps its `cont`,
      and one that is named takes the continent of its last row. */
  lemma {:induction false} WithContinentsKeepsEntries(geo: map<string, Geo>, rows: seq<ContinentRow>)
    ensures WithContinents(geo, rows).Keys == geo.Keys
    ensures forall c :: c in geo ==>
              WithContinents(geo, rows)[c].lat == geo[c].lat && WithContinents(geo, rows)[c].lng == geo[c].lng
    ensures forall c :: c in geo && (forall j :: 0 <= j < |rows| ==> rows[j].country != c) ==>
              WithContinents(geo, rows)[c] == geo[c]
  {
    if rows != [] {
      var init := rows[..|rows| - 1];
      WithContinentsKeepsEntries(geo, init);
      assert forall j :: 0 <= j < |init| ==> init[j] == rows[j];
    }
  }

  lemma {:induction false} WithContinentsLastRowWins(geo: map<string, Geo>, rows: seq<ContinentRow>, i: int)
    requires 0 <= i < |rows| && rows[i].country in geo
    requires forall j :: i < j < |rows| ==> rows[j].country != rows[i].country
    ensures rows[i].country in WithContinents(geo, rows)
    ensures WithContinents(geo, rows)[rows[i].country].cont == Some(rows[i].continent)
  {
    var init := rows[..|rows| - 1];
    WithContinentsKeepsEntries(geo, init);
    if i < |rows| - 1 {
      WithContinentsLastRowWins(geo, init, i);
    }
  }

  /** The per-capita and total tables: their key order lists each key once,
      every stored value is strictly positive, and only countries present in
      COUNTRY_GEO ever get a row. */
  lemma {:induction false} TableOfSound(geo: map<string, Geo>, rows: seq<Co2Row>, m: Metric)
    ensures TableOf(geo, rows, m).Valid()
    ensures forall c :: c in TableOf(geo, rows, m).rows ==> c in geo
    ensures forall c, y :: c in TableOf(geo, rows, m).rows && y in TableOf(geo, rows, m).rows[c] ==>
              TableOf(geo, rows, m).rows[c][y] > 0.0
  {
    if rows != [] {
      TableOfSound(geo, rows[..|rows| - 1], m);
    }
  }

  /** Every row of a known country with a positive reading is in the table,
      and when it is the last such row for its country and year, its value
      is the one kept. */
  lemma {:induction false} TableOfComplete(geo: map<string, Geo>, rows: seq<Co2Row>, m: Metric)
    ensures forall i :: 0 <= i < |rows| && Qualifies(geo, rows[i], m) ==>
              rows[i].country in TableOf(geo, rows, m).rows &&
              rows[i].year in TableOf(geo, rows, m).rows[rows[i].country]
    ensures forall i :: 0 <= i < |rows| && Qualifies(geo, rows[i], m) &&
                        (forall j :: i < j < |rows| && Qualifies(geo, rows[j], m) ==>
                           rows[j].country != rows[i].country || rows[j].year != rows[i].year) ==>
              TableOf(geo, rows, m).rows[rows[i].country][rows[i].year] == Reading(rows[i], m)
  {
    if rows != [] {
      var init := rows[..|rows| - 1];
      TableOfComplete(geo, init, m);
      assert forall i :: 0 <= i < |init| ==> init[i] == rows[i];
    }
  }

  // ---------------------------------------------------------------------
  // The frame for one year (getYearData / csGetYearData)
  // ---------------------------------------------------------------------

  datatype Trend = Up | Down | Stable

  /** The five-year trend: more than 5% above the value five years earlier is
      up, more than 5% below is down; without a positive earlier value it is stable. */
  function TrendOf(val: real, prev: Option<real>): (t: Trend)
    ensures t == Up <==> prev.Some? && prev.value > 0.0 && val > prev.value * 1.05
    ensures t == Down <==> prev.Some? && prev.value > 0.0 && val < prev.value * 0.95
    ensures t == Stable <==>
              (prev.None? || prev.value <= 0.0 || prev.value * 0.95 <= val <= prev.value * 1.05)
  {
    if prev.Some? && prev.value > 0.0 then
      if val > prev.value * 1.05 then Up
      else if val < prev.value * 0.95 then Down
      else Stable
    else Stable
  }

  function TrendLevel(t: Trend): int
  {
    match t
    case Down => 0
    case Stable => 1
    case Up => 2
  }

  /** Against the same earlier value, a larger current value never shows a lower trend. */
  lemma TrendMonotone(v1: real, v2: real, prev: Option<real>)
    requires v1 <= v2
    ensures TrendLevel(TrendOf(v1, prev)) <= TrendLevel(TrendOf(v2, prev))
  {
  }

  /** The two linear maps of projectX / projectY over the drawing size. */
  datatype Projection = Projection(w: real, h: real)
  {
    function X(lng: real): real
    {
      20.0 + ((lng - (-170.0)) / (180.0 - (-170.0))) * w
    }

    function Y(lat: real): real
    {
      80.0 + ((74.0 - lat) / (74.0 - (-48.0))) * h
    }
  }

  /** calcDimensions from the window's inner size. */
  function Dimensions(innerWidth: real, innerHeight: real): (p: Projection)
    ensures p.w <= 1360.0 && 600.0 <= p.h <= 850.0
  {
    Projection(MinReal(1400.0, innerWidth) - 20.0 - 20.0, MaxReal(600.0, MinReal(850.0, innerHeight * 0.68)))
  }

  /** A bubble's datum. `rank` and `r` are filled in after the entry is made
      (the entry starts with rank 0 and radius 0). */
  datatype Entry = Entry(country: string, val: real, cont: string, trend: Trend,
                         px: real, py: real, rank: int, r: real)

  /** The country passes every filter of getYearData for this year. */
  predicate Admitted(source: Table, geo: map<string, Geo>, year: int, c: string)
  {
    && c in source.rows
    && year in source.rows[c]
    && source.rows[c][year] > 0.0
    && c in geo
    && HasContinent(geo[c])
  }

  function PrevOf(byYear: map<int, real>, year: int): Option<real>
  {
    if year - 5 in byYear then Some(byYear[year - 5]) else None
  }

  /** The entry getYearData pushes for an admitted country. */
  function EntryFor(source: Table, geo: map<string, Geo>, proj: Projection, year: int, c: string): (e: Entry)
    requires Admitted(source, geo, year, c)
    ensures e.country == c && Describes(source, geo, year, e)
    ensures e.px == proj.X(geo[c].lng) && e.py == proj.Y(geo[c].lat)
    ensures e.rank == 0 && e.r == 0.0
  {
    var val := source.rows[c][year];
    Entry(c, val, geo[c].cont.value, TrendOf(val, PrevOf(source.rows[c], year)),
          proj.X(geo[c].lng), proj.Y(geo[c].lat), 0, 0.0)
  }

  /** The entry carries the admitted country's value, continent and trend
      for the year; its rank, radius and position are set elsewhere. */
  predicate Describes(source: Table, geo: map<string, Geo>, year: int, e: Entry)
    requires Admitted(source, geo, year, e.country)
  {
    var byYear := source.rows[e.country];
    && e.val == byYear[year]
    && e.cont == geo[e.country].cont.value
    && e.trend == TrendOf(byYear[year], PrevOf(byYear, year))
  }

  /** What a frame of the bubble map is: every admitted country exactly once,
      each described correctly, in non-increasing order of value, ranked 1..n. */
  ghost predicate IsFrame(source: Table, geo: map<string, Geo>, year: int, s: seq<Entry>)
  {
    && (forall i :: 0 <= i < |s| ==>
          Admitted(source, geo, year, s[i].country) && Describes(source, geo, year, s[i]) && s[i].rank == i + 1)
    && (forall c :: Admitted(source, geo, year, c) ==> exists i :: 0 <= i < |s| && s[i].country == c)
    && (forall i, j :: 0 <= i < j < |s| ==> s[i].country != s[j].country)
    && (forall i, j :: 0 <= i < j < |s| ==> s[i].val >= s[j].val)
  }

  /** Setting radii and positions leaves a frame a frame. */
  lemma FrameIgnoresPlacement(source: Table, geo: map<string, Geo>, year: int, s: seq<Entry>, t: seq<Entry>)
    requires IsFrame(source, geo, year, s)
    requires |t| == |s|
    requires forall i :: 0 <= i < |s| ==> t[i] == s[i].(r := t[i].r, px := t[i].px, py := t[i].py)
    ensures IsFrame(source, geo, year, t)
  {
    forall c | Admitted(source, geo, year, c) ensures exists i :: 0 <= i < |t| && t[i].country == c {
      var i :| 0 <= i < |s| && s[i].country == c;
      assert t[i].country == c;
    }
  }

  /** The entries pushed while walking the given keys, before sorting. */
  function Collected(source: Table, geo: map<string, Geo>, proj: Projection, year: int, keys: seq<string>): seq<Entry>
  {
    if keys == [] then []
    else
      var c := keys[|keys| - 1];
      Collected(source, geo, proj, year, keys[..|keys| - 1]) +
        (if Admitted(source, geo, year, c) then [EntryFor(source, geo, proj, year, c)] else [])
  }

  lemma {:induction false} CollectedEntries(source: Table, geo: map<string, Geo>, proj: Projection, year: int, keys: seq<string>)
    requires forall i, j :: 0 <= i < j < |keys| ==> keys[i] != keys[j]
    ensures forall e :: e in Collected(source, geo, proj, year, keys) ==>
              e.country in keys && Admitted(source, geo, year, e.country) && e == EntryFor(source, geo, proj, year, e.country)
    ensures forall c :: c in keys && Admitted(source, geo, year, c) ==> EntryFor(source, geo, proj, year, c) in Collected(source, geo, proj, year, keys)
    ensures NoDuplicates(Collected(source, geo, proj, year, keys))
  {
    if keys != [] {
      var init := keys[..|keys| - 1];
      var c := keys[|keys| - 1];
      CollectedEntries(source, geo, proj, year, init);
      assert keys == init + [c];
      assert c !in init;
      var prefix := Collected(source, geo, proj, year, init);
      if Admitted(source, geo, year, c) {
        var e := EntryFor(source, geo, proj, year, c);
        assert e !in prefix;
        var all := prefix + [e];
        forall i, j | 0 <= i < j < |all| ensures all[i] != all[j] {
          if j == |prefix| { assert all[i] in prefix; }
        }
      }
    }
  }

  /** Sort key of `entries.sort((a, b) => b.val - a.val)`: larger values first. */
  function LargerFirst(e: Entry): real
  {
    -e.val
  }

  /** The walk over the table's keys in getYearData, pushing one entry per admitted country. */
  method CollectEntries(source: Table, geo: map<string, Geo>, proj: Projection, year: int) returns (collected: seq<Entry>)
    requires source.Valid()
    ensures collected == Collected(source, geo, proj, year, source.order)
  {
    collected := [];
    for i := 0 to |source.order|
      invariant collected == Collected(source, geo, proj, year, source.order[..i])
    {
      var country := source.order[i];
      assert source.order[..i + 1] == source.order[..i] + [country];
      var byYear := source.rows[country];
      if year in byYear && byYear[year] > 0.0 && country in geo && HasContinent(geo[country]) {
        var val := byYear[year];
        var prev := if year - 5 in byYear then Some(byYear[year - 5]) else None;
        var trend := TrendOf(val, prev);
        collected := collected + [Entry(country, val, geo[country].cont.value, trend,
                                        proj.X(geo[country].lng), proj.Y(geo[country].lat), 0, 0.0)];
      }
    }
    assert source.order[..|source.order|] == source.order;
  }

  /** The sorted frame, before ranks: exactly the admitted countries, once
      each, largest value first. */
  lemma SortedFrame(source: Table, geo: map<string, Geo>, proj: Projection, year: int, sorted: seq<Entry>)
    requires source.Valid()
    requires sorted == SortBy(Collected(source, geo, proj, year, source.order), LargerFirst)
    ensures forall i :: 0 <= i < |sorted| ==>
              Admitted(source, geo, year, sorted[i].country) &&
              sorted[i] == EntryFor(source, geo, proj, year, sorted[i].country)
    ensures forall c :: Admitted(source, geo, year, c) ==>
              exists i :: 0 <= i < |sorted| && sorted[i].country == c
    ensures forall i, j :: 0 <= i < j < |sorted| ==> sorted[i].country != sorted[j].country
    ensures forall i, j :: 0 <= i < j < |sorted| ==> sorted[i].val >= sorted[j].val
  {
    var collected := Collected(source, geo, proj, year, source.order);
    CollectedEntries(source, geo, proj, year, source.order);
    SortByIsSortedPermutation(collected, LargerFirst);
    PermutationKeepsNoDuplicates(sorted, collected);
    forall i | 0 <= i < |sorted|
      ensures Admitted(source, geo, year, sorted[i].country)
      ensures sorted[i] == EntryFor(source, geo, proj, year, sorted[i].country)
    {
      assert sorted[i] in multiset(collected);
    }
    forall c | Admitted(source, geo, year, c) ensures exists i :: 0 <= i < |sorted| && sorted[i].country == c {
      var e := EntryFor(source, geo, proj, year, c);
      assert e in multiset(sorted);
      var i :| 0 <= i < |sorted| && sorted[i] == e;
    }
    forall i, j | 0 <= i < j < |sorted| ensures sorted[i].country != sorted[j].country {
      assert sorted[i] != sorted[j];
    }
    forall i, j | 0 <= i < j < |sorted| ensures sorted[i].val >= sorted[j].val {
      assert LargerFirst(sorted[i]) <= LargerFirst(sorted[j]);
    }
  }

  /** getYearData: the admitted countries of the metric's table for `year`,
      each with its value, continent, trend and projected target, in
      non-increasing order of value with ranks 1..n in that order. */
  method GetYearData(tables: Tables, metric: Metric, year: int, proj: Projection) returns (entries: seq<Entry>)
    requires Source(tables, metric).Valid()
    ensures forall i :: 0 <= i < |entries| ==>
              Admitted(Source(tables, metric), tables.geo, year, entries[i].country) &&
              entries[i] == EntryFor(Source(tables, metric), tables.geo, proj, year, entries[i].country).(rank := i + 1)
    ensures IsFrame(Source(tables, metric), tables.geo, year, entries)
  {
    var source := Source(tables, metric);
    var collected := CollectEntries(source, tables.geo, proj, year);
    var sorted := SortBy(collected, LargerFirst);
    SortedFrame(source, tables.geo, proj, year, sorted);
    entries := sorted;
    for k := 0 to |sorted|
      invariant |entries| == |sorted|
      invariant forall j :: 0 <= j < k ==> entries[j] == sorted[j].(rank := j + 1)
      invariant forall j :: k <= j < |sorted| ==> entries[j] == sorted[j]
    {
      entries := entries[k := entries[k].(rank := k + 1)];
    }
    RankedFrame(source, tables.geo, proj, year, sorted, entries);
  }

  /** Numbering the sorted entries 1..n makes them a frame. */
  lemma RankedFrame(source: Table, geo: map<string, Geo>, proj: Projection, year: int, sorted: seq<Entry>, entries: seq<Entry>)
    requires forall i :: 0 <= i < |sorted| ==>
               Admitted(source, geo, year, sorted[i].country) &&
               sorted[i] == EntryFor(source, geo, proj, year, sorted[i].country)
    requires forall c :: Admitted(source, geo, year, c) ==>
               exists i :: 0 <= i < |sorted| && sorted[i].country == c
    requires forall i, j :: 0 <= i < j < |sorted| ==> sorted[i].country != sorted[j].country
    requires forall i, j :: 0 <= i < j < |sorted| ==> sorted[i].val >= sorted[j].val
    requires |entries| == |sorted| && forall i :: 0 <= i < |sorted| ==> entries[i] == sorted[i].(rank := i + 1)
    ensures forall i :: 0 <= i < |entries| ==>
              Admitted(source, geo, year, entries[i].country) &&
              entries[i] == EntryFor(source, geo, proj, year, entries[i].country).(rank := i + 1)
    ensures IsFrame(source, geo, year, entries)
  {
    forall i | 0 <= i < |entries|
      ensures Admitted(source, geo, year, entries[i].country)
      ensures entries[i] == EntryFor(source, geo, proj, year, entries[i].country).(rank := i + 1)
    {
      assert entries[i].country == sorted[i].country;
    }
    forall c | Admitted(source, geo, year, c) ensures exists i :: 0 <= i < |entries| && entries[i].country == c {
      var i :| 0 <= i < |sorted| && sorted[i].country == c;
      assert entries[i].country == c;
    }
  }

  // ---------------------------------------------------------------------
  // Labels
  // ---------------------------------------------------------------------

  const Abbreviations: map<string, string> := map[
    "United States" := "USA", "United Kingdom" := "UK", "United Arab Emirates" := "UAE",
    "South Korea" := "S.Korea", "Saudi Arabia" := "S.Arabia", "New Zealand" := "NZ",
    "South Africa" := "S.Africa", "Democratic Republic of Congo" := "DR Congo",
    "Trinidad and Tobago" := "Trinidad", "Dominican Republic" := "Dom.Rep.",
    "Bosnia and Herzegovina" := "Bosnia", "North Macedonia" := "N.Maced.",
    "Papua New Guinea" := "PNG", "Central African Republic" := "CAR",
    "Equatorial Guinea" := "Eq.Guinea", "Cote d'Ivoire" := "Cote d'Iv.",
    "Saint Vincent and the Grenadines" := "St.Vincent",
    "Antigua and Barbuda" := "Antigua", "Saint Kitts and Nevis" := "St.Kitts",
    "Sao Tome and Principe" := "STP", "Micronesia (country)" := "Micronesia",
    "Sint Maarten (Dutch part)" := "St.Maarten",
    "Bonaire Sint Eustatius and Saba" := "Bonaire"
  ]

  /** shortName / csShortName: the table's abbreviation, else the name cut to
      eight characters and a dot when it is longer than nine. */
  function ShortName(name: string): (abbrev: string)
    ensures |abbrev| <= 10 && |abbrev| <= |name|
  {
    AbbreviationsShorten();
    if name in Abbreviations then Abbreviations[name]
    else if |name| > 9 then name[..8] + "." else name
  }

  /** An unlisted name comes back whole when it has at most nine characters,
      and otherwise as its first eight characters and a dot: at most nine
      characters, and always a prefix of the name (up to the dot). */
  lemma ShortNameUnlisted(name: string)
    requires name !in Abbreviations
    ensures |ShortName(name)| <= 9
    ensures |name| <= 9 ==> ShortName(name) == name
    ensures |name| > 9 ==> |ShortName(name)| == 9 && ShortName(name)[..8] == name[..8] && ShortName(name)[8] == '.'
  {
  }

  /** Every abbreviation is shorter than the name it replaces and at most ten characters long. */
  lemma AbbreviationsShorten()
    ensures forall n :: n in Abbreviations ==> |Abbreviations[n]| < |n| && |Abbreviations[n]| <= 10
  {
  }

  // ---------------------------------------------------------------------
  // Which unit formatVal / formatValShort choose (the digits are toFixed's)
  // ---------------------------------------------------------------------

  /** What is printed: `amount` with `digits` decimals, followed by `unit`. */
  datatype Shown = Shown(amount: real, digits: nat, unit: string)

  /** Megatonnes (or tonnes per person) per printed unit. */
  function UnitSize(unit: string): real
  {
    if unit == " Gt" || unit == "G" then 1000.0
    else if unit == " kt" || unit == "k" then 0.001
    else 1.0
  }

  /** formatVal: the printed amount times its unit is the value, and a
      positive total is printed in Gt from 1000 Mt up and in kt below 1 Mt,
      which puts the amount in [1, 1000) up to a million Mt. */
  function FormatVal(v: real, m: Metric): (shown: Shown)
    ensures shown.amount * UnitSize(shown.unit) == v
    ensures m == Total && 0.0 < v ==>
              (shown.unit == " Gt" <==> v >= 1000.0) &&
              (shown.unit == " kt" <==> v < 1.0) &&
              (v < 1000000.0 ==> 1.0 <= shown.amount < 1000.0 || (v < 1.0 && shown.amount < 1000.0))
    ensures m == PerCapita ==> shown.unit == " t"
  {
    if m == Total then
      if v >= 1000.0 then Shown(v / 1000.0, 1, " Gt")
      else if v >= 1.0 then Shown(v, 1, " Mt")
      else Shown(v * 1000.0, 0, " kt")
    else Shown(v, 2, " t")
  }

  /** formatValShort: the printed amount times its unit is the value; a
      positive total is printed in G from 1000 M up and in k below 1 M, and
      whole megatonnes from 100 M up. */
  function FormatValShort(v: real, m: Metric): (shown: Shown)
    ensures shown.amount * UnitSize(shown.unit) == v
    ensures m == Total && 0.0 < v ==>
              (shown.unit == "G" <==> v >= 1000.0) &&
              (shown.unit == "k" <==> v < 1.0) &&
              (shown.unit == "M" ==> (shown.digits == 0 <==> v >= 100.0))
    ensures m == PerCapita ==> shown.unit == "t"
  {
    if m == Total then
      if v >= 1000.0 then Shown(v / 1000.0, 1, "G")
      else if v >= 100.0 then Shown(v, 0, "M")
      else if v >= 1.0 then Shown(v, 1, "M")
      else Shown(v * 1000.0, 0, "k")
    else Shown(v, 1, "t")
  }
}
