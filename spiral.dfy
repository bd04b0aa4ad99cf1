/** The temperature spiral: monthly anomaly points parsed from the GISTEMP
    table, the part of the spiral drawn for a chosen year, and the timeline
    state (current year, scrubbing, the autoplay timer). */
module Spiral {
  import opened Common
  import opened Sorting

  const Months: seq<string> :=
    ["Jan", "Feb", "Mar", "Apr", "May", "Jun", "Jul", "Aug", "Sep", "Oct", "Nov", "Dec"]

  datatype Point = Point(year: int, month: string, monthIndex: int, temperature: real, t: int)

  /** A row as d3.csvParse hands it over: the numeric `Year` column and the
      other cells keyed by their header. */
  datatype CsvRow = CsvRow(year: int, cells: map<string, string>)

  predicate StartsWith(s: string, prefix: string)
  {
    |prefix| <= |s| && s[..|prefix|] == prefix
  }

  /** The title line "Land-Ocean ..." above the header is dropped; every other
      line is kept, in order. */
  function CleanLines(lines: seq<string>): (r: seq<string>)
    requires |lines| > 0
    ensures |lines| - 1 <= |r| <= |lines|
    ensures r == lines[|lines| - |r|..]
    ensures |r| < |lines| <==> StartsWith(lines[0], "Land-Ocean")
  {
    if StartsWith(lines[0], "Land-Ocean") then lines[1..] else lines
  }

  /** A month cell yields a point unless it is missing, empty or "***". */
  predicate Present(row: CsvRow, k: int)
    requires 0 <= k < 12
  {
    Months[k] in row.cells && row.cells[Months[k]] != "" && row.cells[Months[k]] != "***"
  }

  function PointAt(row: CsvRow, k: int, startYear: int, parseFloat: string -> real): Point
    requires 0 <= k < 12 && Months[k] in row.cells
  {
    Point(row.year, Months[k], k, parseFloat(row.cells[Months[k]]), (row.year - startYear) * 12 + k)
  }

  /** The points of one row from its first k month columns, January first. */
  function RowPoints(row: CsvRow, startYear: int, parseFloat: string -> real, k: nat): seq<Point>
    requires k <= 12
  {
    if k == 0 then []
    else RowPoints(row, startYear, parseFloat, k - 1)
         + (if Present(row, k - 1) then [PointAt(row, k - 1, startYear, parseFloat)] else [])
  }

  /** The points of all rows, row by row. */
  function PointsOf(rows: seq<CsvRow>, startYear: int, parseFloat: string -> real): seq<Point>
  {
    if rows == [] then []
    else PointsOf(rows[..|rows| - 1], startYear, parseFloat) + RowPoints(rows[|rows| - 1], startYear, parseFloat, 12)
  }

  /** A point's month name and index agree and its t counts months from January of startYear. */
  predicate WellFormed(p: Point, startYear: int)
  {
    0 <= p.monthIndex < 12 && p.month == Months[p.monthIndex]
    && p.t == (p.year - startYear) * 12 + p.monthIndex
  }

  /** parseTemperatureData. `csvParse` and `parseFloat` stand for d3.csvParse and
      Number.parseFloat. With no data row, `rows[0].Year` throws: None. */
  method ParseTemperatureData(lines: seq<string>, csvParse: seq<string> -> seq<CsvRow>, parseFloat: string -> real)
    returns (points: Option<seq<Point>>)
    requires |lines| > 0
    ensures csvParse(CleanLines(lines)) == [] ==> points == None
    ensures var rows := csvParse(CleanLines(lines));
      rows != [] ==> points == Some(PointsOf(rows, rows[0].year, parseFloat))
  {
    var rows := csvParse(CleanLines(lines));
    if rows == [] {
      return None;
    }
    var startYear := rows[0].year;
    var acc: seq<Point> := [];
    var i := 0;
    while i < |rows|
      invariant 0 <= i <= |rows|
      invariant acc == PointsOf(rows[..i], startYear, parseFloat)
    {
      var row := rows[i];
      var k := 0;
      var before := acc;
      while k < 12
        invariant 0 <= k <= 12
        invariant acc == before + RowPoints(row, startYear, parseFloat, k)
      {
        if Months[k] in row.cells && row.cells[Months[k]] != "" && row.cells[Months[k]] != "***" {
          acc := acc + [PointAt(row, k, startYear, parseFloat)];
        }
        k := k + 1;
      }
      assert rows[..i + 1][..i] == rows[..i];
      i := i + 1;
    }
    assert rows[..|rows|] == rows;
    return Some(acc);
  }

  lemma {:induction false} RowPointsSound(row: CsvRow, startYear: int, parseFloat: string -> real, k: nat)
    requires k <= 12
    ensures forall p :: p in RowPoints(row, startYear, parseFloat, k) ==>
      0 <= p.monthIndex < k && Present(row, p.monthIndex) && p == PointAt(row, p.monthIndex, startYear, parseFloat)
  {
    if k > 0 {
      RowPointsSound(row, startYear, parseFloat, k - 1);
    }
  }

  lemma {:induction false} RowPointsComplete(row: CsvRow, startYear: int, parseFloat: string -> real, k: nat)
    requires k <= 12
    ensures forall m :: 0 <= m < k && Present(row, m) ==> PointAt(row, m, startYear, parseFloat) in RowPoints(row, startYear, parseFloat, k)
  {
    if k > 0 {
      RowPointsComplete(row, startYear, parseFloat, k - 1);
    }
  }

  ghost predicate IncreasingT(s: seq<Point>)
  {
    forall a, b :: 0 <= a < b < |s| ==> s[a].t < s[b].t
  }

  /** Two runs in increasing t, the first wholly below `bound` and the second
      wholly at or above it, join into one run in increasing t. */
  lemma JoinInOrder(front: seq<Point>, back: seq<Point>, bound: int)
    requires IncreasingT(front) && IncreasingT(back)
    requires forall a :: 0 <= a < |front| ==> front[a].t < bound
    requires forall b :: 0 <= b < |back| ==> bound <= back[b].t
    ensures IncreasingT(front + back)
  {
    var r := front + back;
    forall a, b | 0 <= a < b < |r| ensures r[a].t < r[b].t {
      if b < |front| {
        assert r[a] == front[a] && r[b] == front[b];
      } else if a < |front| {
        assert r[a] == front[a] && r[b] == back[b - |front|];
      } else {
        assert r[a] == back[a - |front|] && r[b] == back[b - |front|];
      }
    }
  }

  lemma {:induction false} RowPointsInOrder(row: CsvRow, startYear: int, parseFloat: string -> real, k: nat)
    requires k <= 12
    ensures IncreasingT(RowPoints(row, startYear, parseFloat, k))
  {
    if k > 0 {
      RowPointsInOrder(row, startYear, parseFloat, k - 1);
      RowPointsSound(row, startYear, parseFloat, k - 1);
      var r := RowPoints(row, startYear, parseFloat, k - 1);
      var bound := (row.year - startYear) * 12 + k - 1;
      forall a | 0 <= a < |r|
        ensures r[a].t < bound
      {
        assert r[a] in r;
      }
      var last := if Present(row, k - 1) then [PointAt(row, k - 1, startYear, parseFloat)] else [];
      JoinInOrder(r, last, bound);
    }
  }

  /** Every point comes from a non-blank month cell of some row, with the month,
      index and t that cell gives it. */
  lemma {:induction false} PointsOfSound(rows: seq<CsvRow>, startYear: int, parseFloat: string -> real)
    ensures forall p :: p in PointsOf(rows, startYear, parseFloat) ==>
      WellFormed(p, startYear)
      && exists i :: 0 <= i < |rows| && Present(rows[i], p.monthIndex) && p == PointAt(rows[i], p.monthIndex, startYear, parseFloat)
  {
    if rows != [] {
      var n := |rows| - 1;
      PointsOfSound(rows[..n], startYear, parseFloat);
      RowPointsSound(rows[n], startYear, parseFloat, 12);
      forall p | p in PointsOf(rows, startYear, parseFloat)
        ensures WellFormed(p, startYear)
        ensures exists i :: 0 <= i < |rows| && Present(rows[i], p.monthIndex) && p == PointAt(rows[i], p.monthIndex, startYear, parseFloat)
      {
        if p in PointsOf(rows[..n], startYear, parseFloat) {
          var i :| 0 <= i < n && Present(rows[..n][i], p.monthIndex) && p == PointAt(rows[..n][i], p.monthIndex, startYear, parseFloat);
          assert rows[..n][i] == rows[i];
        } else {
          assert Present(rows[n], p.monthIndex);
        }
      }
    }
  }

  /** Every non-blank month cell of every row yields its point. */
  lemma {:induction false} PointsOfComplete(rows: seq<CsvRow>, startYear: int, parseFloat: string -> real)
    ensures forall i, k :: 0 <= i < |rows| && 0 <= k < 12 && Present(rows[i], k) ==>
      PointAt(rows[i], k, startYear, parseFloat) in PointsOf(rows, startYear, parseFloat)
  {
    if rows != [] {
      var n := |rows| - 1;
      PointsOfComplete(rows[..n], startYear, parseFloat);
      RowPointsComplete(rows[n], startYear, parseFloat, 12);
      forall i, k | 0 <= i < |rows| && 0 <= k < 12 && Present(rows[i], k)
        ensures PointAt(rows[i], k, startYear, parseFloat) in PointsOf(rows, startYear, parseFloat)
      {
        if i < n {
          assert rows[..n][i] == rows[i];
        }
      }
    }
  }

  ghost predicate YearsIncrease(rows: seq<CsvRow>)
  {
    forall i, j :: 0 <= i < j < |rows| ==> rows[i].year < rows[j].year
  }

  /** Rows in increasing year order give points in strictly increasing t order. */
  lemma {:induction false} PointsOfInOrder(rows: seq<CsvRow>, startYear: int, parseFloat: string -> real)
    requires YearsIncrease(rows)
    ensures IncreasingT(PointsOf(rows, startYear, parseFloat))
  {
    if rows != [] {
      var n := |rows| - 1;
      var front := PointsOf(rows[..n], startYear, parseFloat);
      var back := RowPoints(rows[n], startYear, parseFloat, 12);
      PointsOfInOrder(rows[..n], startYear, parseFloat);
      PointsOfSound(rows[..n], startYear, parseFloat);
      RowPointsInOrder(rows[n], startYear, parseFloat, 12);
      RowPointsSound(rows[n], startYear, parseFloat, 12);
      forall a | 0 <= a < |front|
        ensures front[a].t < (rows[n].year - startYear) * 12
      {
        var p := front[a];
        assert p in front;
        var i :| 0 <= i < n && Present(rows[..n][i], p.monthIndex) && p == PointAt(rows[..n][i], p.monthIndex, startYear, parseFloat);
        assert rows[..n][i] == rows[i];
      }
      forall b | 0 <= b < |back|
        ensures (rows[n].year - startYear) * 12 <= back[b].t
      {
        assert back[b] in back;
      }
      JoinInOrder(front, back, (rows[n].year - startYear) * 12);
    }
  }

  /** Sort key of `.sort((a, b) => a.t - b.t)`. */
  function ByT(p: Point): real
  {
    p.t as real
  }

  /** For a file in year order, loadData's sort by t leaves the parsed points as they are. */
  lemma ParsedInYearOrderNeedsNoSort(rows: seq<CsvRow>, startYear: int, parseFloat: string -> real)
    requires YearsIncrease(rows)
    ensures SortBy(PointsOf(rows, startYear, parseFloat), ByT) == PointsOf(rows, startYear, parseFloat)
  {
    var ps := PointsOf(rows, startYear, parseFloat);
    PointsOfInOrder(rows, startYear, parseFloat);
    assert SortedBy(ps, ByT) by {
      forall i, j | 0 <= i < j < |ps| ensures ByT(ps[i]) <= ByT(ps[j]) {
        assert ps[i].t < ps[j].t;
      }
    }
    SortByOfSorted(PointsOf(rows, startYear, parseFloat), ByT);
  }

  /** Of two well-formed points, the one with the smaller t is not in a later year. */
  lemma YearFollowsT(p: Point, q: Point, startYear: int)
    requires WellFormed(p, startYear) && WellFormed(q, startYear) && p.t <= q.t
    ensures p.year <= q.year
  {
  }

  /** render's cutoff: the last month of targetYear, but not past the data. */
  function Cutoff(maxT: int, startYear: int, targetYear: int): (c: int)
    ensures c <= maxT && c <= (targetYear - startYear) * 12 + 11
    ensures c == maxT || c == (targetYear - startYear) * 12 + 11
  {
    Min(maxT, (targetYear - startYear) * 12 + 11)
  }

  /** Array.prototype.filter keeping the points with t <= cutoff. */
  function Filter(s: seq<Point>, cutoff: int): (r: seq<Point>)
    ensures |r| <= |s|
    ensures forall p :: p in r <==> p in s && p.t <= cutoff
  {
    if s == [] then []
    else (if s[0].t <= cutoff then [s[0]] else []) + Filter(s[1..], cutoff)
  }

  /** On points sorted by t, the filter keeps a prefix and drops the rest. */
  lemma {:induction false} FilterOfSortedIsPrefix(s: seq<Point>, cutoff: int)
    requires SortedBy(s, ByT)
    ensures Filter(s, cutoff) == s[..|Filter(s, cutoff)|]
    ensures forall i :: |Filter(s, cutoff)| <= i < |s| ==> s[i].t > cutoff
  {
    if s != [] {
      assert SortedBy(s[1..], ByT) by {
        forall i, j | 0 <= i < j < |s[1..]| ensures ByT(s[1..][i]) <= ByT(s[1..][j]) {
          assert s[1..][i] == s[i + 1] && s[1..][j] == s[j + 1];
        }
      }
      FilterOfSortedIsPrefix(s[1..], cutoff);
      if s[0].t > cutoff {
        forall i | 0 <= i < |s| ensures s[i].t > cutoff {
          if i > 0 {
            assert ByT(s[0]) <= ByT(s[i]);
          }
        }
      }
    }
  }

  /** The spiral drawn for targetYear holds exactly the loaded points of the
      years up to targetYear (none past maxT). This needs render's start year
      to be the year the t values count from, as it is whenever the first
      data row has a month (see RenderFromLaterStartHidesTargetYear). */
  lemma RenderShowsYearsUpTo(points: seq<Point>, startYear: int, maxT: int, targetYear: int, p: Point)
    requires forall q :: q in points ==> WellFormed(q, startYear)
    ensures p in Filter(points, Cutoff(maxT, startYear, targetYear)) <==>
      p in points && p.t <= maxT && p.year <= targetYear
  {
  }

  /** parseTemperatureData counts t from the first row's year, but loadData
      takes the start year from the first point. When the first row has no
      month, that is one year later, and the cut-off render computes from it
      then leaves out every point of the target year itself. */
  lemma RenderFromLaterStartHidesTargetYear(points: seq<Point>, base: int, maxT: int, targetYear: int)
    requires forall q :: q in points ==> WellFormed(q, base)
    ensures forall q :: q in points && q.year == targetYear ==> q !in Filter(points, Cutoff(maxT, base + 1, targetYear))
  {
  }

  /** d3.pairs: each point joined to the next one. */
  function Pairs(s: seq<Point>): (r: seq<(Point, Point)>)
    ensures |r| == if s == [] then 0 else |s| - 1
    ensures forall i :: 0 <= i < |r| ==> r[i] == (s[i], s[i + 1])
  {
    if |s| < 2 then [] else [(s[0], s[1])] + Pairs(s[1..])
  }

  /** The segments form one chain: each starts where the previous one ends. */
  lemma PairsChain(s: seq<Point>)
    ensures forall i :: 0 < i < |Pairs(s)| ==> Pairs(s)[i].0 == Pairs(s)[i - 1].1
  {
  }

  /** formatTemperature: a "+" sign only for values above zero (toFixed(2) gives
      the digits, and a minus sign of its own for values below zero). */
  datatype Shown = Shown(sign: string, amount: real, digits: nat, unit: string)

  function FormatTemperature(v: real): (s: Shown)
    ensures s.sign == "+" <==> v > 0.0
    ensures s.sign == "" || s.sign == "+"
    ensures s.amount == v && s.digits == 2 && s.unit == "°C"
  {
    Shown(if v > 0.0 then "+" else "", v, 2, "°C")
  }

  /** Length of one autoplay run through the years, in milliseconds. */
  const AutoplayDuration: real := 10000.0

  /** The year an autoplay run from `from` over `total` years shows after
      `elapsed` milliseconds: it moves from the first year to the last and stays
      there once the duration is over. */
  function AutoplayYear(from: int, total: int, elapsed: real): (y: int)
    requires 0 < total && 0.0 <= elapsed
    ensures from <= y <= from + total
    ensures elapsed == 0.0 ==> y == from
    ensures elapsed >= AutoplayDuration ==> y == from + total
  {
    var progress := MinReal(1.0, elapsed / AutoplayDuration);
    assert 0.0 <= total as real * progress <= total as real;
    RoundWithin(from as real + total as real * progress, from, from + total);
    Round(from as real + total as real * progress)
  }

  /** Sorting the parsed points by t gives the loaded points: the same points,
      in t order, whose first and last fix the year range and maxT. */
  lemma LoadedBounds(rows: seq<CsvRow>, s: int, parseFloat: string -> real)
    ensures var sorted := SortBy(PointsOf(rows, s, parseFloat), ByT);
      && SortedBy(sorted, ByT) && multiset(sorted) == multiset(PointsOf(rows, s, parseFloat))
      && (sorted != [] ==> sorted[0].year <= sorted[|sorted| - 1].year)
      && forall p :: p in sorted ==> p.t <= sorted[|sorted| - 1].t
  {
    var parsed := PointsOf(rows, s, parseFloat);
    var sorted := SortBy(parsed, ByT);
    SortByIsSortedPermutation(parsed, ByT);
    if sorted != [] {
      PointsOfSound(rows, s, parseFloat);
      forall p | p in sorted
        ensures WellFormed(p, s)
      {
        assert p in multiset(parsed);
      }
      SortedEnds(sorted, s);
    }
  }

  /** In points sorted by t the last point has the largest t, and the first
      point's year is at most the last point's. */
  lemma SortedEnds(sorted: seq<Point>, s: int)
    requires sorted != [] && SortedBy(sorted, ByT)
    requires forall p :: p in sorted ==> WellFormed(p, s)
    ensures sorted[0].year <= sorted[|sorted| - 1].year
    ensures forall p :: p in sorted ==> p.t <= sorted[|sorted| - 1].t
  {
    var last := |sorted| - 1;
    forall p | p in sorted
      ensures p.t <= sorted[last].t
    {
      var i :| 0 <= i < |sorted| && sorted[i] == p;
      if i < last {
        assert ByT(sorted[i]) <= ByT(sorted[last]);
      }
    }
    YearFollowsT(sorted[0], sorted[last], s);
  }

  /** The first step of loadData's callback: the parsed points sorted by t
      (None when parsing throws). */
  method LoadPoints(lines: seq<string>, csvParse: seq<string> -> seq<CsvRow>, parseFloat: string -> real)
    returns (loaded: Option<seq<Point>>)
    requires |lines| > 0
    ensures csvParse(CleanLines(lines)) == [] <==> loaded == None
    ensures loaded.Some? ==>
      var rows := csvParse(CleanLines(lines));
      var ps := loaded.value;
      && multiset(ps) == multiset(PointsOf(rows, rows[0].year, parseFloat))
      && SortedBy(ps, ByT)
      && (ps != [] ==> ps[0].year <= ps[|ps| - 1].year && forall p :: p in ps ==> p.t <= ps[|ps| - 1].t)
  {
    var parsed := ParseTemperatureData(lines, csvParse, parseFloat);
    if parsed.None? {
      return None;
    }
    var rows := csvParse(CleanLines(lines));
    LoadedBounds(rows, rows[0].year, parseFloat);
    return Some(SortBy(parsed.value, ByT));
  }

  class SpiralGraph {
    var points: seq<Point>
    var startYear: int
    var endYear: int
    var maxT: int
    var currentYear: Option<int>
    var isScrubbing: bool
    var autoplayTimer: Timer?
    /** What the running timer's callback closed over: startFrom, totalYears, startTime. */
    var autoplayFrom: int
    var autoplayTotal: int
    var autoplayStart: real

    /** Points are sorted by t; once loaded, the first and last point fix the
        year range and maxT, and the current year lies in that range. */
    ghost predicate Loaded()
      reads this
    {
      && SortedBy(points, ByT)
      && (points != [] ==>
            && startYear == points[0].year && endYear == points[|points| - 1].year
            && maxT == points[|points| - 1].t && startYear <= endYear
            && currentYear.Some? && startYear <= currentYear.value <= endYear)
    }

    /** A live timer is running and plays from a year of the data to its last year. */
    ghost predicate Timing()
      reads this, autoplayTimer
    {
      autoplayTimer != null ==>
        && autoplayTimer.running
        && points != [] && startYear <= autoplayFrom && 0 < autoplayTotal
        && autoplayFrom + autoplayTotal == endYear
    }

    ghost predicate Valid()
      reads this, autoplayTimer
    {
      Loaded() && Timing()
    }

    constructor ()
      ensures Valid()
      ensures points == [] && currentYear == None && !isScrubbing && autoplayTimer == null
    {
      points := [];
      currentYear := None;
      isScrubbing := false;
      autoplayTimer := null;
    }

    /** loadData's callback, given the fetched text as lines and the time it runs. */
    method LoadData(lines: seq<string>, csvParse: seq<string> -> seq<CsvRow>, parseFloat: string -> real, now: real)
      requires |lines| > 0
      requires Valid() && points == [] && autoplayTimer == null
      modifies this`points, this`startYear, this`endYear, this`maxT, this`currentYear
      modifies this`autoplayTimer, this`autoplayFrom, this`autoplayTotal, this`autoplayStart
      ensures Valid()
      ensures var rows := csvParse(CleanLines(lines));
        rows != [] ==> multiset(points) == multiset(PointsOf(rows, rows[0].year, parseFloat))
      ensures points != [] ==>
        && (forall p :: p in points ==> p.t <= maxT)
        && currentYear == Some(startYear)
        && (startYear < endYear <==> autoplayTimer != null)
        && (autoplayTimer != null ==> fresh(autoplayTimer) && autoplayFrom == startYear && autoplayStart == now)
      ensures points == [] ==> autoplayTimer == null && currentYear == old(currentYear)
    {
      var loaded := LoadPoints(lines, csvParse, parseFloat);
      // Parsing threw, or `points[0].year` throws on no points: points stays empty.
      if loaded.None? || loaded.value == [] {
        return;
      }
      Install(loaded.value);
      StartAutoplay(startYear, now);
    }

    /** The first half of loadData's callback once the points are sorted: the
        year range and maxT from the first and last point, and the spiral drawn
        for the first year. */
    method Install(sorted: seq<Point>)
      requires sorted != [] && SortedBy(sorted, ByT) && sorted[0].year <= sorted[|sorted| - 1].year
      requires forall p :: p in sorted ==> p.t <= sorted[|sorted| - 1].t
      requires autoplayTimer == null
      modifies this`points, this`startYear, this`endYear, this`maxT, this`currentYear
      ensures Valid() && points == sorted && currentYear == Some(startYear)
      ensures forall p :: p in points ==> p.t <= maxT
      ensures startYear == sorted[0].year && endYear == sorted[|sorted| - 1].year && maxT == sorted[|sorted| - 1].t
    {
      points := sorted;
      var last := |points| - 1;
      startYear := points[0].year;
      endYear := points[last].year;
      maxT := points[last].t;
      SyncToYear(startYear);
    }

    /** syncToYear: the year becomes current. The redraw keeps no state outside
        the page: what it draws is `Filter(points, Cutoff(maxT, startYear, y))`
        joined by `Pairs`, for y the current year. */
    method SyncToYear(targetYear: int)
      modifies this`currentYear
      ensures currentYear == Some(targetYear)
    {
      currentYear := Some(targetYear);
    }

    /** stopAutoplay: a live timer is stopped and forgotten. */
    method StopAutoplay()
      modifies this`autoplayTimer, autoplayTimer
      ensures autoplayTimer == null
      ensures old(autoplayTimer) != null ==> !old(autoplayTimer).running
    {
      if autoplayTimer != null {
        autoplayTimer.Stop();
        autoplayTimer := null;
      }
    }

    /** startAutoplay: play from fromYear, clamped into the data's years, to the
        last year; with no year left to play, nothing changes at all (a running
        timer keeps running). */
    method StartAutoplay(fromYear: int, now: real)
      requires Valid() && points != []
      modifies this`autoplayTimer, this`autoplayFrom, this`autoplayTotal, this`autoplayStart, autoplayTimer
      ensures Valid()
      ensures fromYear < endYear && startYear < endYear ==>
        && fresh(autoplayTimer) && autoplayStart == now
        && (old(autoplayTimer) != null ==> !old(autoplayTimer).running)
        && (startYear <= fromYear ==> autoplayFrom == fromYear)
        && (fromYear < startYear ==> autoplayFrom == startYear)
      ensures endYear <= fromYear || startYear == endYear ==>
        autoplayTimer == old(autoplayTimer) && autoplayFrom == old(autoplayFrom) && autoplayStart == old(autoplayStart)
    {
      var startFrom := Max(startYear, Min(endYear, fromYear));
      var totalYears := endYear - startFrom;
      if totalYears <= 0 {
        return;
      }
      StopAutoplay();
      autoplayTimer := new Timer.Start();
      autoplayFrom := startFrom;
      autoplayTotal := totalYears;
      autoplayStart := now;
    }

    /** One call of the autoplay timer's callback at time `now`: skipped while
        scrubbing; otherwise the year reached so far is shown, and the timer is
        stopped once the full duration has passed. */
    method AutoplayFrame(now: real)
      requires Valid() && autoplayTimer != null && autoplayStart <= now
      modifies this`currentYear, this`autoplayTimer, autoplayTimer
      ensures Valid()
      ensures old(isScrubbing) ==> currentYear == old(currentYear) && autoplayTimer == old(autoplayTimer)
      ensures !old(isScrubbing) ==>
        && currentYear == Some(AutoplayYear(autoplayFrom, autoplayTotal, now - autoplayStart))
        && autoplayFrom <= currentYear.value <= endYear
        && (now - autoplayStart >= AutoplayDuration ==> currentYear == Some(endYear) && autoplayTimer == null)
        && (now - autoplayStart < AutoplayDuration ==> autoplayTimer == old(autoplayTimer))
    {
      if isScrubbing {
        return;
      }
      var elapsed := now - autoplayStart;
      var target := AutoplayYear(autoplayFrom, autoplayTotal, elapsed);
      if Some(target) != currentYear {
        SyncToYear(target);
      }
      if elapsed >= AutoplayDuration {
        StopAutoplay();
      }
    }

    /** handleScrub, with the pointer already converted to a year by the
        timeline scale: clamped to the data's years, then rounded. */
    method Scrub(pointerYear: real)
      requires Valid() && points != []
      modifies this`currentYear
      ensures Valid()
      ensures startYear <= currentYear.value <= endYear
      ensures startYear as real <= pointerYear <= endYear as real ==> currentYear == Some(Round(pointerYear))
      ensures pointerYear < startYear as real ==> currentYear == Some(startYear)
      ensures endYear as real < pointerYear ==> currentYear == Some(endYear)
    {
      var clamped := MaxReal(startYear as real, MinReal(endYear as real, pointerYear));
      RoundWithin(clamped, startYear, endYear);
      SyncToYear(Round(clamped));
    }

    /** Drag start on the timeline: scrubbing begins and autoplay stops. */
    method DragStart(pointerYear: real)
      requires Valid() && points != []
      modifies this`isScrubbing, this`currentYear, this`autoplayTimer, autoplayTimer
      ensures Valid()
      ensures isScrubbing && autoplayTimer == null
      ensures old(autoplayTimer) != null ==> !old(autoplayTimer).running
      ensures startYear <= currentYear.value <= endYear
      ensures startYear as real <= pointerYear <= endYear as real ==> currentYear == Some(Round(pointerYear))
      ensures pointerYear < startYear as real ==> currentYear == Some(startYear)
      ensures endYear as real < pointerYear ==> currentYear == Some(endYear)
    {
      isScrubbing := true;
      StopAutoplay();
      Scrub(pointerYear);
    }

    method Drag(pointerYear: real)
      requires Valid() && points != []
      modifies this`currentYear
      ensures Valid()
      ensures startYear <= currentYear.value <= endYear
      ensures startYear as real <= pointerYear <= endYear as real ==> currentYear == Some(Round(pointerYear))
      ensures pointerYear < startYear as real ==> currentYear == Some(startYear)
      ensures endYear as real < pointerYear ==> currentYear == Some(endYear)
    {
      Scrub(pointerYear);
    }

    /** Drag end: scrubbing stops and autoplay resumes from the scrubbed year. */
    method DragEnd(now: real)
      requires Valid() && points != []
      modifies this`isScrubbing, this`autoplayTimer, this`autoplayFrom, this`autoplayTotal, this`autoplayStart, autoplayTimer
      ensures Valid()
      ensures !isScrubbing
      ensures currentYear.value < endYear ==> fresh(autoplayTimer) && autoplayFrom == currentYear.value
      ensures currentYear.value == endYear ==> autoplayTimer == old(autoplayTimer)
    {
      isScrubbing := false;
      StartAutoplay(currentYear.value, now);
    }
  }
}
