/** The deforestation globe: CSV rows grouped into regions, each region's
    forest loss, the popup for a selected region, and the rotation state
    (paused or turning, which timer turns it). */
module Globe {
  import opened Common
  import opened Sorting

  const Width: real := 600.0
  const Height: real := 600.0

  /** One row of deforestation.csv, numbers already converted. */
  datatype RawRow = RawRow(region: string, lat: real, lon: real, year: int, forestCover: real, birdSpecies: real)

  datatype Sample = Sample(year: int, forestCover: real, birdSpecies: real)

  /** A region record; `forestLoss` is None until loadData's second pass sets it. */
  datatype Region = Region(name: string, lat: real, lon: real, timeSeries: seq<Sample>, forestLoss: Option<real>)

  function SampleOf(r: RawRow): Sample
  {
    Sample(r.year, r.forestCover, r.birdSpecies)
  }

  /** The keys of d3.group: each region once, in order of first appearance. */
  function Regions(rows: seq<RawRow>): seq<string>
  {
    if rows == [] then []
    else
      var prev := Regions(rows[..|rows| - 1]);
      if rows[|rows| - 1].region in prev then prev else prev + [rows[|rows| - 1].region]
  }

  /** The rows of one region, in row order, as samples. */
  function SeriesOf(rows: seq<RawRow>, name: string): seq<Sample>
  {
    if rows == [] then []
    else SeriesOf(rows[..|rows| - 1], name) + (if rows[|rows| - 1].region == name then [SampleOf(rows[|rows| - 1])] else [])
  }

  /** `values[0]`: the first row of a region. */
  function FirstRowOf(rows: seq<RawRow>, name: string): RawRow
    requires name in Regions(rows)
  {
    var prefix := rows[..|rows| - 1];
    if name in Regions(prefix) then FirstRowOf(prefix, name) else rows[|rows| - 1]
  }

  /** `Array.from(d3.group(rows, d => d.region), ...)`: one record per region. */
  function GroupByRegion(rows: seq<RawRow>): (groups: seq<Region>)
    ensures |groups| == |Regions(rows)|
    ensures forall k :: 0 <= k < |groups| ==> |groups[k].timeSeries| > 0
  {
    var names := Regions(rows);
    SeriesNeverEmpty(rows);
    seq(|names|, k requires 0 <= k < |names| =>
      Region(names[k], FirstRowOf(rows, names[k]).lat, FirstRowOf(rows, names[k]).lon, SeriesOf(rows, names[k]), None))
  }

  /** The regions are exactly the regions of the rows, each once. */
  lemma {:induction false} RegionsAreDistinctRowRegions(rows: seq<RawRow>)
    ensures forall n :: n in Regions(rows) <==> exists i :: 0 <= i < |rows| && rows[i].region == n
    ensures NoDuplicates(Regions(rows))
  {
    if rows != [] {
      var n := |rows| - 1;
      RegionsAreDistinctRowRegions(rows[..n]);
      forall m ensures m in Regions(rows) <==> exists i :: 0 <= i < |rows| && rows[i].region == m {
        if m in Regions(rows[..n]) {
          var i :| 0 <= i < n && rows[..n][i].region == m;
          assert rows[i].region == m;
        }
        if exists i :: 0 <= i < |rows| && rows[i].region == m {
          var i :| 0 <= i < |rows| && rows[i].region == m;
          if i < n {
            assert rows[..n][i].region == m;
          }
        }
      }
    }
  }

  /** First-appearance order: the regions of any prefix of the rows are a
      prefix of the regions, so a region keeps the place it got when first seen. */
  lemma {:induction false} RegionsGrowAtTheEnd(rows: seq<RawRow>, k: nat)
    requires k <= |rows|
    ensures Regions(rows[..k]) <= Regions(rows)
  {
    if k < |rows| {
      var n := |rows| - 1;
      assert rows[..n][..k] == rows[..k];
      RegionsGrowAtTheEnd(rows[..n], k);
    } else {
      assert rows[..k] == rows;
    }
  }

  /** Every row lands in its region's series, and a series holds only rows of its region. */
  lemma {:induction false} SeriesHoldsTheRegionsRows(rows: seq<RawRow>, name: string)
    ensures forall i :: 0 <= i < |rows| && rows[i].region == name ==> SampleOf(rows[i]) in SeriesOf(rows, name)
    ensures forall s :: s in SeriesOf(rows, name) ==> exists i :: 0 <= i < |rows| && rows[i].region == name && SampleOf(rows[i]) == s
  {
    if rows != [] {
      var n := |rows| - 1;
      SeriesHoldsTheRegionsRows(rows[..n], name);
      forall i | 0 <= i < n && rows[i].region == name
        ensures SampleOf(rows[i]) in SeriesOf(rows, name)
      {
        assert rows[..n][i] == rows[i];
      }
      forall s | s in SeriesOf(rows, name)
        ensures exists i :: 0 <= i < |rows| && rows[i].region == name && SampleOf(rows[i]) == s
      {
        if s in SeriesOf(rows[..n], name) {
          var i :| 0 <= i < n && rows[..n][i].region == name && SampleOf(rows[..n][i]) == s;
          assert rows[i] == rows[..n][i];
        }
      }
    }
  }

  /** A region's series is never empty and starts with its first row, the
      row that also gives the record its lat/lon. */
  lemma {:induction false} SeriesStartsWithFirstRow(rows: seq<RawRow>, name: string)
    requires name in Regions(rows)
    ensures |SeriesOf(rows, name)| > 0
    ensures SeriesOf(rows, name)[0] == SampleOf(FirstRowOf(rows, name))
    ensures FirstRowOf(rows, name).region == name
  {
    var n := |rows| - 1;
    if name in Regions(rows[..n]) {
      SeriesStartsWithFirstRow(rows[..n], name);
    } else {
      SeriesEmptyUnseen(rows[..n], name);
    }
  }

  lemma SeriesNeverEmpty(rows: seq<RawRow>)
    ensures forall n :: n in Regions(rows) ==> |SeriesOf(rows, n)| > 0
  {
    forall n | n in Regions(rows)
      ensures |SeriesOf(rows, n)| > 0
    {
      SeriesStartsWithFirstRow(rows, n);
    }
  }

  lemma {:induction false} SeriesEmptyUnseen(rows: seq<RawRow>, name: string)
    requires name !in Regions(rows)
    ensures SeriesOf(rows, name) == []
  {
    if rows != [] {
      var n := |rows| - 1;
      SeriesEmptyUnseen(rows[..n], name);
    }
  }

  /** What the grouping gives: one record per distinct region in first-seen
      order (see RegionsGrowAtTheEnd), and a record for the region of every row. */
  lemma GroupedRegions(rows: seq<RawRow>)
    ensures var groups := GroupByRegion(rows);
      && (forall a, b :: 0 <= a < b < |groups| ==> groups[a].name != groups[b].name)
      && (forall i :: 0 <= i < |rows| ==> exists k :: 0 <= k < |groups| && groups[k].name == rows[i].region)
  {
    var groups := GroupByRegion(rows);
    var names := Regions(rows);
    RegionsAreDistinctRowRegions(rows);
    forall i | 0 <= i < |rows|
      ensures exists k :: 0 <= k < |groups| && groups[k].name == rows[i].region
    {
      assert exists j :: 0 <= j < |rows| && rows[j].region == rows[i].region;
      assert rows[i].region in names;
      var k :| 0 <= k < |names| && names[k] == rows[i].region;
      assert groups[k].name == rows[i].region;
    }
  }

  /** Each record holds its region's rows in order, starting with the
      region's first row, which also gives the record its lat/lon. */
  lemma GroupStartsAtFirstRow(rows: seq<RawRow>, k: int)
    requires 0 <= k < |GroupByRegion(rows)|
    ensures var g := GroupByRegion(rows)[k];
      && g.timeSeries == SeriesOf(rows, g.name)
      && exists i :: 0 <= i < |rows| && rows[i].region == g.name
           && g.lat == rows[i].lat && g.lon == rows[i].lon
           && g.timeSeries[0] == SampleOf(rows[i])
           && forall j :: 0 <= j < i ==> rows[j].region != g.name
  {
    var name := Regions(rows)[k];
    SeriesStartsWithFirstRow(rows, name);
    var i := FirstIndex(rows, name);
    assert rows[i] == FirstRowOf(rows, name);
  }

  /** The position of a region's first row. */
  function FirstIndex(rows: seq<RawRow>, name: string): (i: nat)
    requires name in Regions(rows)
    ensures i < |rows| && rows[i] == FirstRowOf(rows, name)
    ensures forall j :: 0 <= j < i ==> rows[j].region != name
  {
    var n := |rows| - 1;
    if name in Regions(rows[..n]) then
      var i := FirstIndex(rows[..n], name);
      assert rows[..n][i] == rows[i];
      assert forall j :: 0 <= j < i ==> rows[..n][j] == rows[j];
      i
    else
      RegionsAreDistinctRowRegions(rows[..n]);
      assert forall j :: 0 <= j < n ==> rows[..n][j] == rows[j];
      n
  }

  /** forestLoss of a record: the first forest cover minus the latest. */
  function ForestLoss(series: seq<Sample>): (loss: real)
    requires |series| > 0
    ensures loss > 0.0 <==> series[|series| - 1].forestCover < series[0].forestCover
    ensures loss == 0.0 <==> series[|series| - 1].forestCover == series[0].forestCover
    ensures |series| == 1 ==> loss == 0.0
  {
    series[0].forestCover - series[|series| - 1].forestCover
  }

  /** selectRegion's bird loss, Math.round((1 - latest / first) * 100) in percent;
      None where the first count is zero (the division gives no number). */
  function BirdLoss(series: seq<Sample>): (loss: Option<int>)
    requires |series| > 0
    ensures loss.None? <==> series[0].birdSpecies == 0.0
    ensures loss.Some? && series[|series| - 1].birdSpecies == series[0].birdSpecies ==> loss.value == 0
    ensures (loss.Some? && series[0].birdSpecies > 0.0 && 0.0 <= series[|series| - 1].birdSpecies <= series[0].birdSpecies)
              ==> 0 <= loss.value <= 100
  {
    var first := series[0].birdSpecies;
    var latest := series[|series| - 1].birdSpecies;
    if first == 0.0 then None
    else
      var share := latest / first;
      if first > 0.0 && 0.0 <= latest <= first then
        RatioWithinOne(latest, first);
        RoundWithin((1.0 - share) * 100.0, 0, 100);
        Some(Round((1.0 - share) * 100.0))
      else
        assert latest == first ==> share == 1.0;
        Some(Round((1.0 - share) * 100.0))
  }

  lemma RatioWithinOne(part: real, whole: real)
    requires 0.0 < whole && 0.0 <= part <= whole
    ensures 0.0 <= part / whole <= 1.0
    ensures part == whole ==> part / whole == 1.0
  {
    var q := part / whole;
    assert q * whole == part;
  }

  /** selectRegion's popup placement next to the region's screen point (x, y):
      20px right and 100px up, flipped to the left when it would pass the right
      edge, moved below the point when too close to the top, and pulled up when
      it would pass the bottom. */
  function PopupPosition(x: real, y: real): (p: (real, real))
    ensures p.1 + 250.0 <= Height
    ensures x + 340.0 <= Width ==> p.0 == x + 20.0
    ensures x + 340.0 > Width ==> p.0 + 320.0 == x - 20.0
    ensures 110.0 <= y <= Height - 150.0 ==> p.1 == y - 100.0
  {
    var px := if x + 20.0 + 320.0 > Width then x - 340.0 else x + 20.0;
    var py0 := y - 100.0;
    var py1 := if py0 < 10.0 then y + 20.0 else py0;
    var py := if py1 + 250.0 > Height then Height - 260.0 else py1;
    (px, py)
  }

  /** For a point on the globe's disc (radius 280 around the centre) the popup
      also keeps 10px from the top, and never passes the right edge. */
  lemma PopupInsideForGlobePoints(x: real, y: real)
    requires 20.0 <= x <= 580.0 && 20.0 <= y <= 580.0
    ensures 10.0 <= PopupPosition(x, y).1
    ensures PopupPosition(x, y).0 + 320.0 <= Width
  {
  }

  /** The popup has no left-edge check: for a point at the centre it starts
      40px left of the container. */
  lemma PopupCanStartLeftOfContainer()
    ensures PopupPosition(300.0, 300.0).0 == -40.0
  {
  }

  class GlobeVis {
    var data: seq<Region>
    var selectedRegion: Option<string>
    var isPaused: bool
    var rotationTimer: Timer?
    /** The popup's position while it is visible. */
    var popup: Option<(real, real)>

    /** Paused means no rotation timer; a selected region means paused, and
        the popup is shown exactly while a region is selected; every record
        has a series. */
    ghost predicate Valid()
      reads this
    {
      && (isPaused ==> rotationTimer == null)
      && (selectedRegion.Some? ==> isPaused)
      && (popup.Some? <==> selectedRegion.Some?)
      && (forall k :: 0 <= k < |data| ==> |data[k].timeSeries| > 0)
    }

    constructor ()
      ensures Valid()
      ensures data == [] && selectedRegion == None && !isPaused && rotationTimer == null && popup == None
    {
      data := [];
      selectedRegion := None;
      isPaused := false;
      rotationTimer := null;
      popup := None;
    }

    /** loadData: group the rows, then set each record's forest loss. */
    method LoadData(rows: seq<RawRow>)
      requires Valid()
      modifies this`data
      ensures Valid()
      ensures |data| == |GroupByRegion(rows)|
      ensures forall k :: 0 <= k < |data| ==>
        var g := GroupByRegion(rows)[k];
        data[k] == g.(forestLoss := Some(ForestLoss(g.timeSeries)))
    {
      var groups := GroupByRegion(rows);
      var out := groups;
      for i := 0 to |out|
        invariant |out| == |groups|
        invariant forall k :: 0 <= k < i ==> out[k] == groups[k].(forestLoss := Some(ForestLoss(groups[k].timeSeries)))
        invariant forall k :: i <= k < |out| ==> out[k] == groups[k]
      {
        var r := out[i];
        var latest := r.timeSeries[|r.timeSeries| - 1];
        var first := r.timeSeries[0];
        out := out[i := r.(forestLoss := Some(first.forestCover - latest.forestCover))];
      }
      data := out;
    }

    /** init after the data: rotation starts (the map and drag wiring are page setup). */
    method Init(rows: seq<RawRow>)
      requires Valid() && !isPaused && rotationTimer == null
      modifies this`data, this`rotationTimer
      ensures Valid() && fresh(rotationTimer) && rotationTimer.running
      ensures |data| == |GroupByRegion(rows)|
      ensures forall k :: 0 <= k < |data| ==>
        var g := GroupByRegion(rows)[k];
        data[k] == g.(forestLoss := Some(ForestLoss(g.timeSeries)))
    {
      LoadData(rows);
      StartRotation();
    }

    /** startRotation: nothing while paused; otherwise a new timer, without
        stopping a timer already referenced. */
    method StartRotation()
      requires Valid()
      modifies this`rotationTimer
      ensures Valid()
      ensures old(isPaused) ==> rotationTimer == old(rotationTimer)
      ensures !old(isPaused) ==> fresh(rotationTimer) && rotationTimer.running
    {
      if isPaused {
        return;
      }
      rotationTimer := new Timer.Start();
    }

    /** stopRotation: a referenced timer is stopped and forgotten. */
    method StopRotation()
      requires Valid()
      modifies this`rotationTimer, rotationTimer
      ensures Valid() && rotationTimer == null
      ensures old(rotationTimer) != null ==> !old(rotationTimer).running
    {
      if rotationTimer != null {
        rotationTimer.Stop();
        rotationTimer := null;
      }
    }

    /** pause: the timer is stopped and forgotten, and the globe is paused. */
    method Pause()
      requires Valid()
      modifies this`rotationTimer, this`isPaused, rotationTimer
      ensures Valid() && isPaused && rotationTimer == null
      ensures old(rotationTimer) != null ==> !old(rotationTimer).running
    {
      if rotationTimer != null {
        rotationTimer.Stop();
        rotationTimer := null;
      }
      isPaused := true;
    }

    /** closePopup: the popup is hidden and no region is selected; a pause stays. */
    method ClosePopup()
      requires Valid()
      modifies this`popup, this`selectedRegion
      ensures Valid() && selectedRegion == None && popup == None
    {
      popup := None;
      selectedRegion := None;
    }

    /** resume: the popup is closed, the pause lifted, and rotation restarted. */
    method Resume()
      requires Valid()
      modifies this`popup, this`selectedRegion, this`isPaused, this`rotationTimer
      ensures Valid()
      ensures selectedRegion == None && popup == None && !isPaused
      ensures fresh(rotationTimer) && rotationTimer.running
    {
      ClosePopup();
      isPaused := false;
      StartRotation();
    }

    /** selectRegion for a hotspot's record `d`, drawn at screen point (x, y):
        the globe pauses, `d` becomes the selection, and the popup is placed
        by PopupPosition. Returns the stats the popup shows. */
    method SelectRegion(d: Region, x: real, y: real) returns (forestLoss: real, birdLoss: Option<int>)
      requires Valid() && d in data
      modifies this`rotationTimer, this`isPaused, this`selectedRegion, this`popup, rotationTimer
      ensures Valid() && isPaused && rotationTimer == null
      ensures selectedRegion == Some(d.name) && popup == Some(PopupPosition(x, y))
      ensures popup.value.1 + 250.0 <= Height
      ensures forestLoss == ForestLoss(d.timeSeries) && birdLoss == BirdLoss(d.timeSeries)
    {
      Pause();
      selectedRegion := Some(d.name);
      var latest := d.timeSeries[|d.timeSeries| - 1];
      var first := d.timeSeries[0];
      forestLoss := first.forestCover - latest.forestCover;
      birdLoss := BirdLoss(d.timeSeries);
      popup := Some(PopupPosition(x, y));
    }

    /** Drag start: the referenced timer is stopped but kept. */
    method DragStart()
      requires Valid()
      modifies rotationTimer
      ensures Valid()
      ensures rotationTimer != null ==> !rotationTimer.running
    {
      if rotationTimer != null {
        rotationTimer.Stop();
      }
    }

    /** Drag end: rotation restarts only when not paused. */
    method DragEnd()
      requires Valid()
      modifies this`rotationTimer
      ensures Valid()
      ensures isPaused ==> rotationTimer == old(rotationTimer) == null
      ensures !isPaused ==> fresh(rotationTimer) && rotationTimer.running
    {
      if !isPaused {
        StartRotation();
      }
    }
  }
}
