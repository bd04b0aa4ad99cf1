# The Trees — a verified model of the visualisations' logic

The Trees is a set of D3 visualisations about CO₂, warming and forests. Most of the code draws SVG. This project models the deterministic logic inside it and proves properties of that logic:

- **CO₂ bubble charts** (`js/balls.js` and its near-copy `js/country_spheres.js`, modelled once in `Co2Data` and `BubbleChart`):
  - the per-capita and total lookup tables built from the CSV rows;
  - the year frame (filtering, the five-year trend, ordering by value, ranks);
  - the keyed reconciliation of force-simulation nodes;
  - the play / slider / arrow-key year state;
  - the reset on a metric switch or a resize;
  - the label abbreviation.
- **Temperature spiral** (`js/spiral_graph.js`, module `Spiral`):
  - parsing the GISTEMP text into monthly points;
  - the render cut-off and the segment pairs;
  - the autoplay timer and timeline scrubbing.
- **Forest / bird-risk scene** (`js/forest_rli_viz.js`, module `ForestRli`):
  - the share, boundary, clip and gradient arithmetic;
  - year stepping.
- **Deforestation globe** (`js/globeVis.js`, module `Globe`):
  - grouping the rows by region and each region's forest loss;
  - bird loss and popup placement;
  - the pause / rotate / select state.

Shared pieces:
- `Common` holds `Option`, JavaScript's `Math.round` and a timer handle. A timer handle stands for `setInterval`, `d3.timer` or a d3 simulation's running flag.
- `Sorting` holds a stable insertion sort by a real key. `Array.prototype.sort` with a comparator is stable.

Design choices:
- State the source updates in place is a `class`: bubble nodes, the simulation, the chart's globals, the spiral, the forest viewer and the globe.
- Pure computations are functions.
- Loops of the source are methods proved against a function that specifies them. Examples are the table-building `forEach` loops, `getYearData`, node reconciliation, `parseTemperatureData`'s nested loops and the globe's `forestLoss` pass.
- Library calls whose internals are out of scope are parameters of the model: `d3.csvParse`, `Number.parseFloat`, the `d3.scalePow` radius scale, the risk scale and the force step.

## Model

| member | source | states |
|---|---|---|
| Common.Round | js/spiral_graph.js:446 | `Math.round`: the integer n with x − ½ < n ≤ x + ½ |
| Common.RoundWithin | js/spiral_graph.js:500 | rounding a value between two integers stays between them |
| Sorting.SortByIsSortedPermutation | js/balls.js:183 | the comparator sort yields a sequence ordered by the key that is a permutation of its input |
| Sorting.SortByIsStable | js/balls.js:183 | elements with equal keys come out in their input order, so equal values keep `Object.keys` order (js/balls.js:167) |
| Sorting.SortByOfSorted | js/spiral_graph.js:117 | sorting an already ordered sequence leaves it unchanged |
| Co2Data.LoadTables | js/balls.js:33-55 | the three load loops build exactly the geo map with continents, and the per-capita and total tables of their specifying folds; the sphere view's copy is js/country_spheres.js:446-452 |
| Co2Data.GeoOfKeys | js/balls.js:33-35 | the geo map has exactly the countries of the geo rows, all without continent |
| Co2Data.GeoOfLastRowWins | js/balls.js:33-35 | a country's geo entry is its last geo row's coordinates |
| Co2Data.WithContinentsKeepsEntries | js/balls.js:38-42 | attaching continents adds no country and keeps every coordinate; countries without continent rows are unchanged |
| Co2Data.WithContinentsLastRowWins | js/balls.js:38-42 | a known country's continent is that of its last continent row |
| Co2Data.TableOfSound | js/balls.js:45-55 | the tables hold only strictly positive values, only for countries already in the geo map, and the key order lists each table country exactly once |
| Co2Data.TableOfComplete | js/balls.js:45-55 | every qualifying row is in its table, and the last qualifying row for a country and year gives the stored value; the sphere view's copy is js/country_spheres.js:448-452 |
| Co2Data.TrendOf | js/balls.js:172-177 | up iff a positive five-years-earlier value exists and val > 1.05·prev; down iff val < 0.95·prev; stable otherwise; the sphere view's copy is js/country_spheres.js:147-152 |
| Co2Data.TrendMonotone | js/balls.js:172-177 | a larger value never gives a lower trend |
| Co2Data.Dimensions | js/balls.js:91-94 | the drawing width is at most 1360 and the height lies in [600, 850] |
| Co2Data.CollectedEntries | js/balls.js:167-182 | the collected entries are exactly the admitted countries (positive value, geo and continent present), each once with its trend and placement |
| Co2Data.CollectEntries | js/balls.js:166-182 | the `forEach` with `push` builds exactly the collected sequence |
| Co2Data.SortedFrame | js/balls.js:183 | after sorting, the frame has every admitted country once, in non-increasing value order |
| Co2Data.EntryFor | js/balls.js:168-180 | the pushed entry is the country's, carries its value, continent and five-year trend for the year, sits at the projected coordinates, and has no rank or radius yet; the sphere view's copy is js/country_spheres.js:144-153 |
| Co2Data.GetYearData | js/balls.js:164-186 | each entry is an admitted country's entry with rank = position + 1, and the result is a frame: all admitted countries once, by descending value; the sphere view's copy is js/country_spheres.js:139-158 |
| Co2Data.RankedFrame | js/balls.js:184 | numbering the sorted entries 1..n keeps the frame property |
| Co2Data.ShortNameUnlisted | js/balls.js:146 | an unlisted name of at most 9 characters is kept; a longer one becomes its first 8 characters plus `.`, 9 characters; the sphere view's copy is js/country_spheres.js:120 |
| Co2Data.AbbreviationsShorten | js/balls.js:132-145 | every table abbreviation is shorter than its name and at most 10 characters |
| Co2Data.ShortName | js/balls.js:131-147 | a label is never longer than the name and never above 10 characters; the sphere view's copy is js/country_spheres.js:107-121 |
| Co2Data.FormatVal | js/balls.js:114-120 | the printed amount times its unit's size is the value; a positive total is shown in Gt iff ≥ 1000 Mt and in kt iff < 1 Mt, which puts the amount in [1, 1000) below a million Mt; per capita is in t |
| Co2Data.FormatValShort | js/balls.js:122-129 | the printed amount times its unit's size is the value; a positive total is in G iff ≥ 1000 and in k iff < 1, with whole M from 100 up; per capita is in t |
| BubbleChart.Node.constructor | js/balls.js:231 | a new node carries the country, radius, value and target, and starts at its target |
| BubbleChart.Node.Retarget | js/balls.js:228 | an existing node gets the new r, val, tx, ty and keeps its x and y |
| BubbleChart.ForceSimulation.constructor | js/balls.js:204-211 | a new simulation over the nodes, alpha 1, running |
| BubbleChart.ForceSimulation.Reheat | js/balls.js:236-240 | new node list, alpha 0.6, running |
| BubbleChart.ForceSimulation.Stop | js/balls.js:426 | the simulation stops; nodes and alpha are unchanged |
| BubbleChart.ForceSimulation.Tick | js/balls.js:209 | a force step moves only the nodes' x and y; r, val, tx and ty are unchanged |
| BubbleChart.MaxVal | js/balls.js:192 | `d3.max`: an upper bound of the values that is one of them |
| BubbleChart.DomainMax | js/balls.js:192 | `d3.max` with 1 as the fallback: 1 for an empty frame, otherwise an upper bound of the values that one of them attains |
| BubbleChart.DomainMaxOfFrame | js/balls.js:192 | for a non-empty frame the radius domain's maximum is the first entry's value |
| BubbleChart.SizedFrame | js/balls.js:253 | setting radii keeps the frame and its maximum |
| BubbleChart.PlacedFrame | js/balls.js:241-244 | copying node positions into px/py keeps the frame and the radii |
| BubbleChart.MaxRadius | js/balls.js:193 | the largest radius is at most 80 and at most a fourteenth of the width |
| BubbleChart.PlayStepAsWritten | js/balls.js:465-466 | the interval callback as written: from a year in [1950, 2023] it keeps playing iff the year was below 2023, advancing by one, and when it stops the year is 2024 |
| BubbleChart.PlayStep | js/balls.js:465-466 | the corrected tick: it keeps playing iff the year is below 2023, then advancing by one; when it stops the year is left as it was |
| BubbleChart.PlayStepAsWrittenOvershoots | js/balls.js:465-466 | at 2023 the as-written tick stops with the year at 2024, outside the slider's range |
| BubbleChart.PlayStepInRange | js/balls.js:465-466 | the corrected tick keeps the year in [1950, 2023], advancing iff it was below 2023 |
| BubbleChart.PlayStepAgreesWhilePlaying | js/country_spheres.js:398-399 | below 2023 the corrected tick equals the tick as written |
| BubbleChart.RebuiltSameNodes | js/balls.js:234-235 | the node list holds exactly the values of the new node map |
| BubbleChart.Place | js/balls.js:241-244 | every datum's px/py become its node's current x/y, and nothing else changes |
| BubbleChart.Adopt | js/balls.js:224-232 | a known country reuses its node object with new r/tx/ty/val and the same x/y; an unknown one gets a fresh node at its target |
| BubbleChart.Rebuild | js/balls.js:222-235 | the new map's keys are exactly the frame's countries; old nodes are reused as the same objects with x/y kept; new ones are fresh at their targets; the sphere view's copy is js/country_spheres.js:185-198 |
| BubbleChart.SizeAll | js/balls.js:253 | each datum's radius is the scale applied to its value, and nothing else changes |
| BubbleChart.BubbleChart.constructor | js/balls.js:60-63 | the tables are those of the load loops, metric per capita, year 2023, not playing, and the 2023 frame is drawn |
| BubbleChart.BubbleChart.Sync | js/balls.js:221-245 | node map keyed exactly by the frame; nodes reused or fresh as above; every datum at its node's position; simulation reheated to 0.6; the sphere view's copy is js/country_spheres.js:184-205 |
| BubbleChart.BubbleChart.UpdateViz | js/balls.js:250-254 | the bound data is the year's frame, sized by the radius scale over its maximum, placed at the nodes |
| BubbleChart.BubbleChart.SizedYearData | js/balls.js:251-253 | the year's frame with every radius set from the scale |
| BubbleChart.BubbleChart.OnTick | js/balls.js:213-219 | after a force step every bound datum's px/py equal its node's new x/y |
| BubbleChart.BubbleChart.ResetSimulation | js/balls.js:425-427 | the node map is emptied, the old simulation stopped before a new one runs, and every node is new at its target |
| BubbleChart.BubbleChart.Redraw | js/balls.js:432 | redrawing from an empty node map makes every node new and seeded at its target |
| BubbleChart.BubbleChart.SwitchMetric | js/balls.js:419-433 | the same metric changes nothing: the chart's fields, the simulation and every node are unchanged; another metric resets the simulation and draws that metric's frame for the current year; the sphere view's copy is js/country_spheres.js:365-376 |
| BubbleChart.BubbleChart.Resize | js/balls.js:495-502 | new dimensions, a reset simulation and the current year's frame; the sphere view's copy is js/country_spheres.js:428-435 |
| BubbleChart.BubbleChart.SliderInput | js/balls.js:450-455 | the year becomes the slider's and that year's frame is drawn |
| BubbleChart.BubbleChart.StartPlay | js/balls.js:459-464 | playing with a fresh interval; the slider restarts at 1950 when it was at 2023 or later; the sphere view's copy is js/country_spheres.js:392-396 |
| BubbleChart.BubbleChart.StopPlay | js/balls.js:473-477 | not playing, interval cleared |
| BubbleChart.BubbleChart.TogglePlay | js/balls.js:457 | play flips; starting applies the 2023 → 1950 restart |
| BubbleChart.BubbleChart.PlayTick | js/balls.js:464-470 | one interval tick, corrected: year and playing follow PlayStep, and a frame is drawn only while playing |
| BubbleChart.BubbleChart.SetSpeed | js/balls.js:479-486 | the speed is stored; while playing the old interval is cleared and a new one started |
| BubbleChart.BubbleChart.ArrowRight | js/balls.js:491 | when not playing the year becomes min(2023, year + 1) and is drawn; while playing nothing changes: the chart's fields, the simulation and every node are unchanged; the sphere view's copy is js/country_spheres.js:424 |
| BubbleChart.BubbleChart.ArrowLeft | js/balls.js:492 | when not playing the year becomes max(1950, year − 1) and is drawn; while playing nothing changes: the chart's fields, the simulation and every node are unchanged; the sphere view's copy is js/country_spheres.js:425 |
| Spiral.CleanLines | js/spiral_graph.js:17-18 | exactly the first line is dropped, and only when it starts with `Land-Ocean` |
| Spiral.ParseTemperatureData | js/spiral_graph.js:16-43 | the nested loops emit exactly PointsOf(rows, first row's year); with no row there is no start year (None) |
| Spiral.RowPointsSound | js/spiral_graph.js:25-31 | a row yields only points for months whose cell is present and not `***` |
| Spiral.RowPointsComplete | js/spiral_graph.js:26-29 | every present month cell yields its point |
| Spiral.RowPointsInOrder | js/spiral_graph.js:25 | a row's points come January to December, with increasing t |
| Spiral.PointsOfSound | js/spiral_graph.js:21-31 | each point has monthIndex in 0..11, its month's name, t = (year − startYear)·12 + monthIndex, and comes from a present cell |
| Spiral.PointsOfComplete | js/spiral_graph.js:23-40 | every present cell of every row yields a point |
| Spiral.PointsOfInOrder | js/spiral_graph.js:23-40 | for rows in increasing year order the points come out in increasing t |
| Spiral.ParsedInYearOrderNeedsNoSort | js/spiral_graph.js:117 | for such rows sorting by t changes nothing |
| Spiral.YearFollowsT | js/spiral_graph.js:31 | a smaller t never belongs to a later year |
| Spiral.LoadedBounds | js/spiral_graph.js:117-120 | after the sort the points are ordered by t, are a permutation of the parsed points, and the last point has the largest t and year |
| Spiral.LoadPoints | js/spiral_graph.js:117 | parse then sort: None iff there is no row; otherwise the sorted permutation with the bounds above |
| Spiral.Cutoff | js/spiral_graph.js:253 | the cut-off is the smaller of maxT and the last month's t of the target year, and is one of the two |
| Spiral.Filter | js/spiral_graph.js:254 | keeps exactly the points with t ≤ cut-off |
| Spiral.FilterOfSortedIsPrefix | js/spiral_graph.js:253-254 | on sorted points the kept points are a prefix, and every later point is past the cut-off |
| Spiral.RenderShowsYearsUpTo | js/spiral_graph.js:253-254 | for points counted from render's start year, a point is drawn iff t ≤ maxT and its year ≤ the target year |
| Spiral.RenderFromLaterStartHidesTargetYear | js/spiral_graph.js:118 | if t counts from a year before render's start year (the first data row has no month, js/spiral_graph.js:20), no point of the target year is drawn |
| Spiral.Pairs | js/spiral_graph.js:260 | n − 1 pairs of consecutive points (none for an empty list) |
| Spiral.PairsChain | js/spiral_graph.js:260 | each segment starts where the previous one ends |
| Spiral.FormatTemperature | js/spiral_graph.js:45-48 | the sign is `+` iff the value is strictly positive; two decimals and °C |
| Spiral.AutoplayYear | js/spiral_graph.js:498-500 | the autoplay year goes from the start year at time 0 to start + total once 10 s have passed, never outside |
| Spiral.SpiralGraph.constructor | js/spiral_graph.js:67-69 | no current year, not scrubbing, no timer |
| Spiral.SpiralGraph.LoadData | js/spiral_graph.js:115-152 | the points are the parsed points sorted; maxT bounds every t; the current year is the start year; autoplay runs iff there is more than one year |
| Spiral.SpiralGraph.Install | js/spiral_graph.js:117-120 | start year, end year and maxT come from the first and last sorted point |
| Spiral.SpiralGraph.SyncToYear | js/spiral_graph.js:469-470 | the current year becomes the target |
| Spiral.SpiralGraph.StopAutoplay | js/spiral_graph.js:478-483 | a running timer is stopped and the field left null |
| Spiral.SpiralGraph.StartAutoplay | js/spiral_graph.js:485-494 | the from-year is clamped into [startYear, endYear]; with no years left nothing changes; otherwise the old timer is stopped and a fresh one starts now |
| Spiral.SpiralGraph.AutoplayFrame | js/spiral_graph.js:494-507 | while scrubbing nothing changes; otherwise the year is AutoplayYear of the time elapsed since the start, and at 10 s the year is the end year and the timer is stopped |
| Spiral.SpiralGraph.Scrub | js/spiral_graph.js:441-448 | the pointer year is clamped to [startYear, endYear] and rounded |
| Spiral.SpiralGraph.DragStart | js/spiral_graph.js:452-456 | scrubbing starts, autoplay stops, and the year becomes the rounded pointer year, or the start (end) year when the pointer is before (after) the data |
| Spiral.SpiralGraph.Drag | js/spiral_graph.js:457-459 | the year becomes the rounded pointer year, or the start (end) year when the pointer is before (after) the data |
| Spiral.SpiralGraph.DragEnd | js/spiral_graph.js:460-463 | scrubbing ends; autoplay restarts from the current year unless it is the last year |
| ForestRli.Clamp01 | js/forest_rli_viz.js:22 | the result lies in [0, 1], equals x inside, 0 below and 1 above |
| ForestRli.Compress | js/forest_rli_viz.js:23 | maps 0 to lo and 1 to hi |
| ForestRli.CompressWithin | js/forest_rli_viz.js:23 | a t in [0, 1] lands in [lo, hi] |
| ForestRli.CompressMonotone | js/forest_rli_viz.js:23 | compress preserves order |
| ForestRli.Share | js/forest_rli_viz.js:188-189 | the share lies in its band, and is the band's end for raw ≤ 0 or ≥ 1 |
| ForestRli.ShareMonotone | js/forest_rli_viz.js:188-193 | a larger raw value never gives a smaller share |
| ForestRli.GradientAround | js/forest_rli_viz.js:159-165 | a gradient spans exactly [boundary − 160, boundary + 160] |
| ForestRli.SceneFor | js/forest_rli_viz.js:188-227 | smoke and rain shares are the banded shares of the loss and the risk, each pair of shares sums to 1, and each gradient spans its boundary |
| ForestRli.SharesInBands | js/forest_rli_viz.js:188-194 | smoke lies in [0.10, 0.60] and rain in [0.05, 0.50]; each pair sums to 1 |
| ForestRli.BoundariesInScene | js/forest_rli_viz.js:196-197 | both boundaries lie inside [sceneX, sceneX + sceneW] at the tree (bird) share of the width |
| ForestRli.ClipsTileScene | js/forest_rli_viz.js:199-227 | each clip pair runs from the scene's left edge to its right edge, overlapping exactly on the gradient's span, at full scene height |
| ForestRli.MoreLossMoreSmoke | js/forest_rli_viz.js:188-196 | more forest loss never moves the tree/smoke boundary right |
| ForestRli.MoreRiskMoreRain | js/forest_rli_viz.js:192-197 | more risk never moves the bird/rain boundary right |
| ForestRli.ForestViewer.constructor | js/forest_rli_viz.js:169-177 | the rows sorted by year (a permutation), starting at the last index with the slider on it |
| ForestRli.ForestViewer.Prev | js/forest_rli_viz.js:230-234 | one step back, never below 0; the slider follows |
| ForestRli.ForestViewer.Next | js/forest_rli_viz.js:235-239 | one step forward, never past the last year; the slider follows |
| ForestRli.ForestViewer.SliderInput | js/forest_rli_viz.js:240-243 | the index becomes the slider's value |
| ForestRli.Load | js/forest_rli_viz.js:168-177 | with no rows no viewer is made (render fails); otherwise a viewer at the last year |
| Globe.GroupByRegion | js/globeVis.js:49-60 | one record per region, each with a non-empty time series |
| Globe.RegionsAreDistinctRowRegions | js/globeVis.js:49 | the group keys are exactly the rows' regions, each once |
| Globe.RegionsGrowAtTheEnd | js/globeVis.js:49 | the keys of any prefix of the rows are a prefix of the keys: first-appearance order |
| Globe.SeriesHoldsTheRegionsRows | js/globeVis.js:55-59 | every row lands in its region's series, and a series holds only its region's rows |
| Globe.SeriesStartsWithFirstRow | js/globeVis.js:51-55 | a region's series starts with its first row, the row that gives lat/lon |
| Globe.GroupedRegions | js/globeVis.js:49-60 | distinct names, and a record for every row's region |
| Globe.GroupStartsAtFirstRow | js/globeVis.js:51-59 | a record's lat/lon and first sample come from the first row of its region, and its series is the region's rows in order |
| Globe.FirstIndex | js/globeVis.js:53 | `values[0]` is the first row with that region |
| Globe.BirdLoss | js/globeVis.js:257 | no number when the first count is 0; 0 when the count is unchanged; within 0..100 when the count fell |
| Globe.PopupPosition | js/globeVis.js:270-275 | the popup's bottom never passes the height; it is right of the point unless that overflows, otherwise its right edge sits 20px left of the point |
| Globe.PopupInsideForGlobePoints | js/globeVis.js:270-275 | for a point on the globe's disc the popup keeps 10px from the top and never passes the right edge |
| Globe.PopupCanStartLeftOfContainer | js/globeVis.js:272 | nothing checks the left edge: the popup for the centre starts at x = −40 |
| Globe.GlobeVis.constructor | js/globeVis.js:9-17 | no selection, not paused, no timer, no data |
| Globe.ForestLoss | js/globeVis.js:63-67 | the loss is positive iff the latest cover is below the first, zero iff they are equal, and zero for a single sample; selectRegion computes the same at js/globeVis.js:256 |
| Globe.GlobeVis.LoadData | js/globeVis.js:43-67 | the records are the groups, each with forestLoss = first forestCover − last forestCover |
| Globe.GlobeVis.Init | js/globeVis.js:23-38 | after loading, each record is its region's group with forestLoss = first − last cover, and rotation runs on a fresh timer |
| Globe.GlobeVis.StartRotation | js/globeVis.js:420-429 | a no-op while paused; otherwise a fresh running timer |
| Globe.GlobeVis.StopRotation | js/globeVis.js:434-439 | a referenced timer is stopped and the field nulled |
| Globe.GlobeVis.Pause | js/globeVis.js:398-405 | paused with no timer; the old timer is stopped |
| Globe.GlobeVis.ClosePopup | js/globeVis.js:386-393 | the popup hidden and no region selected |
| Globe.GlobeVis.Resume | js/globeVis.js:410-415 | selection cleared, not paused, rotating on a fresh timer |
| Globe.GlobeVis.SelectRegion | js/globeVis.js:239-282 | paused with no timer, the region selected, the popup at PopupPosition, forest and bird loss as defined above |
| Globe.GlobeVis.DragStart | js/globeVis.js:457-459 | a referenced timer is stopped but kept |
| Globe.GlobeVis.DragEnd | js/globeVis.js:465-467 | rotation restarts iff not paused |

## Left out

- Drawing: SVG/DOM construction, tooltips, detail charts, legends, masks and gradients as elements, and event wiring. Only the values the drawing reads are modelled.
- The d3 force physics: `ForceSimulation.Tick` takes the new positions as input and may change only x and y.
- The d3 radius scale: `BubbleChart.radius` is a function-typed parameter. The risk scale is `ForestViewer.riskTo01`.
- `d3.csvParse`, `d3.csv`'s conversion and `Number.parseFloat`: the spiral takes them as parameters, and the other views take already-converted rows.
- Fetching the CSV and JSON files, the world-atlas download, and the globe's hard-coded fallback data after a load error: all I/O.
- Timing (`setInterval`, `requestAnimationFrame`, `d3.timer`, `performance.now`): a timer is a handle with a running flag, and the current time is a parameter.
- The slider's animation-frame debounce is not modelled: `SliderInput` redraws at once.
- Floating point: all numbers are mathematical reals. The formulas of the projection, the spiral's polar position and the globe's orthographic projection are left out. The globe's hotspot point is a parameter of `SelectRegion`.
- `toFixed`, `toLocaleString`: only the branch, unit and digit count are modelled (`FormatVal`, `FormatTemperature`).
- The spiral timeline's pixel scale: `Scrub`, `DragStart` and `Drag` take the pointer's year. The scale is linear and increasing, so clamping the pixel equals clamping the year.
- The spiral's `render` keeps no state of its own; what it draws is given by `Filter`, `Cutoff` and `Pairs`. `SyncToYear` sets only the current year.
- Spiral.ParseTemperatureData: the source reads `rows[0].Year` even when there is no row. That throws in the source; the model returns None.
- Spiral.SpiralGraph.LoadData: the source fails on an empty point list at `this.points[0].year`; the model then loads nothing and starts no autoplay.
- Globe.BirdLoss: when the first count is 0 the source gets Infinity or NaN; the model returns None.
- Globe.GlobeVis.StartRotation: like the source, it does not stop a timer already referenced. No caller in these files reaches it while a timer runs: drag start stops the timer first, and `resume` has no caller here.
- Strings are sequences of characters, while JavaScript's `.length` and `.slice` count UTF-16 code units: `ShortName` differs from `shortName` on names with characters outside the Basic Multilingual Plane.
- Spiral.RenderShowsYearsUpTo: it assumes the t values count from render's start year. The source takes that year from the first point, and t from the first row (js/spiral_graph.js:20, 118). These differ when the first data row has no month; `RenderFromLaterStartHidesTargetYear` shows that render then leaves out the target year.
- `js/main.js` is not part of this model: it is page plumbing.

## Findings

| source | as written | input that shows it | evidently intended | confidence | as-written member | corrected member |
|---|---|---|---|---|---|---|
| js/balls.js:465-466 (also js/country_spheres.js:398-399) | the interval callback increments the year before checking it, and stops without undoing the increment | play with the slider at 2022: the tick at 2023 stops playback with the year at 2024 while the slider shows 2023; a later metric switch or resize then draws year 2024, outside the slider's range | stop at 2023, keeping the year inside the slider's range [1950, 2023] | not executed | BubbleChart.PlayStepAsWrittenOvershoots | BubbleChart.PlayStepInRange |
