/** The page state of the CO2 bubble map (js/balls.js, duplicated as
    js/country_spheres.js): the persistent force-simulation nodes that are
    reused across frames, the year slider and playback, and the controls
    that switch metric, resize or step the year. */
module BubbleChart {
  import opened Common
  import opened Co2Data

  const FirstYear := 1950
  const LastYear := 2023

  /** A simulation node: one bubble's physical state. The country never
      changes; the rest is rewritten on every frame or tick. */
  class Node {
    const country: string
    var r: real
    var val: real
    var tx: real
    var ty: real
    var x: real
    var y: real

    /** A new node starts at its target. */
    constructor (country: string, r: real, val: real, tx: real, ty: real)
      ensures this.country == country && this.r == r && this.val == val
      ensures this.tx == tx && this.ty == ty && x == tx && y == ty
    {
      this.country := country;
      this.r := r;
      this.val := val;
      this.tx := tx;
      this.ty := ty;
      x := tx;
      y := ty;
    }

    /** The update syncSimulation applies to a reused node: everything but its position. */
    method Retarget(r: real, val: real, tx: real, ty: real)
      modifies this
      ensures this.r == r && this.val == val && this.tx == tx && this.ty == ty
      ensures x == old(x) && y == old(y)
    {
      this.r := r;
      this.tx := tx;
      this.ty := ty;
      this.val := val;
    }
  }

  /** The part of d3.forceSimulation the page relies on: its node list, its
      alpha (cooling) and whether its timer is running. The forces
      themselves are not modelled: a tick takes the new positions as input. */
  class ForceSimulation {
    var nodes: seq<Node>
    var alpha: real
    var running: bool

    /** initSimulation: `.alpha(1).restart()`. */
    constructor (nodes: seq<Node>)
      ensures this.nodes == nodes && alpha == 1.0 && running
    {
      this.nodes := nodes;
      alpha := 1.0;
      running := true;
    }

    /** `simulation.nodes(ns)` followed by `.alpha(a).restart()`. */
    method Reheat(nodes: seq<Node>, a: real)
      modifies this
      ensures this.nodes == nodes && alpha == a && running
    {
      this.nodes := nodes;
      alpha := a;
      running := true;
    }

    method Stop()
      modifies this
      ensures nodes == old(nodes) && alpha == old(alpha) && !running
    {
      running := false;
    }

    /** One tick: alpha decays by alphaDecay 0.02 and the timer stops once
        alpha falls below d3's alphaMin 0.001; each node moves to the position
        the forces computed, and nothing else about a node changes. */
    method Tick(moves: seq<(real, real)>)
      requires running && |moves| == |nodes|
      requires forall i, j :: 0 <= i < j < |nodes| ==> nodes[i] != nodes[j]
      modifies this, nodes
      ensures nodes == old(nodes)
      ensures alpha == old(alpha) * 0.98 && running == (alpha >= 0.001)
      ensures forall i :: 0 <= i < |nodes| ==> nodes[i].x == moves[i].0 && nodes[i].y == moves[i].1
      ensures forall i :: 0 <= i < |nodes| ==>
                nodes[i].r == old(nodes[i].r) && nodes[i].val == old(nodes[i].val) &&
                nodes[i].tx == old(nodes[i].tx) && nodes[i].ty == old(nodes[i].ty)
    {
      alpha := alpha + (0.0 - alpha) * 0.02;
      for i := 0 to |nodes|
        modifies nodes
        invariant forall k :: 0 <= k < i ==> nodes[k].x == moves[k].0 && nodes[k].y == moves[k].1
        invariant forall k :: i <= k < |nodes| ==> nodes[k].x == old(nodes[k].x) && nodes[k].y == old(nodes[k].y)
        invariant forall k :: 0 <= k < |nodes| ==>
                    nodes[k].r == old(nodes[k].r) && nodes[k].val == old(nodes[k].val) &&
                    nodes[k].tx == old(nodes[k].tx) && nodes[k].ty == old(nodes[k].ty)
      {
        nodes[i].x := moves[i].0;
        nodes[i].y := moves[i].1;
      }
      if alpha < 0.001 {
        running := false;
      }
    }
  }

  function Countries(data: seq<Entry>): set<string>
  {
    set i | 0 <= i < |data| :: data[i].country
  }

  /** `d3.max(data, d => d.val)`. */
  function MaxVal(data: seq<Entry>): (m: real)
    requires data != []
    ensures forall i :: 0 <= i < |data| ==> data[i].val <= m
    ensures exists i :: 0 <= i < |data| && data[i].val == m
  {
    if |data| == 1 then data[0].val
    else
      var rest := MaxVal(data[1..]);
      assert forall i :: 1 <= i < |data| ==> data[i] == data[1..][i - 1];
      if data[0].val >= rest then data[0].val else rest
  }

  /** The radius scale's domain end: the largest value, or 1 for an empty frame. */
  function DomainMax(data: seq<Entry>): (m: real)
    ensures data == [] ==> m == 1.0
    ensures forall i :: 0 <= i < |data| ==> data[i].val <= m
    ensures data != [] ==> exists i :: 0 <= i < |data| && data[i].val == m
  {
    if data == [] then 1.0 else MaxVal(data)
  }

  /** In a frame the largest value is the first one. */
  lemma DomainMaxOfFrame(source: Table, geo: map<string, Geo>, year: int, data: seq<Entry>)
    requires IsFrame(source, geo, year, data) && data != []
    ensures DomainMax(data) == data[0].val
  {
    var m := MaxVal(data);
    var i :| 0 <= i < |data| && data[i].val == m;
    if i > 0 {
      assert data[0].val >= data[i].val;
    }
  }

  /** Sizing the bubbles keeps a frame a frame; its countries all have coordinates. */
  lemma SizedFrame(source: Table, geo: map<string, Geo>, year: int, data: seq<Entry>, sized: seq<Entry>)
    requires IsFrame(source, geo, year, data)
    requires |sized| == |data| && forall i :: 0 <= i < |data| ==> sized[i] == data[i].(r := sized[i].r)
    ensures IsFrame(source, geo, year, sized)
    ensures DomainMax(sized) == DomainMax(data)
    ensures forall i :: 0 <= i < |sized| ==> sized[i].country in geo
  {
    FrameIgnoresPlacement(source, geo, year, data, sized);
    if data != [] {
      DomainMaxOfFrame(source, geo, year, data);
      DomainMaxOfFrame(source, geo, year, sized);
    }
    forall i | 0 <= i < |sized| ensures sized[i].country in geo {
      assert Admitted(source, geo, year, sized[i].country);
    }
  }

  /** Positioning the sized bubbles keeps a frame a frame, and each radius is
      still the scale's value over the frame's own largest value. */
  lemma PlacedFrame(source: Table, geo: map<string, Geo>, year: int, sized: seq<Entry>, placed: seq<Entry>,
                    maxR: real, radius: (real, real, real) -> real)
    requires IsFrame(source, geo, year, sized)
    requires |placed| == |sized| && forall i :: 0 <= i < |sized| ==> placed[i] == sized[i].(px := placed[i].px, py := placed[i].py)
    requires forall i :: 0 <= i < |sized| ==> sized[i].r == radius(DomainMax(sized), maxR, sized[i].val)
    ensures IsFrame(source, geo, year, placed)
    ensures forall i :: 0 <= i < |placed| ==> placed[i].r == radius(DomainMax(placed), maxR, placed[i].val)
  {
    FrameIgnoresPlacement(source, geo, year, sized, placed);
    if sized != [] {
      DomainMaxOfFrame(source, geo, year, sized);
      DomainMaxOfFrame(source, geo, year, placed);
    }
  }

  /** The upper end of the radius range: at most 80, and W/14 on narrow screens. */
  function MaxRadius(proj: Projection): (r: real)
    ensures r <= 80.0 && r <= proj.w / 14.0
  {
    MinReal(80.0, proj.w / 14.0)
  }

  /** The result of playback's interval callback as written: the year is
      advanced first, and playback stops when it has gone past the last year. */
  function PlayStepAsWritten(year: int): (r: (int, bool))
    ensures FirstYear <= year <= LastYear ==> (r.1 <==> year < LastYear)
    ensures r.1 ==> r.0 == year + 1
    ensures FirstYear <= year <= LastYear && !r.1 ==> r.0 == LastYear + 1
  {
    (year + 1, year + 1 <= LastYear)
  }

  /** At the last year the step stops playback but leaves the year one past it. */
  lemma PlayStepAsWrittenOvershoots()
    ensures PlayStepAsWritten(LastYear) == (LastYear + 1, false)
    ensures !(FirstYear <= PlayStepAsWritten(LastYear).0 <= LastYear)
  {
  }

  /** The step with the year left alone when playback ends. */
  function PlayStep(year: int): (r: (int, bool))
    ensures r.1 <==> year < LastYear
    ensures r.1 ==> r.0 == year + 1
    ensures !r.1 ==> r.0 == year
  {
    if year + 1 > LastYear then (year, false) else (year + 1, true)
  }

  /** Playback stays within the slider's years: from any year in range the
      step lands in range, advances by one while it keeps playing, and stops
      exactly at the last year. */
  lemma PlayStepInRange(year: int)
    requires FirstYear <= year <= LastYear
    ensures FirstYear <= PlayStep(year).0 <= LastYear
    ensures PlayStep(year).1 <==> year < LastYear
    ensures PlayStep(year).1 ==> PlayStep(year).0 == year + 1
    ensures !PlayStep(year).1 ==> PlayStep(year).0 == year
  {
  }

  /** Where PlayStepAsWritten leaves the range, the corrected step agrees with
      it on every year it would render. */
  lemma PlayStepAgreesWhilePlaying(year: int)
    requires year < LastYear
    ensures PlayStep(year) == PlayStepAsWritten(year)
  {
  }

  /** The node holds the entry's radius and value and aims at the
      projected position of its country. */
  predicate Carries(n: Node, d: Entry, geo: map<string, Geo>, proj: Projection)
    reads n
    requires d.country in geo
  {
    n.r == d.r && n.val == d.val && n.tx == proj.X(geo[d.country].lng) && n.ty == proj.Y(geo[d.country].lat)
  }

  /** A node map and a node list holding the same nodes, one per country,
      each filed under its own country. */
  predicate SameNodes(m: map<string, Node>, ns: seq<Node>)
  {
    && (forall c :: c in m ==> m[c].country == c)
    && m.Keys == (set i | 0 <= i < |ns| :: ns[i].country)
    && (forall i :: 0 <= i < |ns| ==> ns[i].country in m && m[ns[i].country] == ns[i])
    && (forall i, j :: 0 <= i < j < |ns| ==> ns[i].country != ns[j].country)
  }

  /** The map and list built from a frame of distinct countries agree. */
  lemma RebuiltSameNodes(m: map<string, Node>, ns: seq<Node>, data: seq<Entry>)
    requires forall i, j :: 0 <= i < j < |data| ==> data[i].country != data[j].country
    requires m.Keys == Countries(data) && |ns| == |data|
    requires forall i :: 0 <= i < |data| ==> ns[i].country == data[i].country && m[data[i].country] == ns[i]
    ensures SameNodes(m, ns)
  {
    assert Countries(data) == (set i | 0 <= i < |ns| :: ns[i].country) by {
      forall c | c in Countries(data) ensures c in (set i | 0 <= i < |ns| :: ns[i].country) {
        var i :| 0 <= i < |data| && data[i].country == c;
        assert ns[i].country == c;
      }
    }
    forall c | c in m ensures m[c].country == c {
      var i :| 0 <= i < |data| && data[i].country == c;
    }
  }

  /** The last forEach of syncSimulation: each entry takes its node's position. */
  method Place(data: seq<Entry>, nodes: seq<Node>) returns (placed: seq<Entry>)
    requires |nodes| == |data|
    ensures |placed| == |data|
    ensures forall i :: 0 <= i < |data| ==> placed[i] == data[i].(px := nodes[i].x, py := nodes[i].y)
  {
    placed := [];
    for i := 0 to |data|
      invariant |placed| == i
      invariant forall k :: 0 <= k < i ==> placed[k] == data[k].(px := nodes[k].x, py := nodes[k].y)
    {
      var node := nodes[i];
      placed := placed + [data[i].(px := node.x, py := node.y)];
    }
  }

  lemma CountriesSnoc(data: seq<Entry>, i: int)
    requires 0 <= i < |data|
    ensures Countries(data[..i + 1]) == Countries(data[..i]) + {data[i].country}
  {
    assert data[..i + 1] == data[..i] + [data[i]];
  }

  /** One step of that forEach: the country's node from the old map, updated
      to the entry, or a new node placed at the target. */
  method Adopt(oldMap: map<string, Node>, d: Entry, gx: real, gy: real) returns (node: Node)
    requires forall c :: c in oldMap ==> oldMap[c].country == c
    modifies if d.country in oldMap then {oldMap[d.country]} else {}
    ensures node.country == d.country && node.r == d.r && node.val == d.val && node.tx == gx && node.ty == gy
    ensures d.country in oldMap ==> node == oldMap[d.country] && node.x == old(node.x) && node.y == old(node.y)
    ensures d.country !in oldMap ==> fresh(node) && node.x == gx && node.y == gy
  {
    if d.country in oldMap {
      node := oldMap[d.country];
      node.Retarget(d.r, d.val, gx, gy);
    } else {
      node := new Node(d.country, d.r, d.val, gx, gy);
    }
  }

  /** The forEach of syncSimulation that builds the new node map, in frame order. */
  method Rebuild(oldMap: map<string, Node>, data: seq<Entry>, geo: map<string, Geo>, proj: Projection)
    returns (newMap: map<string, Node>, newNodes: seq<Node>)
    requires forall c :: c in oldMap ==> oldMap[c].country == c
    requires forall i, j :: 0 <= i < j < |data| ==> data[i].country != data[j].country
    requires forall i :: 0 <= i < |data| ==> data[i].country in geo
    modifies oldMap.Values
    ensures newMap.Keys == Countries(data) && |newNodes| == |data|
    ensures forall i :: 0 <= i < |data| ==>
              newNodes[i].country == data[i].country && newMap[data[i].country] == newNodes[i] &&
              Carries(newNodes[i], data[i], geo, proj)
    ensures forall c :: c in oldMap ==> oldMap[c].x == old(oldMap[c].x) && oldMap[c].y == old(oldMap[c].y)
    ensures forall c :: c in newMap && c in oldMap ==> newMap[c] == oldMap[c]
    ensures forall c :: c in newMap && c !in oldMap ==>
              fresh(newMap[c]) && newMap[c].x == newMap[c].tx && newMap[c].y == newMap[c].ty
  {
    newMap := map[];
    newNodes := [];
    for i := 0 to |data|
      invariant newMap.Keys == Countries(data[..i]) && |newNodes| == i
      invariant forall k :: 0 <= k < i ==>
                  newNodes[k].country == data[k].country && newMap[data[k].country] == newNodes[k] &&
                  Carries(newNodes[k], data[k], geo, proj)
      invariant forall c :: c in oldMap ==> oldMap[c].x == old(oldMap[c].x) && oldMap[c].y == old(oldMap[c].y)
      invariant forall c :: c in newMap && c in oldMap ==> newMap[c] == oldMap[c]
      invariant forall c :: c in newMap && c !in oldMap ==>
                  fresh(newMap[c]) && newMap[c].x == newMap[c].tx && newMap[c].y == newMap[c].ty
    {
      var d := data[i];
      var g := geo[d.country];
      CountriesSnoc(data, i);
      assert forall k :: 0 <= k < i ==> newNodes[k].country != d.country;
      var node := Adopt(oldMap, d, proj.X(g.lng), proj.Y(g.lat));
      newMap := newMap[d.country := node];
      newNodes := newNodes + [node];
    }
    assert data[..|data|] == data;
  }

  /** `data.forEach(d => d.r = rScale(d.val))`. */
  method SizeAll(data: seq<Entry>, mx: real, maxR: real, radius: (real, real, real) -> real) returns (sized: seq<Entry>)
    ensures |sized| == |data|
    ensures forall i :: 0 <= i < |data| ==> sized[i] == data[i].(r := radius(mx, maxR, data[i].val))
  {
    sized := data;
    for i := 0 to |data|
      invariant |sized| == |data|
      invariant forall k :: 0 <= k < i ==> sized[k] == data[k].(r := radius(mx, maxR, data[k].val))
      invariant forall k :: i <= k < |data| ==> sized[k] == data[k]
    {
      sized := sized[i := sized[i].(r := radius(mx, maxR, data[i].val))];
    }
  }

  class BubbleChart {
    const tables: Tables
    /** d3.scalePow().exponent(0.7).domain([0, maxVal]).range([2, maxR]),
        given (maxVal, maxR, val). */
    const radius: (real, real, real) -> real
    var metric: Metric
    var proj: Projection
    var currentYear: int
    var sliderYear: int
    var playing: bool
    var animInterval: Timer?
    var speed: int
    var nodeMap: map<string, Node>
    var nodes: seq<Node>
    var sim: ForceSimulation
    /** The data bound to the bubble groups, whose px/py follow the nodes. */
    var bound: seq<Entry>

    /** The year is the slider's, within the slider's range. */
    ghost predicate Years()
      reads this
    {
      FirstYear <= sliderYear <= LastYear && currentYear == sliderYear
    }

    /** The playback interval runs exactly while playing. */
    ghost predicate Timing()
      reads this, animInterval
    {
      && (playing ==> animInterval != null && animInterval.running)
      && (!playing && animInterval != null ==> !animInterval.running)
    }

    ghost predicate Controls()
      reads this, animInterval
    {
      Years() && Timing()
    }

    /** The node map and the node list are the same nodes, one per country,
        in the order of the last frame, and the simulation holds that list. */
    ghost predicate Linked()
      reads this, sim
    {
      && tables.pc.Valid() && tables.total.Valid()
      && SameNodes(nodeMap, nodes)
      && sim.nodes == nodes
    }

    /** The bubbles on screen are the nodes' countries, in the same order. */
    ghost predicate Drawn()
      reads this, sim
    {
      && Linked()
      && |bound| == |nodes|
      && (forall i :: 0 <= i < |bound| ==> bound[i].country == nodes[i].country)
    }

    ghost predicate Valid()
      reads this, sim, animInterval
    {
      Controls() && Drawn()
    }

    /** Page load: the tables are built, the simulation created empty, and
        the frame for 2023 drawn. */
    constructor (geoRows: seq<GeoRow>, contRows: seq<ContinentRow>, co2Rows: seq<Co2Row>,
                 innerWidth: real, innerHeight: real, radius: (real, real, real) -> real)
      ensures Valid()
      ensures metric == PerCapita && currentYear == LastYear && !playing && speed == 120
      ensures tables.geo == WithContinents(GeoOf(geoRows), contRows)
      ensures tables.pc == TableOf(tables.geo, co2Rows, PerCapita)
      ensures tables.total == TableOf(tables.geo, co2Rows, Total)
      ensures IsFrame(tables.pc, tables.geo, LastYear, bound)
    {
      var t := LoadTables(geoRows, contRows, co2Rows);
      TableOfSound(t.geo, co2Rows, PerCapita);
      TableOfSound(t.geo, co2Rows, Total);
      tables := t;
      this.radius := radius;
      metric := PerCapita;
      proj := Dimensions(innerWidth, innerHeight);
      currentYear := LastYear;
      sliderYear := LastYear;
      playing := false;
      animInterval := null;
      speed := 120;
      nodeMap := map[];
      nodes := [];
      sim := new ForceSimulation([]);
      bound := [];
      new;
      UpdateViz(LastYear);
    }

    /** syncSimulation: a country already on screen keeps its node object
        (and so its position) with new radius, value and target; a country
        new to the screen gets a node placed at its target; countries that
        left are dropped. The simulation is reheated to alpha 0.6 and every
        entry takes its node's position; the entries become the bubbles' data. */
    method Sync(data: seq<Entry>)
      requires Linked()
      requires forall i, j :: 0 <= i < j < |data| ==> data[i].country != data[j].country
      requires forall i :: 0 <= i < |data| ==> data[i].country in tables.geo
      modifies this`nodeMap, this`nodes, this`bound, sim, nodeMap.Values
      ensures Drawn()
      ensures nodeMap.Keys == Countries(data)
      ensures |nodes| == |data|
      ensures |bound| == |data|
      ensures forall i :: 0 <= i < |data| ==> bound[i] == data[i].(px := bound[i].px, py := bound[i].py)
      ensures forall i :: 0 <= i < |bound| ==> bound[i].px == nodes[i].x && bound[i].py == nodes[i].y
      ensures forall i :: 0 <= i < |bound| ==> Carries(nodes[i], bound[i], tables.geo, proj)
      ensures forall c :: c in nodeMap && c in old(nodeMap) ==>
                nodeMap[c] == old(nodeMap[c]) && nodeMap[c].x == old(nodeMap[c].x) && nodeMap[c].y == old(nodeMap[c].y)
      ensures forall c :: c in nodeMap && c !in old(nodeMap) ==>
                fresh(nodeMap[c]) && nodeMap[c].x == nodeMap[c].tx && nodeMap[c].y == nodeMap[c].ty
      ensures sim == old(sim) && sim.alpha == 0.6 && sim.running
    {
      var newMap, newNodes := Rebuild(nodeMap, data, tables.geo, proj);
      RebuiltSameNodes(newMap, newNodes, data);
      var placed := Place(data, newNodes);
      nodeMap := newMap;
      nodes := newNodes;
      sim.Reheat(nodes, 0.6);
      bound := placed;
    }

    /** updateViz: the frame for `year` in the current metric, radii from the
        scale over [0, largest value], synchronised with the simulation. */
    method UpdateViz(year: int)
      requires Linked()
      modifies this`nodeMap, this`nodes, this`bound, sim, nodeMap.Values
      ensures Drawn()
      ensures IsFrame(Source(tables, metric), tables.geo, year, bound)
      ensures forall i :: 0 <= i < |bound| ==> bound[i].r == radius(DomainMax(bound), MaxRadius(proj), bound[i].val)
      ensures forall i :: 0 <= i < |bound| ==> bound[i].px == nodes[i].x && bound[i].py == nodes[i].y
      ensures forall i :: 0 <= i < |bound| ==> Carries(nodes[i], bound[i], tables.geo, proj)
      ensures forall c :: c in nodeMap && c in old(nodeMap) ==>
                nodeMap[c] == old(nodeMap[c]) && nodeMap[c].x == old(nodeMap[c].x) && nodeMap[c].y == old(nodeMap[c].y)
      ensures forall c :: c in nodeMap && c !in old(nodeMap) ==>
                fresh(nodeMap[c]) && nodeMap[c].x == nodeMap[c].tx && nodeMap[c].y == nodeMap[c].ty
      ensures sim.alpha == 0.6 && sim.running
    {
      var sized := SizedYearData(year);
      Sync(sized);
      PlacedFrame(Source(tables, metric), tables.geo, year, sized, bound, MaxRadius(proj), radius);
    }

    /** The first two lines of updateViz: the year's frame with every radius
        set by the scale over [0, the frame's largest value]. */
    method SizedYearData(year: int) returns (sized: seq<Entry>)
      requires tables.pc.Valid() && tables.total.Valid()
      ensures IsFrame(Source(tables, metric), tables.geo, year, sized)
      ensures forall i :: 0 <= i < |sized| ==> sized[i].country in tables.geo
      ensures forall i :: 0 <= i < |sized| ==> sized[i].r == radius(DomainMax(sized), MaxRadius(proj), sized[i].val)
    {
      var data := GetYearData(tables, metric, year, proj);
      var mx := DomainMax(data);
      sized := SizeAll(data, mx, MaxRadius(proj), radius);
      SizedFrame(Source(tables, metric), tables.geo, year, data, sized);
    }

    /** onSimTick: the simulation moves the nodes and every bubble follows its node. */
    method OnTick(moves: seq<(real, real)>)
      requires Drawn() && sim.running && |moves| == |nodes|
      modifies this`bound, sim, nodes
      ensures Drawn()
      ensures |bound| == |old(bound)|
      ensures forall i :: 0 <= i < |bound| ==>
                nodes[i].x == moves[i].0 && nodes[i].y == moves[i].1 &&
                bound[i] == old(bound[i]).(px := moves[i].0, py := moves[i].1)
    {
      forall i, j | 0 <= i < j < |nodes| ensures nodes[i] != nodes[j] {
        assert nodes[i].country != nodes[j].country;
      }
      sim.Tick(moves);
      var next := bound;
      for i := 0 to |bound|
        invariant |next| == |bound|
        invariant forall k :: 0 <= k < i ==> next[k] == bound[k].(px := nodes[k].x, py := nodes[k].y)
        invariant forall k :: i <= k < |bound| ==> next[k] == bound[k]
      {
        var node := nodeMap[bound[i].country];
        next := next[i := next[i].(px := node.x, py := node.y)];
      }
      bound := next;
    }

    /** The reset shared by the metric switch and the resize handler: the
        node map is emptied, the old simulation stopped and replaced, and the
        current year drawn again, so every bubble is a new node at its target. */
    method ResetSimulation()
      requires Linked()
      modifies this`nodeMap, this`nodes, this`bound, this`sim, sim
      ensures Drawn()
      ensures IsFrame(Source(tables, metric), tables.geo, currentYear, bound)
      ensures fresh(sim) && !old(sim).running && sim.alpha == 0.6 && sim.running
      ensures forall c :: c in nodeMap ==> fresh(nodeMap[c]) && nodeMap[c].x == nodeMap[c].tx && nodeMap[c].y == nodeMap[c].ty
    {
      nodeMap := map[];
      nodes := [];
      sim.Stop();
      sim := new ForceSimulation(nodes);
      Redraw();
    }

    /** updateViz(currentYear) on an emptied node map: every node is new. */
    method Redraw()
      requires Linked() && nodeMap == map[]
      modifies this`nodeMap, this`nodes, this`bound, sim
      ensures Drawn() && IsFrame(Source(tables, metric), tables.geo, currentYear, bound)
      ensures sim.alpha == 0.6 && sim.running
      ensures forall c :: c in nodeMap ==> fresh(nodeMap[c]) && nodeMap[c].x == nodeMap[c].tx && nodeMap[c].y == nodeMap[c].ty
    {
      UpdateViz(currentYear);
    }

    /** A metric button: nothing happens for the active metric; otherwise
        the simulation starts over and the current year is drawn in the new
        metric. */
    method SwitchMetric(m: Metric)
      requires Valid()
      modifies this`metric, this`nodeMap, this`nodes, this`bound, this`sim, sim
      ensures Valid() && metric == m
      ensures old(metric) == m ==> nodes == old(nodes) && sim == old(sim) && bound == old(bound)
      ensures old(metric) == m ==> unchanged(this) && unchanged(old(sim)) && unchanged(old(nodeMap).Values)
      ensures old(metric) != m ==>
                && IsFrame(Source(tables, m), tables.geo, currentYear, bound)
                && fresh(sim) && !old(sim).running && sim.alpha == 0.6 && sim.running
                && (forall c :: c in nodeMap ==> fresh(nodeMap[c]) && nodeMap[c].x == nodeMap[c].tx && nodeMap[c].y == nodeMap[c].ty)
    {
      if m == metric {
        return;
      }
      metric := m;
      ResetSimulation();
    }

    /** The resize handler: new dimensions, simulation started over, current year redrawn. */
    method Resize(innerWidth: real, innerHeight: real)
      requires Valid()
      modifies this`proj, this`nodeMap, this`nodes, this`bound, this`sim, sim
      ensures Valid()
      ensures proj == Dimensions(innerWidth, innerHeight)
      ensures IsFrame(Source(tables, metric), tables.geo, currentYear, bound)
      ensures fresh(sim) && !old(sim).running && sim.alpha == 0.6 && sim.running
      ensures forall c :: c in nodeMap ==> fresh(nodeMap[c]) && nodeMap[c].x == nodeMap[c].tx && nodeMap[c].y == nodeMap[c].ty
    {
      proj := Dimensions(innerWidth, innerHeight);
      ResetSimulation();
    }

    /** Moving the slider: the year follows it and its frame is drawn. */
    method SliderInput(v: int)
      requires Valid() && FirstYear <= v <= LastYear
      modifies this`currentYear, this`sliderYear, this`nodeMap, this`nodes, this`bound, sim, nodeMap.Values
      ensures Valid()
      ensures currentYear == v && sliderYear == v
      ensures IsFrame(Source(tables, metric), tables.geo, v, bound)
    {
      currentYear := v;
      sliderYear := v;
      UpdateViz(currentYear);
    }

    /** startPlay: playback restarts from 1950 when the slider is at the end,
        and a new interval is started; no frame is drawn until its first tick. */
    method StartPlay()
      requires Years() && Drawn()
      requires animInterval == null || !animInterval.running
      modifies this`playing, this`sliderYear, this`currentYear, this`animInterval
      ensures Valid()
      ensures playing && fresh(animInterval)
      ensures sliderYear == (if old(sliderYear) >= LastYear then FirstYear else old(sliderYear))
    {
      playing := true;
      if sliderYear >= LastYear {
        sliderYear := FirstYear;
      }
      currentYear := sliderYear;
      animInterval := new Timer.Start();
    }

    /** stopPlay: the interval is cleared; the year stays where it is. */
    method StopPlay()
      requires Valid()
      modifies this`playing, animInterval
      ensures Valid()
      ensures !playing
    {
      playing := false;
      if animInterval != null {
        animInterval.Stop();
      }
    }

    /** The play button and the space bar. */
    method TogglePlay()
      requires Valid()
      modifies this`playing, this`sliderYear, this`currentYear, this`animInterval, animInterval
      ensures Valid()
      ensures playing == !old(playing)
      ensures old(playing) ==> sliderYear == old(sliderYear) && animInterval == old(animInterval)
      ensures !old(playing) ==> sliderYear == (if old(sliderYear) >= LastYear then FirstYear else old(sliderYear))
    {
      if playing {
        StopPlay();
      } else {
        StartPlay();
      }
    }

    /** One firing of the playback interval, with the year kept at 2023 when
        playback ends (see PlayStepAsWritten for the code as written). */
    method PlayTick()
      requires Valid() && playing
      modifies this`currentYear, this`sliderYear, this`playing, animInterval
      modifies this`nodeMap, this`nodes, this`bound, sim, nodeMap.Values
      ensures Valid()
      ensures (currentYear, playing) == PlayStep(old(currentYear))
      ensures playing ==> IsFrame(Source(tables, metric), tables.geo, currentYear, bound)
      ensures !playing ==> bound == old(bound)
    {
      if currentYear + 1 > LastYear {
        StopPlay();
        return;
      }
      currentYear := currentYear + 1;
      sliderYear := currentYear;
      UpdateViz(currentYear);
    }

    /** A speed button: the new period applies at once by restarting playback. */
    method SetSpeed(s: int)
      requires Valid()
      modifies this`speed, this`playing, this`sliderYear, this`currentYear, this`animInterval, animInterval
      ensures Valid()
      ensures speed == s && playing == old(playing)
      ensures old(playing) ==> fresh(animInterval) && !old(animInterval).running
      ensures old(playing) ==> sliderYear == (if old(sliderYear) >= LastYear then FirstYear else old(sliderYear))
      ensures !old(playing) ==> sliderYear == old(sliderYear) && animInterval == old(animInterval)
    {
      speed := s;
      if playing {
        animInterval.Stop();
        StartPlay();
      }
    }

    /** The right arrow while paused: one year on, never past 2023. */
    method ArrowRight()
      requires Valid()
      modifies this`currentYear, this`sliderYear, this`nodeMap, this`nodes, this`bound, sim, nodeMap.Values
      ensures Valid()
      ensures old(playing) ==> currentYear == old(currentYear) && bound == old(bound)
      ensures old(playing) ==> unchanged(this) && unchanged(old(sim)) && unchanged(old(nodeMap).Values)
      ensures !old(playing) ==> currentYear == Min(LastYear, old(currentYear) + 1) &&
                                IsFrame(Source(tables, metric), tables.geo, currentYear, bound)
    {
      if !playing {
        currentYear := Min(LastYear, currentYear + 1);
        sliderYear := currentYear;
        UpdateViz(currentYear);
      }
    }

    /** The left arrow while paused: one year back, never before 1950. */
    method ArrowLeft()
      requires Valid()
      modifies this`currentYear, this`sliderYear, this`nodeMap, this`nodes, this`bound, sim, nodeMap.Values
      ensures Valid()
      ensures old(playing) ==> currentYear == old(currentYear) && bound == old(bound)
      ensures old(playing) ==> unchanged(this) && unchanged(old(sim)) && unchanged(old(nodeMap).Values)
      ensures !old(playing) ==> currentYear == Max(FirstYear, old(currentYear) - 1) &&
                                IsFrame(Source(tables, metric), tables.geo, currentYear, bound)
    {
      if !playing {
        currentYear := Max(FirstYear, currentYear - 1);
        sliderYear := currentYear;
        UpdateViz(currentYear);
      }
    }
  }
}
