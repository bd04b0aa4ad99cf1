/** The forest-loss / bird-risk illustration: each year splits the scene
    between trees and smoke (by forest loss) and between birds and rain (by
    extinction risk); the year is stepped with buttons or a slider. */
module ForestRli {
  import opened Common
  import opened Sorting

  const MinSmoke: real := 0.10
  const MaxSmoke: real := 0.60
  const MinRain: real := 0.05
  const MaxRain: real := 0.50

  /** Half-width of the soft band around each boundary. */
  const BlendPx: real := 160.0

  const W: real := 1000.0
  const H: real := 720.0
  const MarginL: real := 40.0
  const MarginR: real := 40.0
  const MarginT: real := 20.0

  const SceneX: real := MarginL
  const SceneY: real := MarginT + 10.0
  const SceneW: real := W - MarginL - MarginR
  const SceneH: real := 560.0

  function Clamp01(x: real): (r: real)
    ensures 0.0 <= r <= 1.0
    ensures 0.0 <= x <= 1.0 ==> r == x
    ensures x < 0.0 ==> r == 0.0
    ensures x > 1.0 ==> r == 1.0
  {
    MaxReal(0.0, MinReal(1.0, x))
  }

  /** A product of two non-negative reals is non-negative: the one step of
      nonlinear arithmetic the band lemmas below need spelled out. */
  lemma MulNonneg(a: real, b: real)
    requires 0.0 <= a && 0.0 <= b
    ensures 0.0 <= a * b
  {
  }

  /** Linear map of [0, 1] onto [lo, hi]. */
  function Compress(t: real, lo: real, hi: real): (r: real)
    ensures t == 0.0 ==> r == lo
    ensures t == 1.0 ==> r == hi
  {
    lo + t * (hi - lo)
  }

  /** A point of [0, 1] lands inside [lo, hi]. */
  lemma CompressWithin(t: real, lo: real, hi: real)
    requires 0.0 <= t <= 1.0 && lo <= hi
    ensures lo <= Compress(t, lo, hi) <= hi
  {
    MulNonneg(t, hi - lo);
    MulNonneg(1.0 - t, hi - lo);
    assert (1.0 - t) * (hi - lo) == (hi - lo) - t * (hi - lo);
  }

  /** Compressing preserves order in t. */
  lemma CompressMonotone(t1: real, t2: real, lo: real, hi: real)
    requires t1 <= t2 && lo <= hi
    ensures Compress(t1, lo, hi) <= Compress(t2, lo, hi)
  {
    MulNonneg(t2 - t1, hi - lo);
    assert (t2 - t1) * (hi - lo) == t2 * (hi - lo) - t1 * (hi - lo);
  }

  /** The share of the scene a quantity gets: its raw value clamped to [0, 1],
      compressed into the band [lo, hi] and clamped again. */
  function Share(raw: real, lo: real, hi: real): (s: real)
    requires 0.0 <= lo <= hi <= 1.0
    ensures lo <= s <= hi
    ensures raw <= 0.0 ==> s == lo
    ensures raw >= 1.0 ==> s == hi
  {
    CompressWithin(Clamp01(raw), lo, hi);
    Clamp01(Compress(Clamp01(raw), lo, hi))
  }

  /** More of the raw quantity never means a smaller share. */
  lemma ShareMonotone(raw1: real, raw2: real, lo: real, hi: real)
    requires 0.0 <= lo <= hi <= 1.0 && raw1 <= raw2
    ensures Share(raw1, lo, hi) <= Share(raw2, lo, hi)
  {
    CompressMonotone(Clamp01(raw1), Clamp01(raw2), lo, hi);
  }

  datatype Rect = Rect(x: real, y: real, width: real, height: real)

  /** The x1..x2 extent of a soft gradient (y1 = y2 = 0). */
  datatype Span = Span(x1: real, x2: real)

  /** What render sets for one year: the four shares, the two boundaries, the
      four clip rectangles and the two gradient spans (both gradients of a
      mask pair get the same span). */
  datatype Scene = Scene(
    smokeShare: real, treeShare: real, rainShare: real, birdsShare: real,
    forestBoundaryX: real, birdBoundaryX: real,
    clipTrees: Rect, clipSmoke: Rect, clipBirds: Rect, clipRain: Rect,
    forestGradient: Span, birdGradient: Span)

  function Right(r: Rect): real
  {
    r.x + r.width
  }

  function GradientAround(boundaryX: real): (g: Span)
    ensures g.x2 - g.x1 == 2.0 * BlendPx
    ensures g.x1 + BlendPx == boundaryX == g.x2 - BlendPx
  {
    Span(boundaryX - BlendPx, boundaryX + BlendPx)
  }

  /** The geometry for a year with normalised forest loss `lossNorm` and risk
      `risk01` (the risk already put through the clamped linear scale). */
  function SceneFor(lossNorm: real, risk01: real): (s: Scene)
    ensures s.smokeShare == Share(lossNorm, MinSmoke, MaxSmoke) && s.rainShare == Share(risk01, MinRain, MaxRain)
    ensures s.treeShare + s.smokeShare == 1.0 && s.birdsShare + s.rainShare == 1.0
    ensures s.forestGradient == GradientAround(s.forestBoundaryX) && s.birdGradient == GradientAround(s.birdBoundaryX)
  {
    var smokeShare := Share(lossNorm, MinSmoke, MaxSmoke);
    var treeShare := 1.0 - smokeShare;
    var rainShare := Share(risk01, MinRain, MaxRain);
    var birdsShare := 1.0 - rainShare;
    var forestBoundaryX := SceneX + SceneW * treeShare;
    var birdBoundaryX := SceneX + SceneW * birdsShare;
    Scene(
      smokeShare, treeShare, rainShare, birdsShare,
      forestBoundaryX, birdBoundaryX,
      Rect(SceneX, SceneY, SceneW * treeShare + BlendPx, SceneH),
      Rect(forestBoundaryX - BlendPx, SceneY, SceneW * smokeShare + BlendPx, SceneH),
      Rect(SceneX, SceneY, SceneW * birdsShare + BlendPx, SceneH),
      Rect(birdBoundaryX - BlendPx, SceneY, SceneW * rainShare + BlendPx, SceneH),
      GradientAround(forestBoundaryX),
      GradientAround(birdBoundaryX))
  }

  /** The shares of each pair sum to one and stay inside their bands. */
  lemma SharesInBands(lossNorm: real, risk01: real)
    ensures var s := SceneFor(lossNorm, risk01);
      && MinSmoke <= s.smokeShare <= MaxSmoke && s.treeShare + s.smokeShare == 1.0
      && MinRain <= s.rainShare <= MaxRain && s.birdsShare + s.rainShare == 1.0
  {
  }

  /** Both boundaries lie inside the scene, at the tree (bird) share of its width. */
  lemma BoundariesInScene(lossNorm: real, risk01: real)
    ensures var s := SceneFor(lossNorm, risk01);
      && SceneX <= s.forestBoundaryX <= SceneX + SceneW
      && SceneX <= s.birdBoundaryX <= SceneX + SceneW
      && s.forestBoundaryX - SceneX == SceneW * s.treeShare
      && SceneX + SceneW - s.birdBoundaryX == SceneW * s.rainShare
  {
    var s := SceneFor(lossNorm, risk01);
    assert 0.0 <= s.treeShare <= 1.0 && 0.0 <= s.birdsShare <= 1.0;
  }

  /** Each pair of clips starts at the scene's left edge and ends at its right
      edge, at full scene height, and the two overlap exactly on the band
      [boundary - BlendPx, boundary + BlendPx] where the soft gradient runs. */
  lemma ClipsTileScene(lossNorm: real, risk01: real)
    ensures var s := SceneFor(lossNorm, risk01);
      && s.clipTrees.x == SceneX && Right(s.clipSmoke) == SceneX + SceneW
      && s.clipSmoke.x == s.forestGradient.x1 && Right(s.clipTrees) == s.forestGradient.x2
      && s.clipBirds.x == SceneX && Right(s.clipRain) == SceneX + SceneW
      && s.clipRain.x == s.birdGradient.x1 && Right(s.clipBirds) == s.birdGradient.x2
      && s.clipSmoke.x < Right(s.clipTrees) && s.clipRain.x < Right(s.clipBirds)
      && s.clipTrees.y == s.clipSmoke.y == s.clipBirds.y == s.clipRain.y == SceneY
      && s.clipTrees.height == s.clipSmoke.height == s.clipBirds.height == s.clipRain.height == SceneH
  {
  }

  /** More forest loss moves the tree/smoke boundary left (or leaves it). */
  lemma MoreLossMoreSmoke(loss1: real, loss2: real, risk01: real)
    requires loss1 <= loss2
    ensures SceneFor(loss2, risk01).forestBoundaryX <= SceneFor(loss1, risk01).forestBoundaryX
  {
    ShareMonotone(loss1, loss2, MinSmoke, MaxSmoke);
  }

  /** Higher risk moves the bird/rain boundary left (or leaves it). */
  lemma MoreRiskMoreRain(lossNorm: real, risk1: real, risk2: real)
    requires risk1 <= risk2
    ensures SceneFor(lossNorm, risk2).birdBoundaryX <= SceneFor(lossNorm, risk1).birdBoundaryX
  {
    ShareMonotone(risk1, risk2, MinRain, MaxRain);
  }

  /** One CSV row after d3.autoType. */
  datatype ForestRow = ForestRow(year: int, forestLoss: real, forestLossNorm: real, rli: real, risk: real)

  function ByYear(d: ForestRow): real
  {
    d.year as real
  }

  /** The load callback's state: the rows sorted by year, the risk scale, and
      the selected index with the slider showing it. */
  class ForestViewer {
    const data: seq<ForestRow>
    const riskTo01: real -> real
    var idx: int
    var sliderValue: int

    ghost predicate Valid()
      reads this
    {
      0 <= idx < |data| && sliderValue == idx && SortedBy(data, ByYear)
    }

    /** The picture for the selected year. */
    function Current(): Scene
      reads this
      requires Valid()
    {
      SceneFor(data[idx].forestLossNorm, riskTo01(data[idx].risk))
    }

    constructor (rows: seq<ForestRow>, riskTo01: real -> real)
      requires rows != []
      ensures Valid()
      ensures data == SortBy(rows, ByYear) && multiset(data) == multiset(rows) && this.riskTo01 == riskTo01
      ensures idx == |data| - 1
    {
      data := SortBy(rows, ByYear);
      this.riskTo01 := riskTo01;
      idx := |rows| - 1;
      sliderValue := |rows| - 1;
      new;
      SortByIsSortedPermutation(rows, ByYear);
    }

    /** The previous-year button: one step back, never before the first year. */
    method Prev()
      requires Valid()
      modifies this
      ensures Valid()
      ensures old(idx) > 0 ==> idx == old(idx) - 1
      ensures old(idx) == 0 ==> idx == 0
    {
      idx := Max(0, idx - 1);
      sliderValue := idx;
    }

    /** The next-year button: one step forward, never past the last year. */
    method Next()
      requires Valid()
      modifies this
      ensures Valid()
      ensures old(idx) < |data| - 1 ==> idx == old(idx) + 1
      ensures old(idx) == |data| - 1 ==> idx == old(idx)
    {
      idx := Min(|data| - 1, idx + 1);
      sliderValue := idx;
    }

    /** The slider (range 0 .. |data| - 1) selects the index directly. */
    method SliderInput(v: int)
      requires Valid() && 0 <= v < |data|
      modifies this
      ensures Valid() && idx == v
    {
      sliderValue := v;
      idx := v;
    }
  }

  /** The CSV callback: with no row, `render(data[idx])` throws and the error
      message is shown instead (null); otherwise the viewer starts at the last
      year. */
  method Load(rows: seq<ForestRow>, riskTo01: real -> real) returns (viewer: ForestViewer?)
    ensures rows == [] <==> viewer == null
    ensures viewer != null ==>
      fresh(viewer) && viewer.Valid() && multiset(viewer.data) == multiset(rows) && viewer.idx == |rows| - 1
  {
    if rows == [] {
      return null;
    }
    viewer := new ForestViewer(rows, riskTo01);
  }
}
