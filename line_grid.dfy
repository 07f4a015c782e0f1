/**
  The grid of line segments drawn in each stimulus frame (`make_frames` in
  lorenceau-experiment.cc).  The loop variables are C `int`s while the step
  `sx + spacing` is a `float`: every `x += sx + spacing` converts the sum back
  to `int`, truncating toward zero.  Only the segment origins are modelled; the
  Cairo strokes themselves are not.
*/
module LineGrid {

  /** C's conversion of a floating value to `int`: truncation toward zero. */
  function Trunc(x: real): (r: int)
    ensures 0.0 <= x ==> r as real <= x < r as real + 1.0
    ensures x < 0.0 ==> r as real - 1.0 < x <= r as real
  {
    if x >= 0.0 then x.Floor else -((-x).Floor)
  }

  /** `v += step` on an `int` variable with a floating step. */
  function Advance(v: int, step: real): int {
    Trunc(v as real + step)
  }

  /**
    One step moves by the step rounded down (at or right of zero) or up
    (left of zero): so by at least one pixel when the step is at least one.
  */
  lemma AdvanceByStep(v: int, step: real)
    requires step >= 1.0
    ensures Advance(v, step) >= v + 1
    ensures v as real + step >= 0.0 ==> Advance(v, step) - v == step.Floor
    ensures v as real + step < 0.0 ==> Advance(v, step) - v == -((-step).Floor)
  {
    var x := v as real + step;
    if x >= 0.0 {
      assert x.Floor == v + step.Floor;
    } else {
      assert (-x).Floor == -v + (-step).Floor;
    }
  }

  /** Distance to the loop bound, in whole pixels. */
  function Gap(v: int, bound: real): nat {
    if (v as real) < bound then (bound - v as real).Floor + 1 else 0
  }

  lemma GapDecreases(v: int, w: int, bound: real)
    requires (v as real) < bound && w >= v + 1
    ensures Gap(w, bound) < Gap(v, bound)
  {
    if (w as real) < bound {
      assert (bound - w as real).Floor <= (bound - v as real).Floor - 1;
    }
  }

  /** The values `for (v = start; v < bound; v += step)` takes. */
  function Steps(start: int, step: real, bound: real): seq<int>
    requires step >= 1.0
    decreases Gap(start, bound)
  {
    if (start as real) < bound then
      AdvanceByStep(start, step);
      GapDecreases(start, Advance(start, step), bound);
      [start] + Steps(Advance(start, step), step, bound)
    else []
  }

  /**
    The loop's values start at `start`, stay below `bound`, each follows from
    the one before by one step, and one more step would leave the range.
  */
  lemma {:induction false} StepsProperties(start: int, step: real, bound: real)
    requires step >= 1.0
    ensures var vs := Steps(start, step, bound);
      && (|vs| > 0 <==> (start as real) < bound)
      && (|vs| > 0 ==> vs[0] == start)
      && (forall k :: 0 <= k < |vs| ==> (vs[k] as real) < bound)
      && (forall k :: 0 < k < |vs| ==> vs[k] == Advance(vs[k - 1], step))
      && (|vs| > 0 ==> (Advance(vs[|vs| - 1], step) as real) >= bound)
    decreases Gap(start, bound)
  {
    if (start as real) < bound {
      var next := Advance(start, step);
      AdvanceByStep(start, step);
      GapDecreases(start, next, bound);
      StepsProperties(next, step, bound);
      var rest := Steps(next, step, bound);
      assert Steps(start, step, bound) == [start] + rest;
    }
  }

  /** One iteration of the loop: its value, then the values from one step further, which is closer to the bound. */
  lemma StepOnce(v: int, step: real, bound: real)
    requires step >= 1.0 && (v as real) < bound
    ensures Steps(v, step, bound) == [v] + Steps(Advance(v, step), step, bound)
    ensures Gap(Advance(v, step), bound) < Gap(v, bound)
  {
    AdvanceByStep(v, step);
    GapDecreases(v, Advance(v, step), bound);
  }

  /** The loop runs strictly increasing values. */
  lemma {:induction false} StepsIncreasing(start: int, step: real, bound: real, k: nat)
    requires step >= 1.0 && 0 < k < |Steps(start, step, bound)|
    ensures Steps(start, step, bound)[k - 1] < Steps(start, step, bound)[k]
  {
    StepsProperties(start, step, bound);
    AdvanceByStep(Steps(start, step, bound)[k - 1], step);
  }

  datatype Point = Point(x: int, y: int)

  /** The origins `(x, y)` of one column, for every y in ys. */
  function Column(x: int, ys: seq<int>): (r: seq<Point>)
    ensures |r| == |ys|
    ensures forall k :: 0 <= k < |ys| ==> r[k] == Point(x, ys[k])
  {
    seq(|ys|, k requires 0 <= k < |ys| => Point(x, ys[k]))
  }

  /** The origins of the nested loops: for each x in xs, every y in ys. */
  function Product(xs: seq<int>, ys: seq<int>): seq<Point> {
    if xs == [] then [] else Product(xs[..|xs| - 1], ys) + Column(xs[|xs| - 1], ys)
  }

  /** One more x adds its column at the end. */
  lemma ProductSnoc(xs: seq<int>, x: int, ys: seq<int>)
    ensures Product(xs + [x], ys) == Product(xs, ys) + Column(x, ys)
  {
    assert (xs + [x])[..|xs|] == xs;
  }

  lemma {:induction false} ProductMember(xs: seq<int>, ys: seq<int>, p: Point)
    requires p in Product(xs, ys)
    ensures p.x in xs && p.y in ys
  {
    if xs != [] {
      var init := xs[..|xs| - 1];
      if p in Product(init, ys) {
        ProductMember(init, ys, p);
        assert p.x in init;
      } else {
        assert p in Column(xs[|xs| - 1], ys);
      }
    }
  }

  /** Frame geometry: texture offset of the aperture, per-frame displacement, segment extent, spacing, texture size. */
  datatype GridParams = GridParams(
    offx: int, offy: int,
    dx: int, dy: int,
    sx: nat, sy: nat,
    spacing: real,
    texWidth: int, texHeight: int)

  function XStep(g: GridParams): real { g.sx as real + g.spacing }
  function YStep(g: GridParams): real { g.sy as real + g.spacing }
  function XBound(g: GridParams): real { g.texWidth as real + XStep(g) }
  function YBound(g: GridParams): real { g.texHeight as real + YStep(g) }

  /** The loops make progress only when each step is at least one pixel. */
  predicate StepsProgress(g: GridParams) {
    XStep(g) >= 1.0 && YStep(g) >= 1.0
  }

  /** First x of frame i: `offx + i*dx - (sx+spacing)`, truncated into an `int`. */
  function XStart(g: GridParams, i: int): int {
    Trunc((g.offx + i * g.dx) as real - XStep(g))
  }

  /** First y of frame i: `offy + i*dy`. */
  function YStart(g: GridParams, i: int): int {
    g.offy + i * g.dy
  }

  function XValues(g: GridParams, i: int): seq<int>
    requires StepsProgress(g)
  {
    Steps(XStart(g, i), XStep(g), XBound(g))
  }

  function YValues(g: GridParams, i: int): seq<int>
    requires StepsProgress(g)
  {
    Steps(YStart(g, i), YStep(g), YBound(g))
  }

  /** All segment origins of frame i, in drawing order. */
  function FrameOrigins(g: GridParams, i: int): seq<Point>
    requires StepsProgress(g)
  {
    Product(XValues(g, i), YValues(g, i))
  }

  /** Every origin drawn lies left of `tex_width+sx+spacing` and above `tex_height+sy+spacing`. */
  lemma OriginsInBounds(g: GridParams, i: int, p: Point)
    requires StepsProgress(g) && p in FrameOrigins(g, i)
    ensures (p.x as real) < XBound(g) && (p.y as real) < YBound(g)
  {
    ProductMember(XValues(g, i), YValues(g, i), p);
    StepsProperties(XStart(g, i), XStep(g), XBound(g));
    StepsProperties(YStart(g, i), YStep(g), YBound(g));
  }

  /** The inner loop of `make_frames`: one column of origins at x. */
  method ColumnOrigins(x: int, ystart: int, ystep: real, ybound: real) returns (col: seq<Point>)
    requires ystep >= 1.0
    ensures col == Column(x, Steps(ystart, ystep, ybound))
  {
    ghost var ys := Steps(ystart, ystep, ybound);
    ghost var doneY: seq<int> := [];
    col := [];
    var y := ystart;
    while (y as real) < ybound
      invariant ys == doneY + Steps(y, ystep, ybound)
      invariant col == Column(x, doneY)
      decreases Gap(y, ybound)
    {
      var next := Trunc(y as real + ystep);
      StepOnce(y, ystep, ybound);
      ghost var rest := Steps(next, ystep, ybound);
      assert doneY + ([y] + rest) == (doneY + [y]) + rest;
      assert Column(x, doneY + [y]) == Column(x, doneY) + [Point(x, y)];
      col := col + [Point(x, y)];
      doneY := doneY + [y];
      y := next;
    }
    assert doneY == ys;
  }

  /** One pass of the outer loop keeps its invariant and brings x closer to the bound. */
  lemma GridStep(xs: seq<int>, doneX: seq<int>, x: int, step: real, bound: real,
                 ys: seq<int>, pts: seq<Point>, col: seq<Point>)
    requires step >= 1.0 && (x as real) < bound
    requires xs == doneX + Steps(x, step, bound) && pts == Product(doneX, ys) && col == Column(x, ys)
    ensures xs == (doneX + [x]) + Steps(Advance(x, step), step, bound)
    ensures pts + col == Product(doneX + [x], ys)
    ensures Gap(Advance(x, step), bound) < Gap(x, bound)
  {
    StepOnce(x, step, bound);
    var rest := Steps(Advance(x, step), step, bound);
    assert doneX + ([x] + rest) == (doneX + [x]) + rest;
    ProductSnoc(doneX, x, ys);
  }

  /** The outer loop of `make_frames`: one column per x, each holding every y. */
  method GridOrigins(xstart: int, xstep: real, xbound: real, ystart: int, ystep: real, ybound: real)
    returns (pts: seq<Point>)
    requires xstep >= 1.0 && ystep >= 1.0
    ensures pts == Product(Steps(xstart, xstep, xbound), Steps(ystart, ystep, ybound))
  {
    ghost var xs := Steps(xstart, xstep, xbound);
    ghost var ys := Steps(ystart, ystep, ybound);
    ghost var doneX: seq<int> := [];
    pts := [];
    var x := xstart;
    while (x as real) < xbound
      invariant xs == doneX + Steps(x, xstep, xbound)
      invariant pts == Product(doneX, ys)
      decreases Gap(x, xbound)
    {
      var col := ColumnOrigins(x, ystart, ystep, ybound);
      var next := Trunc(x as real + xstep);
      GridStep(xs, doneX, x, xstep, xbound, ys, pts, col);
      pts := pts + col;
      doneX := doneX + [x];
      x := next;
    }
    assert doneX == xs;
  }

  /** The nested loops of `make_frames` for frame i. */
  method LineOrigins(g: GridParams, i: int) returns (pts: seq<Point>)
    requires StepsProgress(g)
    ensures pts == FrameOrigins(g, i)
    ensures forall p :: p in pts ==> (p.x as real) < XBound(g) && (p.y as real) < YBound(g)
  {
    var x := Trunc((g.offx + i * g.dx) as real - (g.sx as real + g.spacing));
    var y := g.offy + i * g.dy;
    pts := GridOrigins(x, XStep(g), XBound(g), y, YStep(g), YBound(g));
    forall p | p in pts
      ensures (p.x as real) < XBound(g) && (p.y as real) < YBound(g)
    {
      OriginsInBounds(g, i, p);
    }
  }
}
