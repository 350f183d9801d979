/** The flowchart viewport: a zoom scale clamped to [0.5, 2.25], a translation
    moved by dragging, and the pointer state that drives the drag. */
module PanZoom {
  import opened Seqs

  const MinScale: real := 0.5
  const MaxScale: real := 2.25
  /** The factor one click of a zoom button multiplies or divides by. */
  const ButtonStep: real := 1.05

  /** A wheel event's zoom factor, `Math.exp(-deltaY * 0.001)`: always positive. */
  type Factor = r: real | r > 0.0 witness 1.0

  datatype Point = Point(x: real, y: real)

  /** The hook's state: `scale`, `tx`, `ty`, and the two refs `draggingRef`
      and `lastRef`. */
  datatype View = View(scale: real, tx: real, ty: real, dragging: bool, last: Point)

  /** The state before the first render. */
  const Initial: View := View(1.0, 0.0, 0.0, false, Point(0.0, 0.0))

  /** The one-time mount effect shifts the view 120 units left. */
  function Mounted(v: View): (w: View)
    ensures w.tx == -120.0 && w.ty == 0.0
    ensures w.scale == v.scale && w.dragging == v.dragging && w.last == v.last
  {
    v.(tx := -120.0, ty := 0.0)
  }

  function Min(a: real, b: real): real {
    if a <= b then a else b
  }

  function Max(a: real, b: real): real {
    if a >= b then a else b
  }

  predicate InRange(v: View) {
    MinScale <= v.scale <= MaxScale
  }

  /** `onWheel`: the scale times the factor, clamped on both sides. */
  function Wheel(v: View, f: Factor): (w: View)
    ensures MinScale <= w.scale <= MaxScale
    ensures MinScale <= v.scale * f <= MaxScale ==> w.scale == v.scale * f
    ensures v.scale * f < MinScale ==> w.scale == MinScale
    ensures v.scale * f > MaxScale ==> w.scale == MaxScale
    ensures w.(scale := v.scale) == v
  {
    var next := Min(MaxScale, Max(MinScale, v.scale * f));
    if next != v.scale then v.(scale := next) else v
  }

  /** The zoom-in button: clamped above only. */
  function ZoomIn(v: View): (w: View)
    ensures w.scale <= MaxScale
    ensures v.scale * ButtonStep <= MaxScale ==> w.scale == v.scale * ButtonStep
    ensures v.scale * ButtonStep > MaxScale ==> w.scale == MaxScale
    ensures w.(scale := v.scale) == v
  {
    v.(scale := Min(MaxScale, v.scale * ButtonStep))
  }

  /** The zoom-out button: clamped below only. */
  function ZoomOut(v: View): (w: View)
    ensures w.scale >= MinScale
    ensures v.scale / ButtonStep >= MinScale ==> w.scale == v.scale / ButtonStep
    ensures v.scale / ButtonStep < MinScale ==> w.scale == MinScale
    ensures w.(scale := v.scale) == v
  {
    v.(scale := Max(MinScale, v.scale / ButtonStep))
  }

  /** `onMouseDown`: start dragging from the pointer's position. */
  function MouseDown(v: View, p: Point): (w: View)
    ensures w.dragging && w.last == p
    ensures w.scale == v.scale && w.tx == v.tx && w.ty == v.ty
  {
    v.(dragging := true, last := p)
  }

  /** `onMouseMove`: while dragging, translate by the pointer's displacement
      since the last event; otherwise do nothing. */
  function MouseMove(v: View, p: Point): (w: View)
    ensures !v.dragging ==> w == v
    ensures v.dragging ==> w.last == p && w.dragging
    ensures v.dragging ==> w.tx - v.tx == p.x - v.last.x && w.ty - v.ty == p.y - v.last.y
    ensures w.scale == v.scale
  {
    if !v.dragging then v
    else
      var dx := p.x - v.last.x;
      var dy := p.y - v.last.y;
      v.(last := p, tx := v.tx + dx, ty := v.ty + dy)
  }

  /** `onMouseUp`: stop dragging. */
  function MouseUp(v: View): (w: View)
    ensures !w.dragging
    ensures w.(dragging := v.dragging) == v
  {
    v.(dragging := false)
  }

  datatype Event = WheelBy(f: Factor) | ZoomInClick | ZoomOutClick | Down(p: Point) | Move(p: Point) | Up

  /** One event: the wheel and the buttons only rescale, a drag only pans,
      and only pressing or releasing the button starts or stops a drag. Every
      event keeps the scale within its bounds. */
  function Step(v: View, e: Event): (w: View)
    ensures InRange(v) ==> InRange(w)
    ensures w.scale != v.scale ==> e.WheelBy? || e.ZoomInClick? || e.ZoomOutClick?
    ensures w.tx != v.tx || w.ty != v.ty ==> e.Move? && v.dragging
    ensures w.dragging <==> e.Down? || (v.dragging && !e.Up?)
  {
    match e
    case WheelBy(f) => Wheel(v, f)
    case ZoomInClick => ZoomIn(v)
    case ZoomOutClick => ZoomOut(v)
    case Down(p) => MouseDown(v, p)
    case Move(p) => MouseMove(v, p)
    case Up => MouseUp(v)
  }

  /** The view after a sequence of events, applied in order. */
  function Run(v: View, es: seq<Event>): View
    decreases |es|
  {
    if es == [] then v else Run(Step(v, es[0]), es[1..])
  }

  /** Starting in range, the scale stays in range whatever happens. */
  lemma {:induction false} RunKeepsRange(v: View, es: seq<Event>)
    requires InRange(v)
    ensures InRange(Run(v, es))
    decreases |es|
  {
    if es != [] {
      RunKeepsRange(Step(v, es[0]), es[1..]);
    }
  }

  /** From the initial state, and from the mounted state, the scale stays in range. */
  lemma InitialKeepsRange(es: seq<Event>)
    ensures InRange(Run(Initial, es)) && InRange(Run(Mounted(Initial), es))
  {
    RunKeepsRange(Initial, es);
    RunKeepsRange(Mounted(Initial), es);
  }

  lemma MulMonotone(x: real, f: real, g: real, a: real, b: real)
    requires x >= 0.0 && f <= g
    requires a == x * f && b == x * g
    ensures a <= b
  {
    assert b - a == x * (g - f);
  }

  /** The wheel zooms monotonically: a larger factor never gives a smaller scale. */
  lemma WheelMonotone(v: View, f: Factor, g: Factor)
    requires v.scale >= 0.0 && f <= g
    ensures Wheel(v, f).scale <= Wheel(v, g).scale
  {
    var a, b := v.scale * f, v.scale * g;
    MulMonotone(v.scale, f, g, a, b);
    var wf, wg := Wheel(v, f), Wheel(v, g);
    ClampMonotone(a, b, wf.scale, wg.scale);
  }

  /** Clamping into [MinScale, MaxScale] keeps the order of its inputs. */
  lemma ClampMonotone(a: real, b: real, ca: real, cb: real)
    requires a <= b
    requires MinScale <= ca <= MaxScale && MinScale <= cb <= MaxScale
    requires MinScale <= a <= MaxScale ==> ca == a
    requires a < MinScale ==> ca == MinScale
    requires a > MaxScale ==> ca == MaxScale
    requires MinScale <= b <= MaxScale ==> cb == b
    requires b < MinScale ==> cb == MinScale
    requires b > MaxScale ==> cb == MaxScale
    ensures ca <= cb
  {
  }

  /** Pointer moves while not dragging change nothing. */
  lemma {:induction false} IdleMovesChangeNothing(v: View, ps: seq<Point>)
    requires !v.dragging
    ensures Run(v, Map((p: Point) => Move(p), ps)) == v
    decreases |ps|
  {
    if ps != [] {
      var ms := Map((p: Point) => Move(p), ps);
      assert ms[1..] == Map((p: Point) => Move(p), ps[1..]);
      assert Step(v, ms[0]) == v;
      IdleMovesChangeNothing(v, ps[1..]);
    }
  }

  /** While dragging, the translation moves by the pointer's total
      displacement: the incremental deltas telescope. */
  lemma {:induction false} DragTelescopes(v: View, ps: seq<Point>)
    requires v.dragging && |ps| > 0
    ensures var w := Run(v, Map((p: Point) => Move(p), ps));
            && w.dragging && w.last == ps[|ps| - 1] && w.scale == v.scale
            && w.tx == v.tx + (ps[|ps| - 1].x - v.last.x)
            && w.ty == v.ty + (ps[|ps| - 1].y - v.last.y)
    decreases |ps|
  {
    var ms := Map((p: Point) => Move(p), ps);
    var u := MouseMove(v, ps[0]);
    assert ms[1..] == Map((p: Point) => Move(p), ps[1..]);
    assert Step(v, ms[0]) == u;
    if |ps| == 1 {
      assert ms[1..] == [];
    } else {
      DragTelescopes(u, ps[1..]);
    }
  }

  /** Pressing at (100, 100), dragging through (140, 130) to (150, 90) and
      releasing moves the view by (50, -10) and ends the drag. */
  lemma DragExample(v: View)
    ensures var w := Run(v, [Down(Point(100.0, 100.0)), Move(Point(140.0, 130.0)), Move(Point(150.0, 90.0)), Up]);
            && w.tx == v.tx + 50.0 && w.ty == v.ty - 10.0 && !w.dragging && w.scale == v.scale
  {
  }
}
