/**
 Compiling named targets to HID coordinates with an error budget
 (foundation/aoa_semantics.py, target_point in foundation/aoa_display.py, and
 the live variant in worker_agent/aoa_semantics.py).
 */
module SemanticPlan {
  import opened Wrappers
  import opened Rounding
  import opened AoaDisplay

  /** A control in normalized layout coordinates. */
  datatype Target = Target(point: Point, bounds: Rect)

  // ---- Geometry of the layout ----

  /** A quarter turn of the unit square, `quarters` times. */
  function Turn(p: Point, quarters: int): Point {
    if quarters == 0 then p
    else if quarters == 1 then Point(1.0 - p.y, p.x)
    else if quarters == 2 then Point(1.0 - p.x, 1.0 - p.y)
    else Point(p.y, 1.0 - p.x)
  }

  function Pixels(p: Point, frame: Rect, display: Size): Point {
    Point((frame.left + p.x * frame.Width()) * display.width, (frame.top + p.y * frame.Height()) * display.height)
  }

  /** Where the turned control lies on the display: the box around its turned corners. */
  function TurnedBounds(b: Rect, quarters: int): Rect {
    var p, q := Turn(Point(b.left, b.top), quarters), Turn(Point(b.right, b.bottom), quarters);
    Rect(Min(p.x, q.x), Min(p.y, q.y), p.x + q.x - Min(p.x, q.x), p.y + q.y - Min(p.y, q.y))
  }

  function PixelBounds(b: Rect, quarters: int, frame: Rect, display: Size): Rect {
    var t := TurnedBounds(b, quarters);
    var p, q := Pixels(Point(t.left, t.top), frame, display), Pixels(Point(t.right, t.bottom), frame, display);
    Rect(p.x, p.y, q.x, q.y)
  }

  predicate Inside(p: Point, r: Rect) {
    r.left < p.x < r.right && r.top < p.y < r.bottom
  }

  /** A point is in a control exactly when its turned image is in the turned control. */
  lemma TurnKeepsInside(p: Point, b: Rect, quarters: int)
    requires IsRect(b) && 0 <= quarters < 4
    ensures Inside(p, b) <==> Inside(Turn(p, quarters), TurnedBounds(b, quarters))
  {
  }

  // ---- target_point ----

  /** Distances from the reference point to the nearest vertical and horizontal edges, turned. */
  function EdgeX(t: Target, quarters: int): real {
    if quarters % 2 == 0 then Min(t.point.x - t.bounds.left, t.bounds.right - t.point.x)
    else Min(t.point.y - t.bounds.top, t.bounds.bottom - t.point.y)
  }

  function EdgeY(t: Target, quarters: int): real {
    EdgeX(t, quarters + 1)
  }

  function MarginX(t: Target, quarters: int, frame: Rect, display: Size): real {
    EdgeX(t, quarters) * frame.Width() * display.width
  }

  function MarginY(t: Target, quarters: int, frame: Rect, display: Size): real {
    EdgeY(t, quarters) * frame.Height() * display.height
  }

  function Tolerance(t: Target, quarters: int, frame: Rect, display: Size): real {
    Min(8.0, Min(MarginX(t, quarters, frame, display) / 2.0, MarginY(t, quarters, frame, display) / 2.0))
  }

  /**
   `target_point` with the budget `maxError` plus the length of (`dx`, `dy`):
   the pixel of the turned reference point.
   */
  function TargetPoint(t: Target, frame: Rect, display: Size, quarters: int, maxError: real, dx: real, dy: real)
    : Result<Point, Error>
  {
    if !IsNormalized(frame) || !IsNormalized(t.bounds) then Err("invalid display rectangle")
    else if !Inside(t.point, t.bounds) then Err("semantic reference point must be inside its control bounds")
    else if !(0 <= quarters < 4) then Err("invalid explicit layout rotation")
    else if !Fits(maxError, dx, dy, Tolerance(t, quarters, frame, display)) then
      Err("verified mapping error exceeds this control's safe click margin")
    else Ok(Pixels(Turn(t.point, quarters), frame, display))
  }

  // ---- compile_plan ----

  /** The certified facts about the reference device class. */
  datatype Case = Case(rotation: int, viewport: Option<Rect>, maxError: real)

  /** The layout in use and the display it was certified for. */
  datatype Layout = Layout(targets: map<string, Target>, frame: Rect, quarters: int, display: Size)

  /** The inner `point` of `compile_plan`: invert, cook again, and charge the rounding to the budget. */
  function CompilePoint(t: Target, layout: Layout, c: Case): Result<(int, int), Error> {
    var p := TargetPoint(t, layout.frame, layout.display, layout.quarters, c.maxError, 0.0, 0.0);
    if p.Err? then Err(p.error)
    else
      var hid := StandardInverse(p.value.x, p.value.y, layout.display, c.rotation, c.viewport);
      if hid.Err? then Err(hid.error)
      else
        var cooked := StandardPoint(hid.value.0 as real, hid.value.1 as real, layout.display, c.rotation, c.viewport);
        if cooked.Err? then Err(cooked.error)
        else
          var again := TargetPoint(t, layout.frame, layout.display, layout.quarters, c.maxError,
            p.value.x - cooked.value.x, p.value.y - cooked.value.y);
          if again.Err? then Err(again.error) else hid
  }

  /** `landing` is no farther than `maxError` from where the HID position is cooked. */
  predicate Lands(landing: Point, cooked: Point, maxError: real) {
    var dx, dy := landing.x - cooked.x, landing.y - cooked.y;
    dx * dx + dy * dy <= maxError * maxError
  }

  /** At least this far inside every edge. */
  predicate Within(p: Point, r: Rect, marginX: real, marginY: real) {
    r.left + marginX <= p.x <= r.right - marginX && r.top + marginY <= p.y <= r.bottom - marginY
  }

  lemma Spread(a: real, b: real, edge: real, size: real, extent: real, offset: real)
    requires edge <= b - a && size > 0.0 && extent > 0.0
    ensures (offset + b * size) * extent - (offset + a * size) * extent >= edge * size * extent
  {
    var k := size * extent;
    assert (offset + b * size) * extent - (offset + a * size) * extent == (b - a) * k;
    assert edge * size * extent == edge * k;
    assert (b - a) * k >= edge * k;
  }

  lemma TurnedEdges(t: Target, quarters: int)
    requires Inside(t.point, t.bounds) && 0 <= quarters < 4
    ensures var p, b := Turn(t.point, quarters), TurnedBounds(t.bounds, quarters);
      && EdgeX(t, quarters) <= p.x - b.left && EdgeX(t, quarters) <= b.right - p.x
      && EdgeY(t, quarters) <= p.y - b.top && EdgeY(t, quarters) <= b.bottom - p.y
  {
  }

  /** The turned reference point keeps the margins from the edges of the turned control. */
  lemma ReferenceKeepsMargins(t: Target, frame: Rect, display: Size, quarters: int)
    requires IsNormalized(frame) && IsNormalized(t.bounds) && Inside(t.point, t.bounds) && 0 <= quarters < 4
    requires display.width > 0.0 && display.height > 0.0
    ensures Within(Pixels(Turn(t.point, quarters), frame, display), PixelBounds(t.bounds, quarters, frame, display),
                   MarginX(t, quarters, frame, display), MarginY(t, quarters, frame, display))
  {
    hide Turn, TurnedBounds, EdgeX, EdgeY;
    TurnedEdges(t, quarters);
    var p, b := Turn(t.point, quarters), TurnedBounds(t.bounds, quarters);
    var ex, ey := EdgeX(t, quarters), EdgeY(t, quarters);
    Spread(b.left, p.x, ex, frame.Width(), display.width, frame.left);
    Spread(p.x, b.right, ex, frame.Width(), display.width, frame.left);
    Spread(b.top, p.y, ey, frame.Height(), display.height, frame.top);
    Spread(p.y, b.bottom, ey, frame.Height(), display.height, frame.top);
  }

  lemma MarginsPositive(t: Target, frame: Rect, display: Size, quarters: int)
    requires IsNormalized(frame) && Inside(t.point, t.bounds)
    requires display.width > 0.0 && display.height > 0.0
    ensures MarginX(t, quarters, frame, display) > 0.0 && MarginY(t, quarters, frame, display) > 0.0
  {
    ProductPositive(EdgeX(t, quarters), frame.Width());
    ProductPositive(EdgeX(t, quarters) * frame.Width(), display.width);
    ProductPositive(EdgeY(t, quarters), frame.Height());
    ProductPositive(EdgeY(t, quarters) * frame.Height(), display.height);
  }

  /** Two hops that fit a budget stay within it along each axis. */
  lemma TwoHops(landing: Point, cooked: Point, reference: Point, maxError: real, limit: real)
    requires maxError >= 0.0 && Lands(landing, cooked, maxError)
    requires Fits(maxError, reference.x - cooked.x, reference.y - cooked.y, limit)
    ensures Abs(landing.x - reference.x) <= limit && Abs(landing.y - reference.y) <= limit
  {
    LegBound(landing.x - cooked.x, landing.y - cooked.y, maxError);
    LegBound(reference.x - cooked.x, reference.y - cooked.y, limit - maxError);
  }

  // ---- Where a control is on the display, edge by edge ----

  /** The pixel column of a horizontal layout coordinate, and the pixel row of a vertical one. */
  function Column(a: real, frame: Rect, display: Size): real {
    (frame.left + a * (frame.right - frame.left)) * display.width
  }

  function Row(a: real, frame: Rect, display: Size): real {
    (frame.top + a * (frame.bottom - frame.top)) * display.height
  }

  /** The pixel of a layout point for each of the four layout rotations. */
  function OnDisplay(p: Point, quarters: int, frame: Rect, display: Size): Point {
    if quarters == 0 then Point(Column(p.x, frame, display), Row(p.y, frame, display))
    else if quarters == 1 then Point(Column(1.0 - p.y, frame, display), Row(p.x, frame, display))
    else if quarters == 2 then Point(Column(1.0 - p.x, frame, display), Row(1.0 - p.y, frame, display))
    else Point(Column(p.y, frame, display), Row(1.0 - p.x, frame, display))
  }

  /** The pixel box of a control for each of the four layout rotations. */
  function BoxOnDisplay(b: Rect, quarters: int, frame: Rect, display: Size): Rect {
    if quarters == 0 then
      Rect(Column(b.left, frame, display), Row(b.top, frame, display),
           Column(b.right, frame, display), Row(b.bottom, frame, display))
    else if quarters == 1 then
      Rect(Column(1.0 - b.bottom, frame, display), Row(b.left, frame, display),
           Column(1.0 - b.top, frame, display), Row(b.right, frame, display))
    else if quarters == 2 then
      Rect(Column(1.0 - b.right, frame, display), Row(1.0 - b.bottom, frame, display),
           Column(1.0 - b.left, frame, display), Row(1.0 - b.top, frame, display))
    else
      Rect(Column(b.top, frame, display), Row(1.0 - b.right, frame, display),
           Column(b.bottom, frame, display), Row(1.0 - b.left, frame, display))
  }

  /** The corners of the layout are the corners of the frame, in pixels. */
  lemma LayoutFillsFrame(frame: Rect, display: Size)
    ensures Column(0.0, frame, display) == frame.left * display.width
    ensures Column(1.0, frame, display) == frame.right * display.width
    ensures Row(0.0, frame, display) == frame.top * display.height
    ensures Row(1.0, frame, display) == frame.bottom * display.height
  {}

  /** Each quarter turn takes the top left and top right corners of the layout clockwise round the frame. */
  lemma CornersTurnClockwise(frame: Rect, display: Size)
    ensures var left, right := frame.left * display.width, frame.right * display.width;
      var top, bottom := frame.top * display.height, frame.bottom * display.height;
      var first, second := Point(0.0, 0.0), Point(1.0, 0.0);
      && Pixels(Turn(first, 0), frame, display) == Point(left, top)
      && Pixels(Turn(second, 0), frame, display) == Point(right, top)
      && Pixels(Turn(first, 1), frame, display) == Point(right, top)
      && Pixels(Turn(second, 1), frame, display) == Point(right, bottom)
      && Pixels(Turn(first, 2), frame, display) == Point(right, bottom)
      && Pixels(Turn(second, 2), frame, display) == Point(left, bottom)
      && Pixels(Turn(first, 3), frame, display) == Point(left, bottom)
      && Pixels(Turn(second, 3), frame, display) == Point(left, top)
  {}

  lemma PixelsByAxis(p: Point, frame: Rect, display: Size)
    ensures Pixels(p, frame, display) == Point(Column(p.x, frame, display), Row(p.y, frame, display))
  {}

  lemma PointIsOnDisplay(p: Point, quarters: int, frame: Rect, display: Size)
    ensures Pixels(Turn(p, quarters), frame, display) == OnDisplay(p, quarters, frame, display)
  {
    PixelsByAxis(Turn(p, quarters), frame, display);
    hide Pixels, Column, Row;
  }

  lemma BoxIsOnDisplay(b: Rect, quarters: int, frame: Rect, display: Size)
    requires IsRect(b) && 0 <= quarters < 4
    ensures PixelBounds(b, quarters, frame, display) == BoxOnDisplay(b, quarters, frame, display)
  {
    TurnedCorners(b, quarters);
    var t := TurnedBounds(b, quarters);
    PixelsByAxis(Point(t.left, t.top), frame, display);
    PixelsByAxis(Point(t.right, t.bottom), frame, display);
    hide TurnedBounds, Pixels, Column, Row;
  }

  lemma TurnedCorners(b: Rect, quarters: int)
    requires IsRect(b) && 0 <= quarters < 4
    ensures TurnedBounds(b, quarters) ==
      if quarters == 0 then b
      else if quarters == 1 then Rect(1.0 - b.bottom, b.left, 1.0 - b.top, b.right)
      else if quarters == 2 then Rect(1.0 - b.right, 1.0 - b.bottom, 1.0 - b.left, 1.0 - b.top)
      else Rect(b.top, 1.0 - b.right, b.bottom, 1.0 - b.left)
  {}

  /** The distance of a point from the nearer of two edges. */
  function Gap(low: real, x: real, high: real): real {
    Min(x - low, high - x)
  }

  lemma GapInPixels(low: real, x: real, high: real, offset: real, size: real, extent: real)
    requires size > 0.0 && extent > 0.0
    ensures Gap((offset + low * size) * extent, (offset + x * size) * extent, (offset + high * size) * extent)
         == Gap(low, x, high) * size * extent
  {
    EdgeInPixels(low, x, offset, size, extent);
    EdgeInPixels(x, high, offset, size, extent);
    if x - low <= high - x {
      Scales(x - low, high - x, size, extent);
    } else {
      Scales(high - x, x - low, size, extent);
    }
  }

  lemma EdgeInPixels(a: real, b: real, offset: real, size: real, extent: real)
    ensures (offset + b * size) * extent - (offset + a * size) * extent == (b - a) * size * extent
  {}

  lemma Scales(a: real, b: real, size: real, extent: real)
    requires a <= b && size > 0.0 && extent > 0.0
    ensures a * size * extent <= b * size * extent
  {
    assert a * size <= b * size;
  }

  lemma ColumnGap(low: real, x: real, high: real, frame: Rect, display: Size)
    requires IsRect(frame) && display.width > 0.0
    ensures Gap(Column(low, frame, display), Column(x, frame, display), Column(high, frame, display))
         == Gap(low, x, high) * frame.Width() * display.width
  {
    GapInPixels(low, x, high, frame.left, frame.right - frame.left, display.width);
    hide Gap;
  }

  lemma RowGap(low: real, x: real, high: real, frame: Rect, display: Size)
    requires IsRect(frame) && display.height > 0.0
    ensures Gap(Row(low, frame, display), Row(x, frame, display), Row(high, frame, display))
         == Gap(low, x, high) * frame.Height() * display.height
  {
    GapInPixels(low, x, high, frame.top, frame.bottom - frame.top, display.height);
    hide Gap;
  }

  /** The edge distances of a turned control, by rotation. */
  lemma EdgesAreGaps(t: Target, quarters: int)
    requires 0 <= quarters < 4
    ensures var p, b := t.point, t.bounds;
      && (quarters == 0 ==> EdgeX(t, 0) == Gap(b.left, p.x, b.right) && EdgeY(t, 0) == Gap(b.top, p.y, b.bottom))
      && (quarters == 1 ==>
            EdgeX(t, 1) == Gap(1.0 - b.bottom, 1.0 - p.y, 1.0 - b.top) && EdgeY(t, 1) == Gap(b.left, p.x, b.right))
      && (quarters == 2 ==>
            && EdgeX(t, 2) == Gap(1.0 - b.right, 1.0 - p.x, 1.0 - b.left)
            && EdgeY(t, 2) == Gap(1.0 - b.bottom, 1.0 - p.y, 1.0 - b.top))
      && (quarters == 3 ==>
            EdgeX(t, 3) == Gap(b.top, p.y, b.bottom) && EdgeY(t, 3) == Gap(1.0 - b.right, 1.0 - p.x, 1.0 - b.left))
  {}

  /** The margins are the distances of the reference pixel from the nearest edges of the pixel box. */
  lemma MarginsAreGaps(t: Target, quarters: int, frame: Rect, display: Size)
    requires IsNormalized(frame) && 0 <= quarters < 4
    requires display.width > 0.0 && display.height > 0.0
    ensures var ref := OnDisplay(t.point, quarters, frame, display);
      var box := BoxOnDisplay(t.bounds, quarters, frame, display);
      && MarginX(t, quarters, frame, display) == Gap(box.left, ref.x, box.right)
      && MarginY(t, quarters, frame, display) == Gap(box.top, ref.y, box.bottom)
  {
    hide Gap, Column, Row, EdgeX, EdgeY;
    var p, b := t.point, t.bounds;
    EdgesAreGaps(t, quarters);
    if quarters == 0 {
      ColumnGap(b.left, p.x, b.right, frame, display);
      RowGap(b.top, p.y, b.bottom, frame, display);
    } else if quarters == 1 {
      ColumnGap(1.0 - b.bottom, 1.0 - p.y, 1.0 - b.top, frame, display);
      RowGap(b.left, p.x, b.right, frame, display);
    } else if quarters == 2 {
      ColumnGap(1.0 - b.right, 1.0 - p.x, 1.0 - b.left, frame, display);
      RowGap(1.0 - b.bottom, 1.0 - p.y, 1.0 - b.top, frame, display);
    } else {
      ColumnGap(b.top, p.y, b.bottom, frame, display);
      RowGap(1.0 - b.right, 1.0 - p.x, 1.0 - b.left, frame, display);
    }
  }

  // ---- Safety ----

  /**
   Any landing within the certified error of the cooked point of `hid` is at
   most 8 pixels and at most half a margin from the control's reference pixel
   along each axis, and so at least half a margin inside its pixel box.
   */
  ghost predicate IsSafe(hid: (int, int), t: Target, layout: Layout, c: Case) {
    var cooked := StandardPoint(hid.0 as real, hid.1 as real, layout.display, c.rotation, c.viewport);
    var ref := OnDisplay(t.point, layout.quarters, layout.frame, layout.display);
    var box := BoxOnDisplay(t.bounds, layout.quarters, layout.frame, layout.display);
    var mx, my := Gap(box.left, ref.x, box.right), Gap(box.top, ref.y, box.bottom);
    && 0 <= hid.0 <= 360 && 0 <= hid.1 <= 640 && cooked.Ok? && mx > 0.0 && my > 0.0
    && (forall landing :: Lands(landing, cooked.value, c.maxError) ==>
          && box.left + mx / 2.0 <= landing.x <= box.right - mx / 2.0
          && box.top + my / 2.0 <= landing.y <= box.bottom - my / 2.0
          && -8.0 <= landing.x - ref.x <= 8.0 && -8.0 <= landing.y - ref.y <= 8.0)
  }

  /** Every position that compiles is safe. */
  lemma CompiledPointIsSafe(t: Target, layout: Layout, c: Case)
    requires c.maxError >= 0.0
    ensures CompilePoint(t, layout, c).Ok? ==> IsSafe(CompilePoint(t, layout, c).value, t, layout, c)
  {
    if CompilePoint(t, layout, c).Ok? {
      hide StandardInverse, StandardPoint, Pixels, Turn, EdgeX, EdgeY, Fits, Lands, MarginX, MarginY;
      hide OnDisplay, BoxOnDisplay;
      var p := TargetPoint(t, layout.frame, layout.display, layout.quarters, c.maxError, 0.0, 0.0).value;
      var (u, v) := CompilePoint(t, layout, c).value;
      var cooked := StandardPoint(u as real, v as real, layout.display, c.rotation, c.viewport).value;
      var ref := OnDisplay(t.point, layout.quarters, layout.frame, layout.display);
      var box := BoxOnDisplay(t.bounds, layout.quarters, layout.frame, layout.display);
      var mx, my := Gap(box.left, ref.x, box.right), Gap(box.top, ref.y, box.bottom);
      InverseInRange(p.x, p.y, layout.display, c.rotation, c.viewport);
      PointIsOnDisplay(t.point, layout.quarters, layout.frame, layout.display);
      MarginsAreGaps(t, layout.quarters, layout.frame, layout.display);
      MarginsPositive(t, layout.frame, layout.display, layout.quarters);
      forall landing | Lands(landing, cooked, c.maxError)
        ensures box.left + mx / 2.0 <= landing.x <= box.right - mx / 2.0
        ensures box.top + my / 2.0 <= landing.y <= box.bottom - my / 2.0
        ensures -8.0 <= landing.x - ref.x <= 8.0 && -8.0 <= landing.y - ref.y <= 8.0
      {
        TwoHops(landing, cooked, p, c.maxError, Tolerance(t, layout.quarters, layout.frame, layout.display));
      }
    }
  }

  /**
   A position compiles exactly if the layout is well formed, the reference pixel
   has an inverse, and the certified error plus the distance to the cooked point
   is at most 8 pixels and half of each margin; it is that inverse.
   */
  lemma CompilesExactly(t: Target, layout: Layout, c: Case, hid: (int, int))
    requires layout.display.width > 0.0 && layout.display.height > 0.0
    ensures var ref := OnDisplay(t.point, layout.quarters, layout.frame, layout.display);
      var box := BoxOnDisplay(t.bounds, layout.quarters, layout.frame, layout.display);
      var limit := Min(8.0, Min(Gap(box.left, ref.x, box.right) / 2.0, Gap(box.top, ref.y, box.bottom) / 2.0));
      var cooked := StandardPoint(hid.0 as real, hid.1 as real, layout.display, c.rotation, c.viewport);
      CompilePoint(t, layout, c) == Ok(hid) <==>
        && IsNormalized(layout.frame) && IsNormalized(t.bounds) && 0 <= layout.quarters < 4
        && t.bounds.left < t.point.x < t.bounds.right && t.bounds.top < t.point.y < t.bounds.bottom
        && StandardInverse(ref.x, ref.y, layout.display, c.rotation, c.viewport) == Ok(hid)
        && cooked.Ok? && Fits(c.maxError, 0.0, 0.0, limit)
        && Fits(c.maxError, ref.x - cooked.value.x, ref.y - cooked.value.y, limit)
  {
    hide StandardInverse, StandardPoint, TargetPoint, Fits, Gap, Min, OnDisplay, BoxOnDisplay, IsNormalized;
    TargetsExactly(t, layout, c.maxError, 0.0, 0.0);
    var ref := OnDisplay(t.point, layout.quarters, layout.frame, layout.display);
    var cooked := StandardPoint(hid.0 as real, hid.1 as real, layout.display, c.rotation, c.viewport);
    if cooked.Ok? {
      TargetsExactly(t, layout, c.maxError, ref.x - cooked.value.x, ref.y - cooked.value.y);
    }
  }

  /** The target point is the reference pixel, given the budget and a well formed layout. */
  lemma TargetsExactly(t: Target, layout: Layout, maxError: real, dx: real, dy: real)
    requires layout.display.width > 0.0 && layout.display.height > 0.0
    ensures var ref := OnDisplay(t.point, layout.quarters, layout.frame, layout.display);
      var box := BoxOnDisplay(t.bounds, layout.quarters, layout.frame, layout.display);
      var limit := Min(8.0, Min(Gap(box.left, ref.x, box.right) / 2.0, Gap(box.top, ref.y, box.bottom) / 2.0));
      var point := TargetPoint(t, layout.frame, layout.display, layout.quarters, maxError, dx, dy);
      && (point.Ok? <==>
            && IsNormalized(layout.frame) && IsNormalized(t.bounds) && 0 <= layout.quarters < 4
            && t.bounds.left < t.point.x < t.bounds.right && t.bounds.top < t.point.y < t.bounds.bottom
            && Fits(maxError, dx, dy, limit))
      && (point.Ok? ==> point.value == ref)
  {
    hide Pixels, Turn, Fits, MarginX, MarginY, OnDisplay, BoxOnDisplay, IsNormalized, Gap, Min;
    PointIsOnDisplay(t.point, layout.quarters, layout.frame, layout.display);
    if IsNormalized(layout.frame) && 0 <= layout.quarters < 4 {
      MarginsAreGaps(t, layout.quarters, layout.frame, layout.display);
    }
  }

  datatype Kind = Click | LongClick

  /** A command of the profile with the named targets of its semantic step. */
  datatype Step =
    | Tap(kind: Kind, target: string)
    | Drag(fromTarget: string, durationMs: nat, toTarget: string)
    | Other(text: string)

  datatype Compiled =
    | TapAt(kind: Kind, u: int, v: int)
    | DragFrom(u1: int, v1: int, durationMs: nat, u2: int, v2: int)
    | Raw(text: string)

  /** `hid` is the compiled position of a named target of the layout. */
  ghost predicate Aims(hid: (int, int), name: string, layout: Layout, c: Case) {
    name in layout.targets && CompilePoint(layout.targets[name], layout, c) == Ok(hid)
  }

  /** The compiled command is the step with its names replaced by compiled positions. */
  ghost predicate Implements(compiled: Compiled, step: Step, layout: Layout, c: Case) {
    match step
    case Tap(kind, target) =>
      compiled.TapAt? && compiled.kind == kind && Aims((compiled.u, compiled.v), target, layout, c)
    case Drag(from, ms, to) =>
      && compiled.DragFrom? && compiled.durationMs == ms
      && Aims((compiled.u1, compiled.v1), from, layout, c) && Aims((compiled.u2, compiled.v2), to, layout, c)
    case Other(text) => compiled == Raw(text)
  }

  /** Every touch position of the command is safe for the control that the step names. */
  ghost predicate IsSafeCommand(compiled: Compiled, step: Step, layout: Layout, c: Case) {
    match step
    case Tap(_, target) =>
      compiled.TapAt? && target in layout.targets && IsSafe((compiled.u, compiled.v), layout.targets[target], layout, c)
    case Drag(from, _, to) =>
      && compiled.DragFrom? && from in layout.targets && to in layout.targets
      && IsSafe((compiled.u1, compiled.v1), layout.targets[from], layout, c)
      && IsSafe((compiled.u2, compiled.v2), layout.targets[to], layout, c)
    case Other(text) => compiled == Raw(text)
  }

  lemma CompiledCommandIsSafe(compiled: Compiled, step: Step, layout: Layout, c: Case)
    requires c.maxError >= 0.0 && Implements(compiled, step, layout, c)
    ensures IsSafeCommand(compiled, step, layout, c)
  {
    hide CompilePoint, IsSafe;
    match step
    case Tap(_, target) => CompiledPointIsSafe(layout.targets[target], layout, c);
    case Drag(from, _, to) =>
      CompiledPointIsSafe(layout.targets[from], layout, c);
      CompiledPointIsSafe(layout.targets[to], layout, c);
    case Other(_) =>
  }

  ghost predicate Compilable(step: Step, layout: Layout, c: Case) {
    exists compiled :: Implements(compiled, step, layout, c)
  }

  method CompileName(name: string, layout: Layout, c: Case) returns (hid: Result<(int, int), Error>)
    ensures hid.Ok? ==> Aims(hid.value, name, layout, c)
    ensures hid.Err? ==> forall h :: !Aims(h, name, layout, c)
  {
    if name !in layout.targets {
      return Err("semantic target is missing from one or more layouts");
    }
    hid := CompilePoint(layout.targets[name], layout, c);
  }

  /** All steps are compiled, in order, or the plan is refused because some step cannot be. */
  method CompilePlan(steps: seq<Step>, layout: Layout, c: Case) returns (plan: Result<seq<Compiled>, Error>)
    ensures plan.Ok? ==> |plan.value| == |steps|
    ensures plan.Ok? ==> forall i :: 0 <= i < |steps| ==> Implements(plan.value[i], steps[i], layout, c)
    ensures plan.Ok? && c.maxError >= 0.0 ==>
      forall i :: 0 <= i < |steps| ==> IsSafeCommand(plan.value[i], steps[i], layout, c)
    ensures plan.Err? ==> exists i :: 0 <= i < |steps| && !Compilable(steps[i], layout, c)
  {
    hide CompilePoint;
    var compiled: seq<Compiled> := [];
    for i := 0 to |steps|
      invariant |compiled| == i
      invariant forall j :: 0 <= j < i ==> Implements(compiled[j], steps[j], layout, c)
    {
      match steps[i]
      case Tap(kind, target) =>
        var hid := CompileName(target, layout, c);
        if hid.Err? {
          assert !Compilable(steps[i], layout, c);
          return Err(hid.error);
        }
        compiled := compiled + [TapAt(kind, hid.value.0, hid.value.1)];
      case Drag(from, ms, to) =>
        var first := CompileName(from, layout, c);
        if first.Err? {
          assert !Compilable(steps[i], layout, c);
          return Err(first.error);
        }
        var second := CompileName(to, layout, c);
        if second.Err? {
          assert !Compilable(steps[i], layout, c);
          return Err(second.error);
        }
        compiled := compiled + [DragFrom(first.value.0, first.value.1, ms, second.value.0, second.value.1)];
      case Other(text) =>
        compiled := compiled + [Raw(text)];
    }
    plan := Ok(compiled);
    if c.maxError >= 0.0 {
      forall i | 0 <= i < |steps|
        ensures IsSafeCommand(compiled[i], steps[i], layout, c)
      {
        CompiledCommandIsSafe(compiled[i], steps[i], layout, c);
      }
    }
  }

  // ---- resolve_live_command ----

  /** The center of a measured control, if rounding and certified error fit a quarter of its size. */
  function LivePoint(bounds: Rect, frame: Rect, display: Size, c: Case): Result<(int, int), Error> {
    var limit := Min(8.0, Min(bounds.Width() / 4.0, bounds.Height() / 4.0));
    var x, y := (bounds.left + bounds.right) / 2.0, (bounds.top + bounds.bottom) / 2.0;
    if !IsRect(bounds) then Err("invalid display rectangle")
    else if c.maxError > limit then Err("control is too small for the measured input error")
    else if !(frame.left * display.width < x < frame.right * display.width
              && frame.top * display.height < y < frame.bottom * display.height) then
      Err("element is outside the verified application window")
    else
      var hid := StandardInverse(x, y, display, c.rotation, c.viewport);
      if hid.Err? then hid
      else
        var cooked := StandardPoint(hid.value.0 as real, hid.value.1 as real, display, c.rotation, c.viewport);
        if cooked.Err? then Err(cooked.error)
        else if !Fits(c.maxError, x - cooked.value.x, y - cooked.value.y, limit) then
          Err("rounded center exceeds the safe range of the control")
        else hid
  }

  /**
   A live point is refused exactly if the control is malformed, its center is not
   inside the window or has no inverse, or the certified error and the rounding
   together exceed 8 pixels or a quarter of its size.
   */
  lemma LiveExactly(bounds: Rect, frame: Rect, display: Size, c: Case, hid: (int, int))
    ensures var x, y := (bounds.left + bounds.right) / 2.0, (bounds.top + bounds.bottom) / 2.0;
      var cooked := StandardPoint(hid.0 as real, hid.1 as real, display, c.rotation, c.viewport);
      LivePoint(bounds, frame, display, c) == Ok(hid) <==>
        && IsRect(bounds)
        && frame.left * display.width < x < frame.right * display.width
        && frame.top * display.height < y < frame.bottom * display.height
        && StandardInverse(x, y, display, c.rotation, c.viewport) == Ok(hid) && cooked.Ok?
        && Fits(c.maxError, x - cooked.value.x, y - cooked.value.y, 8.0)
        && Fits(c.maxError, x - cooked.value.x, y - cooked.value.y, (bounds.right - bounds.left) / 4.0)
        && Fits(c.maxError, x - cooked.value.x, y - cooked.value.y, (bounds.bottom - bounds.top) / 4.0)
  {
    hide StandardInverse, StandardPoint, Fits;
    var x, y := (bounds.left + bounds.right) / 2.0, (bounds.top + bounds.bottom) / 2.0;
    var cooked := StandardPoint(hid.0 as real, hid.1 as real, display, c.rotation, c.viewport);
    if cooked.Ok? {
      FitsSmallest(c.maxError, x - cooked.value.x, y - cooked.value.y, 8.0,
        (bounds.right - bounds.left) / 4.0, (bounds.bottom - bounds.top) / 4.0);
    }
  }

  lemma FitsSmallest(error: real, dx: real, dy: real, a: real, b: real, c: real)
    ensures Fits(error, dx, dy, Min(a, Min(b, c))) <==>
      Fits(error, dx, dy, a) && Fits(error, dx, dy, b) && Fits(error, dx, dy, c)
    ensures Fits(error, dx, dy, Min(a, Min(b, c))) ==> error <= Min(a, Min(b, c))
  {
    FitsSmaller(error, dx, dy, a, Min(b, c));
    FitsSmaller(error, dx, dy, b, c);
  }

  lemma FitsSmaller(error: real, dx: real, dy: real, a: real, b: real)
    ensures Fits(error, dx, dy, Min(a, b)) <==> Fits(error, dx, dy, a) && Fits(error, dx, dy, b)
  {
    if a <= b && error <= a {
      SquareOrder(a - error, b - error);
    }
    if b <= a && error <= b {
      SquareOrder(b - error, a - error);
    }
  }

  /** A live point lands within 8 pixels of the control's center, at least a quarter of its size inside each edge. */
  lemma LivePointIsSafe(bounds: Rect, frame: Rect, display: Size, c: Case, landing: Point)
    requires c.maxError >= 0.0
    ensures var live := LivePoint(bounds, frame, display, c);
      live.Ok? ==>
        var (u, v) := live.value;
        var cooked := StandardPoint(u as real, v as real, display, c.rotation, c.viewport);
        var width, height := bounds.right - bounds.left, bounds.bottom - bounds.top;
        && 0 <= u <= 360 && 0 <= v <= 640 && cooked.Ok?
        && (Lands(landing, cooked.value, c.maxError) ==>
              && bounds.left + width / 4.0 <= landing.x <= bounds.right - width / 4.0
              && bounds.top + height / 4.0 <= landing.y <= bounds.bottom - height / 4.0
              && -8.0 <= landing.x - (bounds.left + bounds.right) / 2.0 <= 8.0
              && -8.0 <= landing.y - (bounds.top + bounds.bottom) / 2.0 <= 8.0)
  {
    if LivePoint(bounds, frame, display, c).Ok? {
      hide StandardInverse, StandardPoint, Fits, Lands;
      var x, y := (bounds.left + bounds.right) / 2.0, (bounds.top + bounds.bottom) / 2.0;
      var (u, v) := LivePoint(bounds, frame, display, c).value;
      var cooked := StandardPoint(u as real, v as real, display, c.rotation, c.viewport).value;
      InverseInRange(x, y, display, c.rotation, c.viewport);
      if Lands(landing, cooked, c.maxError) {
        TwoHops(landing, cooked, Point(x, y), c.maxError, Min(8.0, Min(bounds.Width() / 4.0, bounds.Height() / 4.0)));
      }
    }
  }
}
