/**
 Display frames and the certified transform between HID coordinates and pixels
 (foundation/aoa_display.py), over exact reals.
 */
module AoaDisplay {
  import opened Wrappers
  import opened HidRange
  import opened Rounding

  datatype Point = Point(x: real, y: real)
  datatype Size = Size(width: real, height: real)
  datatype Rect = Rect(left: real, top: real, right: real, bottom: real) {
    function Width(): real { right - left }
    function Height(): real { bottom - top }
  }

  type Error = string

  predicate IsRect(r: Rect) {
    0.0 <= r.left && 0.0 <= r.top && r.left < r.right && r.top < r.bottom
  }

  predicate IsNormalized(r: Rect) {
    IsRect(r) && r.right <= 1.0 && r.bottom <= 1.0
  }

  const STEPS_X := 361.0
  const STEPS_Y := 641.0

  /** The whole display when no viewport is certified. */
  function ViewportOf(viewport: Option<Rect>, display: Size): Rect {
    if viewport.Some? then viewport.value else Rect(0.0, 0.0, display.width, display.height)
  }

  /** A HID coordinate as a distance in pixels along an axis of the viewport. */
  function Along(hid: real, steps: real, extent: real): real
    requires steps > 0.0
  {
    hid / steps * extent
  }

  function Back(pixels: real, extent: real, steps: real): real
    requires extent > 0.0
  {
    pixels / extent * steps
  }

  lemma AlongBack(pixels: real, extent: real, steps: real)
    requires extent > 0.0 && steps > 0.0
    ensures Along(Back(pixels, extent, steps), steps, extent) == pixels
  {
    assert pixels / extent * steps / steps == pixels / extent;
  }

  lemma BackAlong(hid: real, steps: real, extent: real)
    requires extent > 0.0 && steps > 0.0
    ensures Back(Along(hid, steps, extent), extent, steps) == hid
  {
    assert hid / steps * extent / extent == hid / steps;
  }

  lemma ScaleBound(d: real, k: real)
    requires k > 0.0 && -0.5 <= d <= 0.5
    ensures -0.5 * k <= d * k <= 0.5 * k
  {
  }

  lemma AlongStep(a: real, b: real, steps: real, extent: real)
    requires extent > 0.0 && steps > 0.0 && Abs(a - b) <= 0.5
    ensures Abs(Along(a, steps, extent) - Along(b, steps, extent)) <= Along(0.5, steps, extent)
  {
    var k := extent / steps;
    assert Along(a, steps, extent) == a * k;
    assert Along(b, steps, extent) == b * k;
    assert Along(0.5, steps, extent) == 0.5 * k;
    assert a * k - b * k == (a - b) * k;
    ScaleBound(a - b, k);
  }

  /** `standard_point`: HID position to logical pixels; flips use the last pixel. */
  function StandardPoint(u: real, v: real, display: Size, rotation: int, viewport: Option<Rect>): Result<Point, Error> {
    var r := ViewportOf(viewport, display);
    if !IsRect(r) then Err("invalid display rectangle")
    else if r.right > display.width || r.bottom > display.height || !(0 <= rotation < 4) then
      Err("invalid certified viewport or rotation")
    else
      var w, h := r.Width(), r.Height();
      var p := if rotation == 0 then Point(Along(u, STEPS_X, w), Along(v, STEPS_Y, h))
               else if rotation == 1 then Point(w - 1.0 - Along(v, STEPS_Y, w), Along(u, STEPS_X, h))
               else if rotation == 2 then Point(w - 1.0 - Along(u, STEPS_X, w), h - 1.0 - Along(v, STEPS_Y, h))
               else Point(Along(v, STEPS_Y, w), h - 1.0 - Along(u, STEPS_X, h));
      Ok(Point(r.left + p.x, r.top + p.y))
  }

  /**
   The transform spelled out: a HID step is 1/361 of the axis along u and 1/641
   along v, counted from the near edge or back from the last pixel.
   */
  lemma PointSpelledOut(u: real, v: real, display: Size, rotation: int, viewport: Option<Rect>)
    requires StandardPoint(u, v, display, rotation, viewport).Ok?
    ensures var p, r := StandardPoint(u, v, display, rotation, viewport).value, ViewportOf(viewport, display);
      var w, h := r.right - r.left, r.bottom - r.top;
      && (rotation == 0 ==> p.x - r.left == u / 361.0 * w && p.y - r.top == v / 641.0 * h)
      && (rotation == 1 ==> r.right - 1.0 - p.x == v / 641.0 * w && p.y - r.top == u / 361.0 * h)
      && (rotation == 2 ==> r.right - 1.0 - p.x == u / 361.0 * w && r.bottom - 1.0 - p.y == v / 641.0 * h)
      && (rotation == 3 ==> p.x - r.left == v / 641.0 * w && r.bottom - 1.0 - p.y == u / 361.0 * h)
  {}

  /** The transform accepts every viewport on the display and each of the four rotations, and nothing else. */
  lemma PointAccepted(u: real, v: real, display: Size, rotation: int, viewport: Option<Rect>)
    ensures var r := ViewportOf(viewport, display);
      StandardPoint(u, v, display, rotation, viewport).Ok? <==>
        && 0.0 <= r.left < r.right <= display.width && 0.0 <= r.top < r.bottom <= display.height
        && rotation in {0, 1, 2, 3}
  {}

  /** The HID position of a pixel before rounding. */
  function ExactHid(x: real, y: real, r: Rect, rotation: int): Point
    requires IsRect(r)
  {
    var px, py, w, h := x - r.left, y - r.top, r.Width(), r.Height();
    if rotation == 0 then Point(Back(px, w, STEPS_X), Back(py, h, STEPS_Y))
    else if rotation == 1 then Point(Back(py, h, STEPS_X), Back(w - 1.0 - px, w, STEPS_Y))
    else if rotation == 2 then Point(Back(w - 1.0 - px, w, STEPS_X), Back(h - 1.0 - py, h, STEPS_Y))
    else Point(Back(h - 1.0 - py, h, STEPS_X), Back(px, w, STEPS_Y))
  }

  predicate Reachable(hid: Point) {
    -SLACK <= hid.x <= MAX_X as real + SLACK && -SLACK <= hid.y <= MAX_Y as real + SLACK
  }

  /** `standard_inverse`: the nearest HID position of a pixel inside the viewport. */
  function StandardInverse(x: real, y: real, display: Size, rotation: int, viewport: Option<Rect>)
      : Result<(int, int), Error> {
    var r := ViewportOf(viewport, display);
    if !IsRect(r) then Err("invalid display rectangle")
    else if !(r.left <= x < r.right && r.right <= display.width
            && r.top <= y < r.bottom && r.bottom <= display.height) then
      Err("semantic target is outside the certified viewport")
    else if !(0 <= rotation < 4) then Err("invalid certified axis rotation")
    else
      var hid := ExactHid(x, y, r, rotation);
      if !Reachable(hid) then Err("semantic target is outside the reachable HID region")
      else Ok((Round(hid.x), Round(hid.y)))
  }

  /** Before rounding the two transforms undo each other, in all four rotations. */
  lemma ExactInverse(x: real, y: real, display: Size, rotation: int, viewport: Option<Rect>)
    requires StandardInverse(x, y, display, rotation, viewport).Ok?
    ensures var hid := ExactHid(x, y, ViewportOf(viewport, display), rotation);
      StandardPoint(hid.x, hid.y, display, rotation, viewport) == Ok(Point(x, y))
  {
    hide Along, Back;
    var r := ViewportOf(viewport, display);
    var px, py, w, h := x - r.left, y - r.top, r.Width(), r.Height();
    AlongBack(px, w, STEPS_X);
    AlongBack(px, w, STEPS_Y);
    AlongBack(py, h, STEPS_X);
    AlongBack(py, h, STEPS_Y);
    AlongBack(w - 1.0 - px, w, STEPS_X);
    AlongBack(w - 1.0 - px, w, STEPS_Y);
    AlongBack(h - 1.0 - py, h, STEPS_X);
    AlongBack(h - 1.0 - py, h, STEPS_Y);
  }

  /**
   A pixel has an inverse exactly if it lies in a viewport on the display and some
   HID position that reaches it is on the touch screen, to a millionth of a step.
   */
  lemma InverseAccepted(x: real, y: real, display: Size, rotation: int, viewport: Option<Rect>)
    ensures var r := ViewportOf(viewport, display);
      StandardInverse(x, y, display, rotation, viewport).Ok? <==>
        && 0.0 <= r.left <= x < r.right <= display.width && 0.0 <= r.top <= y < r.bottom <= display.height
        && exists hid: Point :: StandardPoint(hid.x, hid.y, display, rotation, viewport) == Ok(Point(x, y))
             && -0.000001 <= hid.x <= 360.000001 && -0.000001 <= hid.y <= 640.000001
  {
    hide Along, Back;
    var r := ViewportOf(viewport, display);
    if StandardInverse(x, y, display, rotation, viewport).Ok? {
      ExactInverse(x, y, display, rotation, viewport);
    }
    forall hid: Point | StandardPoint(hid.x, hid.y, display, rotation, viewport) == Ok(Point(x, y))
      ensures IsRect(r) && hid == ExactHid(x, y, r, rotation)
    {
      PointExact(hid.x, hid.y, display, rotation, viewport);
    }
  }

  lemma PointExact(u: real, v: real, display: Size, rotation: int, viewport: Option<Rect>)
    requires StandardPoint(u, v, display, rotation, viewport).Ok?
    ensures var p := StandardPoint(u, v, display, rotation, viewport).value;
      ExactHid(p.x, p.y, ViewportOf(viewport, display), rotation) == Point(u, v)
  {
    hide Along, Back;
    var r := ViewportOf(viewport, display);
    BackAlong(u, STEPS_X, r.Width());
    BackAlong(u, STEPS_X, r.Height());
    BackAlong(v, STEPS_Y, r.Width());
    BackAlong(v, STEPS_Y, r.Height());
  }

  /** Accepted HID positions are inside the device's logical range. */
  lemma InverseInRange(x: real, y: real, display: Size, rotation: int, viewport: Option<Rect>)
    requires StandardInverse(x, y, display, rotation, viewport).Ok?
    ensures var (u, v) := StandardInverse(x, y, display, rotation, viewport).value;
      0 <= u <= 360 && 0 <= v <= 640 && display.width > 0.0 && display.height > 0.0
  {
  }

  /** Every HID position on the touch screen whose pixel is in the viewport comes back unchanged. */
  lemma InverseOfPoint(u: int, v: int, display: Size, rotation: int, viewport: Option<Rect>)
    requires StandardPoint(u as real, v as real, display, rotation, viewport).Ok? && 0 <= u <= 360 && 0 <= v <= 640
    requires var p := StandardPoint(u as real, v as real, display, rotation, viewport).value;
      var r := ViewportOf(viewport, display);
      r.left <= p.x < r.right && r.top <= p.y < r.bottom
    ensures var p := StandardPoint(u as real, v as real, display, rotation, viewport).value;
      StandardInverse(p.x, p.y, display, rotation, viewport) == Ok((u, v))
  {
    hide Along, Back;
    var r := ViewportOf(viewport, display);
    var w, h := r.Width(), r.Height();
    BackAlong(u as real, STEPS_X, w);
    BackAlong(u as real, STEPS_X, h);
    BackAlong(v as real, STEPS_Y, w);
    BackAlong(v as real, STEPS_Y, h);
    RoundExact(u);
    RoundExact(v);
  }

  /** Rounding moves the cooked pixel by at most half a HID step along each axis. */
  lemma CookedWithinHalfStep(x: real, y: real, display: Size, rotation: int, viewport: Option<Rect>)
    requires StandardInverse(x, y, display, rotation, viewport).Ok?
    ensures var (u, v) := StandardInverse(x, y, display, rotation, viewport).value;
      var cooked := StandardPoint(u as real, v as real, display, rotation, viewport);
      var r := ViewportOf(viewport, display);
      && cooked.Ok?
      && Abs(cooked.value.x - x) <= 0.5 / (if rotation % 2 == 0 then 361.0 else 641.0) * (r.right - r.left)
      && Abs(cooked.value.y - y) <= 0.5 / (if rotation % 2 == 0 then 641.0 else 361.0) * (r.bottom - r.top)
  {
    CookedWithinAlong(x, y, display, rotation, viewport);
    hide StandardInverse, StandardPoint;
  }

  lemma CookedWithinAlong(x: real, y: real, display: Size, rotation: int, viewport: Option<Rect>)
    requires StandardInverse(x, y, display, rotation, viewport).Ok?
    ensures var (u, v) := StandardInverse(x, y, display, rotation, viewport).value;
      var cooked := StandardPoint(u as real, v as real, display, rotation, viewport);
      var r := ViewportOf(viewport, display);
      && cooked.Ok?
      && Abs(cooked.value.x - x) <= Along(0.5, if rotation % 2 == 0 then STEPS_X else STEPS_Y, r.Width())
      && Abs(cooked.value.y - y) <= Along(0.5, if rotation % 2 == 0 then STEPS_Y else STEPS_X, r.Height())
  {
    hide Along, Back;
    var r := ViewportOf(viewport, display);
    var hid := ExactHid(x, y, r, rotation);
    var (u, v) := StandardInverse(x, y, display, rotation, viewport).value;
    ExactInverse(x, y, display, rotation, viewport);
    AlongStep(u as real, hid.x, STEPS_X, r.Width());
    AlongStep(u as real, hid.x, STEPS_X, r.Height());
    AlongStep(v as real, hid.y, STEPS_Y, r.Width());
    AlongStep(v as real, hid.y, STEPS_Y, r.Height());
  }
}
