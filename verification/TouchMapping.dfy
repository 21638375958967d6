/**
 Affine touch mappings and the reprojection of recorded commands from one
 device to another (foundation/aoa_calibration.py), over exact reals.
 */
module TouchMapping {
  import opened Wrappers
  import opened HidRange
  import opened Rounding

  type Error = string

  const DETERMINANT_MIN := 0.000000001

  datatype Pixel = Pixel(x: real, y: real)

  /** X = a*u + b*v + tx and Y = c*u + d*v + ty, for a display of the given size. */
  datatype Mapping = Mapping(a: real, b: real, c: real, d: real, tx: real, ty: real,
                             width: int, height: int, rotation: int) {
    function Determinant(): real {
      a * d - b * c
    }

    /** What construction checks. */
    predicate Invertible() {
      Abs(Determinant()) >= DETERMINANT_MIN
    }

    function HidToScreen(u: real, v: real): Pixel {
      Pixel(a * u + b * v + tx, c * u + d * v + ty)
    }

    /** The HID position of a pixel before rounding. */
    function Unrounded(p: Pixel): Pixel
      requires Invertible()
    {
      var dx, dy := p.x - tx, p.y - ty;
      Pixel((d * dx - b * dy) / Determinant(), (a * dy - c * dx) / Determinant())
    }

    /** `screen_to_hid`: `strict` refuses what lies outside the HID region, otherwise it is clamped. */
    function ScreenToHid(p: Pixel, strict: bool): Result<(int, int), Error>
      requires Invertible()
    {
      var hid := Unrounded(p);
      if strict && !(-SLACK <= hid.x <= MAX_X as real + SLACK && -SLACK <= hid.y <= MAX_Y as real + SLACK) then
        Err("AOA target point is outside the reachable HID region")
      else Ok((Clamp(Round(hid.x), MAX_X), Clamp(Round(hid.y), MAX_Y)))
    }
  }

  predicate InRange(u: int, v: int) {
    0 <= u <= MAX_X && 0 <= v <= MAX_Y
  }

  // ---- The two directions are inverse ----

  lemma CramerBack(a: real, b: real, c: real, d: real, u: real, v: real)
    ensures d * (a * u + b * v) - b * (c * u + d * v) == (a * d - b * c) * u
    ensures a * (c * u + d * v) - c * (a * u + b * v) == (a * d - b * c) * v
  {
    assert d * (a * u + b * v) == a * d * u + b * d * v;
    assert b * (c * u + d * v) == b * c * u + b * d * v;
    assert a * (c * u + d * v) == a * c * u + a * d * v;
    assert c * (a * u + b * v) == a * c * u + b * c * v;
  }

  lemma DivideOut(k: real, x: real, y: real)
    requires k != 0.0 && y == k * x
    ensures y / k == x
  {
  }

  /** Before rounding the inverse gives back the position. */
  lemma UnroundedInverse(m: Mapping, u: real, v: real)
    requires m.Invertible()
    ensures m.Unrounded(m.HidToScreen(u, v)) == Pixel(u, v)
  {
    CramerBack(m.a, m.b, m.c, m.d, u, v);
    DivideOut(m.Determinant(), u, m.d * (m.a * u + m.b * v) - m.b * (m.c * u + m.d * v));
    DivideOut(m.Determinant(), v, m.a * (m.c * u + m.d * v) - m.c * (m.a * u + m.b * v));
  }

  lemma CramerForward(a: real, b: real, c: real, d: real, dx: real, dy: real, k: real, p: real, q: real)
    requires k == a * d - b * c && k != 0.0
    requires p * k == d * dx - b * dy && q * k == a * dy - c * dx
    ensures a * p + b * q == dx && c * p + d * q == dy
  {
    assert (a * p + b * q) * k == a * (p * k) + b * (q * k);
    assert a * (d * dx - b * dy) + b * (a * dy - c * dx) == k * dx;
    DivideOut(k, a * p + b * q, k * dx);
    DivideOut(k, dx, k * dx);
    assert (c * p + d * q) * k == c * (p * k) + d * (q * k);
    assert c * (d * dx - b * dy) + d * (a * dy - c * dx) == k * dy;
    DivideOut(k, c * p + d * q, k * dy);
    DivideOut(k, dy, k * dy);
  }

  lemma UnroundedScaled(m: Mapping, p: Pixel)
    requires m.Invertible()
    ensures m.Unrounded(p).x * m.Determinant() == m.d * (p.x - m.tx) - m.b * (p.y - m.ty)
    ensures m.Unrounded(p).y * m.Determinant() == m.a * (p.y - m.ty) - m.c * (p.x - m.tx)
  {
  }

  lemma ForwardOfUnrounded(m: Mapping, p: Pixel)
    requires m.Invertible()
    ensures m.HidToScreen(m.Unrounded(p).x, m.Unrounded(p).y) == p
  {
    hide Mapping.Unrounded;
    var q := m.Unrounded(p);
    UnroundedScaled(m, p);
    CramerForward(m.a, m.b, m.c, m.d, p.x - m.tx, p.y - m.ty, m.Determinant(), q.x, q.y);
  }

  /** Every HID position in range survives the way to the screen and back, strict or not. */
  lemma RoundTrip(m: Mapping, u: int, v: int, strict: bool)
    requires m.Invertible() && InRange(u, v)
    ensures m.ScreenToHid(m.HidToScreen(u as real, v as real), strict) == Ok((u, v))
  {
    hide Mapping.Unrounded, Mapping.HidToScreen;
    UnroundedInverse(m, u as real, v as real);
    RoundExact(u);
    RoundExact(v);
  }

  lemma TimesShift(k: real, d: real)
    ensures Times(k, 0.5 - d) == 0.5 * k - Times(k, d)
    ensures Times(k, 0.5 + d) == 0.5 * k + Times(k, d)
    ensures Times(-k, d) == -Times(k, d)
  {
  }

  lemma HalfMove(k: real, d: real)
    requires -0.5 <= d <= 0.5
    ensures Abs(Times(k, d)) <= Abs(k) / 2.0
  {
    hide Times;
    var size := Abs(k);
    TimesNonNegative(size, 0.5 - d);
    TimesNonNegative(size, 0.5 + d);
    TimesShift(size, d);
    TimesShift(k, d);
  }

  lemma HidDifference(m: Mapping, p: Pixel, q: Pixel)
    ensures m.HidToScreen(q.x, q.y).x - m.HidToScreen(p.x, p.y).x == Times(m.a, q.x - p.x) + Times(m.b, q.y - p.y)
    ensures m.HidToScreen(q.x, q.y).y - m.HidToScreen(p.x, p.y).y == Times(m.c, q.x - p.x) + Times(m.d, q.y - p.y)
  {
  }

  /** Moving a HID position by at most half a step along each axis moves the pixel this little. */
  lemma HidMove(m: Mapping, p: Pixel, q: Pixel)
    requires -0.5 <= q.x - p.x <= 0.5 && -0.5 <= q.y - p.y <= 0.5
    ensures Abs(m.HidToScreen(q.x, q.y).x - m.HidToScreen(p.x, p.y).x) <= (Abs(m.a) + Abs(m.b)) / 2.0
    ensures Abs(m.HidToScreen(q.x, q.y).y - m.HidToScreen(p.x, p.y).y) <= (Abs(m.c) + Abs(m.d)) / 2.0
  {
    hide Times, Mapping.HidToScreen;
    HidDifference(m, p, q);
    HalfMove(m.a, q.x - p.x);
    HalfMove(m.b, q.y - p.y);
    HalfMove(m.c, q.x - p.x);
    HalfMove(m.d, q.y - p.y);
  }

  /** An accepted pixel is hit within half a HID step along each HID axis. */
  lemma StrictPixelError(m: Mapping, p: Pixel)
    requires m.Invertible() && m.ScreenToHid(p, true).Ok?
    ensures var (u, v) := m.ScreenToHid(p, true).value;
      var hit := m.HidToScreen(u as real, v as real);
      && InRange(u, v)
      && Abs(hit.x - p.x) <= (Abs(m.a) + Abs(m.b)) / 2.0
      && Abs(hit.y - p.y) <= (Abs(m.c) + Abs(m.d)) / 2.0
  {
    hide Mapping.Unrounded, Mapping.ScreenToHid, Mapping.HidToScreen;
    var (u, v) := m.ScreenToHid(p, true).value;
    StrictRounds(m, p);
    ForwardOfUnrounded(m, p);
    HidMove(m, m.Unrounded(p), Pixel(u as real, v as real));
  }

  /** Under `strict` the clamp never bites. */
  lemma StrictRounds(m: Mapping, p: Pixel)
    requires m.Invertible() && m.ScreenToHid(p, true).Ok?
    ensures var (u, v) := m.ScreenToHid(p, true).value;
      && InRange(u, v)
      && -0.5 <= u as real - m.Unrounded(p).x <= 0.5 && -0.5 <= v as real - m.Unrounded(p).y <= 0.5
  {
    hide Mapping.Unrounded;
  }

  // ---- Reprojection ----

  /** The reference pixel of a source position, scaled to the target display. */
  function Scaled(source: Mapping, target: Mapping, u: int, v: int): Pixel
    requires source.width > 0 && source.height > 0
  {
    var p := source.HidToScreen(u as real, v as real);
    Pixel(p.x * target.width as real / source.width as real, p.y * target.height as real / source.height as real)
  }

  predicate OnDisplay(m: Mapping, u: int, v: int) {
    var p := m.HidToScreen(u as real, v as real);
    InRange(u, v) && -SLACK <= p.x < m.width as real && -SLACK <= p.y < m.height as real
  }

  function ConvertPoint(source: Mapping, target: Mapping, u: int, v: int): Result<(int, int), Error>
    requires target.Invertible()
  {
    if source.width <= 0 || source.height <= 0 || target.width <= 0 || target.height <= 0 then
      Err("missing display dimensions for AOA reprojection")
    else if source.rotation != target.rotation then Err("AOA reprojection requires matching display rotation")
    else if !OnDisplay(source, u, v) then Err("AOA source point is outside the display or HID region")
    else target.ScreenToHid(Scaled(source, target, u, v), true)
  }

  /** With one mapping on both sides every position on the display is converted to itself, and no other. */
  lemma ConvertSame(m: Mapping, u: int, v: int)
    requires m.Invertible()
    ensures ConvertPoint(m, m, u, v) == Ok((u, v)) <==> m.width > 0 && m.height > 0 && OnDisplay(m, u, v)
    ensures ConvertPoint(m, m, u, v).Ok? ==> ConvertPoint(m, m, u, v) == Ok((u, v))
  {
    if m.width > 0 && m.height > 0 && OnDisplay(m, u, v) {
      var p := m.HidToScreen(u as real, v as real);
      DivideOut(m.width as real, p.x, p.x * m.width as real);
      DivideOut(m.height as real, p.y, p.y * m.height as real);
      assert Scaled(m, m, u, v) == p;
      RoundTrip(m, u, v, true);
    }
  }

  /** `aim` lies on the target display where `p` lies on the source display, in proportion to the two sizes. */
  ghost predicate SamePlace(source: Mapping, target: Mapping, p: Pixel, aim: Pixel) {
    && aim.x * source.width as real == p.x * target.width as real
    && aim.y * source.height as real == p.y * target.height as real
  }

  /** A HID position in range whose pixel is this close to `aim`: half a HID step along each HID axis. */
  ghost predicate Hits(m: Mapping, hid: (int, int), aim: Pixel) {
    && 0 <= hid.0 <= 360 && 0 <= hid.1 <= 640
    && Abs(m.a * hid.0 as real + m.b * hid.1 as real + m.tx - aim.x) <= (Abs(m.a) + Abs(m.b)) / 2.0
    && Abs(m.c * hid.0 as real + m.d * hid.1 as real + m.ty - aim.y) <= (Abs(m.c) + Abs(m.d)) / 2.0
  }

  /** `hid` hits the same place on the target as (`u`, `v`) on the source. */
  ghost predicate Reprojects(source: Mapping, target: Mapping, u: int, v: int, hid: (int, int)) {
    exists aim :: Hits(target, hid, aim) && SamePlace(source, target,
      Pixel(source.a * u as real + source.b * v as real + source.tx,
            source.c * u as real + source.d * v as real + source.ty), aim)
  }

  lemma ScaledIsSamePlace(source: Mapping, target: Mapping, u: int, v: int)
    requires source.width > 0 && source.height > 0
    ensures SamePlace(source, target, source.HidToScreen(u as real, v as real), Scaled(source, target, u, v))
  {
    hide Mapping.HidToScreen;
    var p := source.HidToScreen(u as real, v as real);
    Quotient(p.x * target.width as real, source.width as real);
    Quotient(p.y * target.height as real, source.height as real);
  }

  lemma Quotient(x: real, k: real)
    requires k != 0.0
    ensures x / k * k == x
  {}

  lemma ConvertPointReprojects(source: Mapping, target: Mapping, u: int, v: int)
    requires target.Invertible() && ConvertPoint(source, target, u, v).Ok?
    ensures Reprojects(source, target, u, v, ConvertPoint(source, target, u, v).value)
  {
    hide Mapping.ScreenToHid, Scaled, SamePlace, Hits, OnDisplay;
    ScaledIsSamePlace(source, target, u, v);
    StrictHits(target, Scaled(source, target, u, v));
  }

  lemma StrictHits(m: Mapping, p: Pixel)
    requires m.Invertible() && m.ScreenToHid(p, true).Ok?
    ensures Hits(m, m.ScreenToHid(p, true).value, p)
  {
    StrictPixelError(m, p);
    hide Mapping.ScreenToHid, Abs, Mapping.Invertible;
  }

  /**
   A position is converted exactly if both sizes are known, the rotations agree,
   it is on the display, and its place on the target is reachable.
   */
  lemma ConvertsExactly(source: Mapping, target: Mapping, u: int, v: int, aim: Pixel)
    requires target.Invertible()
    requires SamePlace(source, target, source.HidToScreen(u as real, v as real), aim)
    ensures var p := source.HidToScreen(u as real, v as real);
      ConvertPoint(source, target, u, v).Ok? <==>
        && source.width > 0 && source.height > 0 && target.width > 0 && target.height > 0
        && source.rotation == target.rotation && 0 <= u <= 360 && 0 <= v <= 640
        && -0.000001 <= p.x < source.width as real && -0.000001 <= p.y < source.height as real
        && (exists hid: Pixel :: target.HidToScreen(hid.x, hid.y) == aim
              && -0.000001 <= hid.x <= 360.000001 && -0.000001 <= hid.y <= 640.000001)
  {
    if source.width > 0 && source.height > 0 {
      ScaledIsSamePlace(source, target, u, v);
      SamePlaceIsUnique(source, target, source.HidToScreen(u as real, v as real), aim, Scaled(source, target, u, v));
    }
    hide Mapping.HidToScreen, Mapping.Unrounded, Scaled, SamePlace;
    ForwardOfUnrounded(target, aim);
    forall hid: Pixel | target.HidToScreen(hid.x, hid.y) == aim
      ensures hid == target.Unrounded(aim)
    {
      UnroundedInverse(target, hid.x, hid.y);
    }
  }

  lemma SamePlaceIsUnique(source: Mapping, target: Mapping, p: Pixel, a: Pixel, b: Pixel)
    requires source.width > 0 && source.height > 0
    requires SamePlace(source, target, p, a) && SamePlace(source, target, p, b)
    ensures a == b
  {
    DivideOut(source.width as real, a.x, p.x * target.width as real);
    DivideOut(source.width as real, b.x, p.x * target.width as real);
    DivideOut(source.height as real, a.y, p.y * target.height as real);
    DivideOut(source.height as real, b.y, p.y * target.height as real);
  }

  // ---- Command lists ----

  datatype Kind = Click | LongClick

  /** A command line: the touch commands, a touch keyword with the wrong arguments, or anything else. */
  datatype Command =
    | Tap(kind: Kind, x: int, y: int)
    | Swipe(x1: int, y1: int, ms: string, x2: int, y2: int)
    | Malformed(text: string)
    | Plain(text: string)

  function Convert(source: Mapping, target: Mapping, command: Command): Result<Command, Error>
    requires target.Invertible()
  {
    match command
    case Plain(_) => Ok(command)
    case Malformed(_) => Err("invalid AOA action")
    case Tap(kind, x, y) =>
      var p := ConvertPoint(source, target, x, y);
      if p.Err? then Err(p.error) else Ok(Tap(kind, p.value.0, p.value.1))
    case Swipe(x1, y1, ms, x2, y2) =>
      var p := ConvertPoint(source, target, x1, y1);
      if p.Err? then Err(p.error)
      else
        var q := ConvertPoint(source, target, x2, y2);
        if q.Err? then Err(q.error) else Ok(Swipe(p.value.0, p.value.1, ms, q.value.0, q.value.1))
  }

  /** `after` is `before` with its points reprojected: same kind, same time, everything in range. */
  ghost predicate Faithful(source: Mapping, target: Mapping, before: Command, after: Command) {
    match before
    case Plain(_) => after == before
    case Malformed(_) => false
    case Tap(kind, x, y) =>
      && after.Tap? && after.kind == kind
      && Reprojects(source, target, x, y, (after.x, after.y))
    case Swipe(x1, y1, ms, x2, y2) =>
      && after.Swipe? && after.ms == ms
      && Reprojects(source, target, x1, y1, (after.x1, after.y1))
      && Reprojects(source, target, x2, y2, (after.x2, after.y2))
  }

  lemma ConvertFaithful(source: Mapping, target: Mapping, command: Command)
    requires target.Invertible() && Convert(source, target, command).Ok?
    ensures Faithful(source, target, command, Convert(source, target, command).value)
    ensures source == target ==> Convert(source, target, command).value == command
  {
    hide ConvertPoint, Reprojects;
    match command
    case Plain(_) =>
    case Tap(kind, x, y) =>
      ConvertPointReprojects(source, target, x, y);
      if source == target {
        ConvertSame(source, x, y);
      }
    case Swipe(x1, y1, ms, x2, y2) =>
      ConvertPointReprojects(source, target, x1, y1);
      ConvertPointReprojects(source, target, x2, y2);
      if source == target {
        ConvertSame(source, x1, y1);
        ConvertSame(source, x2, y2);
      }
  }

  /** The whole list is converted in order, or refused at the first command that cannot be. */
  method ConvertCommands(commands: seq<Command>, source: Mapping, target: Mapping)
    returns (converted: Result<seq<Command>, Error>)
    requires target.Invertible()
    ensures converted.Ok? <==> forall i :: 0 <= i < |commands| ==> Convert(source, target, commands[i]).Ok?
    ensures converted.Ok? ==> |converted.value| == |commands|
    ensures converted.Ok? ==>
      forall i :: 0 <= i < |commands| ==> Faithful(source, target, commands[i], converted.value[i])
    ensures converted.Ok? && source == target ==> converted.value == commands
  {
    hide Convert, Faithful;
    var done: seq<Command> := [];
    for i := 0 to |commands|
      invariant |done| == i
      invariant forall j :: 0 <= j < i ==> Convert(source, target, commands[j]) == Ok(done[j])
      invariant forall j :: 0 <= j < i ==> Faithful(source, target, commands[j], done[j])
      invariant source == target ==> done == commands[..i]
    {
      var next := Convert(source, target, commands[i]);
      if next.Err? {
        return Err(next.error);
      }
      ConvertFaithful(source, target, commands[i]);
      done := done + [next.value];
    }
    converted := Ok(done);
  }
}
