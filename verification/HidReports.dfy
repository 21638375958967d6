/**
 The HID reports of parsed AOA commands (foundation/aoa_profile.py, and the
 report loops of worker_agent/aoa_actions.py).
 */
module HidReports {
  import opened Wrappers
  import opened HidRange
  import opened Rounding

  const TOUCH := 3
  const KEYBOARD := 1
  const SYSTEM := 2

  datatype Report = Report(channel: int, data: seq<int>)

  datatype SystemKey = Wake | Home | Back

  datatype Command =
    | Click(x: int, y: int)
    | LongClick(x: int, y: int)
    | Swipe(x1: int, y1: int, x2: int, y2: int, durationMs: int)
    | Write(text: string)
    | Key(keys: seq<(int, int)>)
    | System(key: SystemKey)
    | Sleep(ms: int)

  // ---- Single reports ----

  function TouchReport(down: bool, x: int, y: int): Report {
    var cx, cy := Clamp(x, MAX_X), Clamp(y, MAX_Y);
    Report(TOUCH, [if down then 3 else 0, cx % 256, cx / 256 % 256, cy % 256, cy / 256 % 256])
  }

  function KeyReport(modifier: int, usage: int): Report {
    Report(KEYBOARD, [modifier % 256, usage % 256])
  }

  const KEY_UP := Report(KEYBOARD, [0, 0])

  function SystemReport(key: SystemKey): Report {
    Report(SYSTEM, [match key case Wake => 1 case Home => 2 case Back => 4])
  }

  /** A device that reads a touch report little-endian sees exactly the point that was sent. */
  lemma TouchReportDecodes(down: bool, x: int, y: int)
    requires 0 <= x <= MAX_X && 0 <= y <= MAX_Y
    ensures var data := TouchReport(down, x, y).data;
      && data[1] + 256 * data[2] == x && data[3] + 256 * data[4] == y
      && (data[0] == 3 <==> down) && forall i :: 0 <= i < 5 ==> 0 <= data[i] < 256
  {
  }

  // ---- Text ----

  const SHIFT := 2

  /** Modifier and usage of a character, from the keyboard table. */
  function KeyOf(c: char): Option<(int, int)> {
    if c == ' ' then Some((0, 0x2C))
    else if 'a' <= c <= 'z' then Some((0, 0x04 + (c - 'a') as int))
    else if 'A' <= c <= 'Z' then Some((SHIFT, 0x04 + (c - 'A') as int))
    else if '1' <= c <= '9' then Some((0, 0x1E + (c - '1') as int))
    else if c == '0' then Some((0, 0x27))
    else if c == '-' then Some((0, 0x2D))
    else if c == '.' then Some((0, 0x37))
    else if c == '@' then Some((SHIFT, 0x1F))
    else if c == '_' then Some((SHIFT, 0x2D))
    else if c == '+' then Some((SHIFT, 0x1E))
    else None
  }

  predicate Typable(text: string) {
    forall i :: 0 <= i < |text| ==> KeyOf(text[i]).Some?
  }

  function KeysOfText(text: string): seq<(int, int)>
    requires Typable(text)
  {
    seq(|text|, i requires 0 <= i < |text| => KeyOf(text[i]).value)
  }

  /** Different characters are typed with different modifier and usage. */
  lemma KeysDistinguish(a: char, b: char)
    requires KeyOf(a).Some? && KeyOf(a) == KeyOf(b)
    ensures a == b
  {
  }

  /** The character that a modifier and a usage of the keyboard table stand for. */
  function CharOf(modifier: int, usage: int): Option<char> {
    if modifier == 0 && 4 <= usage <= 29 then Some(('a' as int + usage - 4) as char)
    else if modifier == 2 && 4 <= usage <= 29 then Some(('A' as int + usage - 4) as char)
    else if modifier == 0 && 30 <= usage <= 38 then Some(('1' as int + usage - 30) as char)
    else match (modifier, usage)
      case (0, 39) => Some('0')
      case (0, 44) => Some(' ')
      case (0, 45) => Some('-')
      case (0, 55) => Some('.')
      case (2, 30) => Some('+')
      case (2, 31) => Some('@')
      case (2, 45) => Some('_')
      case _ => None
  }

  /** The table read from both sides: a character has a key exactly if that key stands for it. */
  lemma KeyTypesChar(c: char, modifier: int, usage: int)
    ensures KeyOf(c) == Some((modifier, usage)) <==> CharOf(modifier, usage) == Some(c)
  {
  }

  lemma KeyIsBytes(c: char)
    ensures KeyOf(c).Some? ==> 0 <= KeyOf(c).value.0 < 256 && 0 <= KeyOf(c).value.1 < 256
  {}

  /** `text_to_key_reports`. */
  method TextToKeys(text: string) returns (keys: Option<seq<(int, int)>>)
    ensures keys.Some? <==> Typable(text)
    ensures keys.Some? ==> keys.value == KeysOfText(text)
  {
    var done: seq<(int, int)> := [];
    for i := 0 to |text|
      invariant |done| == i
      invariant forall j :: 0 <= j < i ==> KeyOf(text[j]) == Some(done[j])
    {
      var key := KeyOf(text[i]);
      if key.None? {
        return None;
      }
      done := done + [key.value];
    }
    keys := Some(done);
  }

  // ---- Swipes ----

  datatype Touch = Touch(down: bool, x: int, y: int)

  function Duration(ms: int): int {
    if ms < 100 then 100 else ms
  }

  /** The number of 10 ms steps of a swipe; the last one may be shorter. */
  function SwipeSteps(ms: int): nat {
    (Duration(ms) + 9) / 10
  }

  function Elapsed(ms: int, step: nat): int {
    if 10 * step < Duration(ms) then 10 * step else Duration(ms)
  }

  /** Linear interpolation, rounded. */
  function Between(from: int, to: int, elapsed: int, total: int): int
    requires total > 0
  {
    Round(Mix(Progress(elapsed, total), from as real, to as real))
  }

  function Progress(elapsed: int, total: int): real
    requires total > 0
  {
    elapsed as real / total as real
  }

  function Mix(progress: real, from: real, to: real): real {
    progress * to + (1.0 - progress) * from
  }

  function SwipeAt(c: Command, step: nat): Touch
    requires c.Swipe?
  {
    var e, d := Elapsed(c.durationMs, step), Duration(c.durationMs);
    Touch(true, Between(c.x1, c.x2, e, d), Between(c.y1, c.y2, e, d))
  }

  function SwipePath(c: Command): seq<Touch>
    requires c.Swipe?
  {
    [Touch(true, c.x1, c.y1)]
      + seq(SwipeSteps(c.durationMs), i requires 0 <= i < SwipeSteps(c.durationMs) => SwipeAt(c, i + 1))
      + [Touch(false, c.x2, c.y2)]
  }

  /** `swipe_points`: the loop over elapsed time. */
  method SwipePoints(c: Command) returns (points: seq<Touch>)
    requires c.Swipe?
    ensures points == SwipePath(c)
  {
    var duration := Duration(c.durationMs);
    points := [Touch(true, c.x1, c.y1)];
    var elapsed := 0;
    ghost var steps: nat := 0;
    while elapsed < duration
      invariant 0 <= steps <= SwipeSteps(c.durationMs) && elapsed == Elapsed(c.durationMs, steps)
      invariant points == [Touch(true, c.x1, c.y1)] + seq(steps, i requires 0 <= i < steps => SwipeAt(c, i + 1))
      decreases duration - elapsed
    {
      elapsed := if elapsed + 10 < duration then elapsed + 10 else duration;
      points := points + [Touch(true, Between(c.x1, c.x2, elapsed, duration), Between(c.y1, c.y2, elapsed, duration))];
      steps := steps + 1;
    }
    points := points + [Touch(false, c.x2, c.y2)];
  }

  lemma BetweenBounds(from: int, to: int, elapsed: int, total: int)
    requires 0 <= elapsed <= total && total > 0
    ensures from <= to ==> from <= Between(from, to, elapsed, total) <= to
    ensures to <= from ==> to <= Between(from, to, elapsed, total) <= from
    ensures elapsed == total ==> Between(from, to, elapsed, total) == to
  {
    hide Mix, Progress, Round;
    var p := Progress(elapsed, total);
    ProgressBounds(elapsed, total);
    Blend(p, from as real, to as real);
    var exact := Mix(p, from as real, to as real);
    RoundWithin(exact, if from <= to then from else to, if from <= to then to else from);
    if elapsed == total {
      RoundExact(to);
    }
  }

  lemma RoundWithin(x: real, low: int, high: int)
    requires low as real <= x <= high as real
    ensures low <= Round(x) <= high
  {
  }

  lemma ProgressBounds(elapsed: int, total: int)
    requires 0 <= elapsed <= total && total > 0
    ensures 0.0 <= Progress(elapsed, total) <= 1.0
    ensures elapsed == total ==> Progress(elapsed, total) == 1.0
  {
    Ratio(elapsed as real, total as real);
  }

  lemma Ratio(a: real, b: real)
    requires 0.0 <= a <= b && b > 0.0
    ensures 0.0 <= a / b <= 1.0
    ensures a == b ==> a / b == 1.0
  {
  }

  lemma PartBounds(p: real, d: real)
    requires 0.0 <= p <= 1.0 && d >= 0.0
    ensures 0.0 <= Times(p, d) <= d
  {
    hide Times;
    TimesNonNegative(p, d);
    TimesNonNegative(1.0 - p, d);
    Complement(p, d);
  }

  lemma Complement(p: real, d: real)
    ensures Times(1.0 - p, d) == d - Times(p, d)
  {
  }

  lemma MixUp(p: real, from: real, to: real)
    ensures Mix(p, from, to) == from + Times(p, to - from)
  {
  }

  lemma MixDown(p: real, from: real, to: real)
    ensures Mix(p, from, to) == from - Times(p, from - to)
  {
  }

  /** A weighted mean lies between its two ends. */
  lemma Blend(p: real, from: real, to: real)
    requires 0.0 <= p <= 1.0
    ensures from <= to ==> from <= Mix(p, from, to) <= to
    ensures to <= from ==> to <= Mix(p, from, to) <= from
    ensures p == 1.0 ==> Mix(p, from, to) == to
  {
    if p == 1.0 {
      assert Mix(1.0, from, to) == to;
    }
    hide Mix, Times;
    if from <= to {
      PartBounds(p, to - from);
      MixUp(p, from, to);
    }
    if to <= from {
      PartBounds(p, from - to);
      MixDown(p, from, to);
    }
  }

  /** A swipe stays in the box of its end points, reaches its end before the lift, and lifts last and once. */
  lemma SwipeShape(c: Command, i: nat)
    requires c.Swipe? && i < |SwipePath(c)|
    ensures var path := SwipePath(c);
      && (path[i].down <==> i < |path| - 1)
      && path[0] == Touch(true, c.x1, c.y1) && path[|path| - 1] == Touch(false, c.x2, c.y2)
      && path[|path| - 2] == Touch(true, c.x2, c.y2)
      && (c.x1 <= path[i].x <= c.x2 || c.x2 <= path[i].x <= c.x1)
      && (c.y1 <= path[i].y <= c.y2 || c.y2 <= path[i].y <= c.y1)
  {
    var d, n := Duration(c.durationMs), SwipeSteps(c.durationMs);
    assert Elapsed(c.durationMs, n) == d;
    BetweenBounds(c.x1, c.x2, d, d);
    BetweenBounds(c.y1, c.y2, d, d);
    if 0 < i <= n {
      BetweenBounds(c.x1, c.x2, Elapsed(c.durationMs, i), d);
      BetweenBounds(c.y1, c.y2, Elapsed(c.durationMs, i), d);
    }
  }

  // ---- All reports of a command ----

  /** What `parse_profile_commands` guarantees about each command. */
  predicate Parsed(c: Command) {
    match c
    case Click(x, y) => 0 <= x <= MAX_X && 0 <= y <= MAX_Y
    case LongClick(x, y) => 0 <= x <= MAX_X && 0 <= y <= MAX_Y
    case Swipe(x1, y1, x2, y2, ms) =>
      0 <= x1 <= MAX_X && 0 <= y1 <= MAX_Y && 0 <= x2 <= MAX_X && 0 <= y2 <= MAX_Y && 0 <= ms
    case Write(text) => text != "" && Typable(text)
    case Key(keys) => keys != []
    case System(_) => true
    case Sleep(ms) => 0 < ms <= 10000
  }

  function TouchReports(path: seq<Touch>): seq<Report> {
    seq(|path|, i requires 0 <= i < |path| => TouchReport(path[i].down, path[i].x, path[i].y))
  }

  /** Each key is pressed and then released. */
  function Strokes(keys: seq<(int, int)>): seq<Report> {
    seq(2 * |keys|, i requires 0 <= i < 2 * |keys| =>
      if i % 2 == 0 then KeyReport(keys[i / 2].0, keys[i / 2].1) else KEY_UP)
  }

  function Reports(c: Command): seq<Report>
    requires Parsed(c)
  {
    match c
    case Click(x, y) => [TouchReport(true, x, y), TouchReport(false, x, y)]
    case LongClick(x, y) => [TouchReport(true, x, y), TouchReport(false, x, y)]
    case Swipe(_, _, _, _, _) => TouchReports(SwipePath(c))
    case Write(text) => Strokes(KeysOfText(text))
    case Key(keys) => Strokes(keys)
    case System(key) => [SystemReport(key)]
    case Sleep(_) => []
  }

  // ---- What a device reads ----

  /** A touch report of channel 3, read little-endian; byte 0 is 3 while the finger is down. */
  ghost predicate Reads(r: Report, t: Touch) {
    && r.channel == 3 && |r.data| == 5 && r.data[0] == (if t.down then 3 else 0)
    && (forall i :: 0 <= i < 5 ==> 0 <= r.data[i] < 256)
    && r.data[1] + 256 * r.data[2] == t.x && r.data[3] + 256 * r.data[4] == t.y
  }

  /** The reports of a touch command put the finger down and lift it at the points of that command. */
  lemma TouchCommandDecodes(c: Command)
    requires Parsed(c)
    ensures c.Click? ==>
      |Reports(c)| == 2 && Reads(Reports(c)[0], Touch(true, c.x, c.y)) && Reads(Reports(c)[1], Touch(false, c.x, c.y))
    ensures c.LongClick? ==>
      |Reports(c)| == 2 && Reads(Reports(c)[0], Touch(true, c.x, c.y)) && Reads(Reports(c)[1], Touch(false, c.x, c.y))
    ensures c.Swipe? ==>
      && |Reports(c)| == |SwipePath(c)|
      && forall i :: 0 <= i < |Reports(c)| ==> Reads(Reports(c)[i], SwipePath(c)[i])
  {
    match c
    case Click(x, y) => TouchReads(Touch(true, x, y)); TouchReads(Touch(false, x, y));
    case LongClick(x, y) => TouchReads(Touch(true, x, y)); TouchReads(Touch(false, x, y));
    case Swipe(_, _, _, _, _) =>
      forall i | 0 <= i < |Reports(c)|
        ensures Reads(Reports(c)[i], SwipePath(c)[i])
      {
        SwipeShape(c, i);
        TouchReads(SwipePath(c)[i]);
      }
    case _ =>
  }

  lemma TouchReads(t: Touch)
    requires 0 <= t.x <= 360 && 0 <= t.y <= 640
    ensures Reads(TouchReport(t.down, t.x, t.y), t)
  {
  }

  /**
   The point after each 10 ms of a swipe is the proportional point between its
   ends, to half a step; a swipe takes at least 100 ms.
   */
  lemma SwipeIsLinear(c: Command, i: nat)
    requires c.Swipe? && 0 < i < |SwipePath(c)| - 1
    ensures var d := if c.durationMs < 100 then 100 else c.durationMs;
      var e, t := if 10 * i < d then 10 * i else d, SwipePath(c)[i];
      && |SwipePath(c)| == (d + 9) / 10 + 2
      && t.down && IsProportional(t.x, c.x1, c.x2, e, d) && IsProportional(t.y, c.y1, c.y2, e, d)
  {
    var e, d := Elapsed(c.durationMs, i), Duration(c.durationMs);
    BetweenIsProportional(c.x1, c.x2, e, d);
    BetweenIsProportional(c.y1, c.y2, e, d);
    hide IsProportional, Between;
  }

  /** `x` is the integer nearest to the point `elapsed / total` of the way from `from` to `to`. */
  ghost predicate IsProportional(x: int, from: int, to: int, elapsed: int, total: int)
    requires total > 0
  {
    var exact := from as real + elapsed as real / total as real * (to - from) as real;
    -0.5 <= x as real - exact <= 0.5
  }

  lemma BetweenIsProportional(from: int, to: int, elapsed: int, total: int)
    requires total > 0
    ensures IsProportional(Between(from, to, elapsed, total), from, to, elapsed, total)
  {
    hide Round, Mix;
    var p, span := Progress(elapsed, total), (to - from) as real;
    assert span == to as real - from as real;
    MixFrom(p, from as real, to as real);
    hide Progress;
  }

  lemma MixFrom(p: real, from: real, to: real)
    ensures Mix(p, from, to) == from + p * (to - from)
  {}

  /** Text is typed one character after the other: its key goes down on channel 1, and then all keys go up. */
  lemma WriteTypesText(text: string, i: nat)
    requires Parsed(Write(text)) && i < |text|
    ensures var reports := Reports(Write(text));
      && |reports| == 2 * |text|
      && reports[2 * i].channel == 1 && |reports[2 * i].data| == 2
      && CharOf(reports[2 * i].data[0], reports[2 * i].data[1]) == Some(text[i])
      && reports[2 * i + 1] == Report(1, [0, 0])
  {
    hide KeyOf, CharOf;
    var key := KeyOf(text[i]).value;
    KeyTypesChar(text[i], key.0, key.1);
    KeyIsBytes(text[i]);
  }

  /** The three system keys are the first three bits on channel 2. */
  lemma SystemKeyBits()
    ensures Reports(System(Wake)) == [Report(2, [1])]
    ensures Reports(System(Home)) == [Report(2, [2])]
    ensures Reports(System(Back)) == [Report(2, [4])]
  {}

  /** The channel a command needs, if any: one element of `required_hid_channels`. */
  function ChannelOf(c: Command): Option<int> {
    match c
    case Click(_, _) => Some(TOUCH)
    case LongClick(_, _) => Some(TOUCH)
    case Swipe(_, _, _, _, _) => Some(TOUCH)
    case Write(_) => Some(KEYBOARD)
    case Key(_) => Some(KEYBOARD)
    case System(_) => Some(SYSTEM)
    case Sleep(_) => None
  }

  lemma ReportsUseTheirChannel(c: Command, i: nat)
    requires Parsed(c) && i < |Reports(c)|
    ensures ChannelOf(c) == Some(Reports(c)[i].channel)
  {
  }

  method RequiredChannels(commands: seq<Command>) returns (channels: set<int>)
    ensures forall ch :: ch in channels <==> exists i :: 0 <= i < |commands| && ChannelOf(commands[i]) == Some(ch)
  {
    channels := {};
    for i := 0 to |commands|
      invariant forall ch :: ch in channels <==> exists j :: 0 <= j < i && ChannelOf(commands[j]) == Some(ch)
    {
      var ch := ChannelOf(commands[i]);
      if ch.Some? {
        channels := channels + {ch.value};
      }
    }
  }

  // ---- What the device still holds down ----

  datatype Held = Held(touch: bool, key: bool)

  const RELEASED := Held(false, false)

  function After(held: Held, r: Report): Held {
    if r.channel == TOUCH then held.(touch := r.data != [] && r.data[0] != 0)
    else if r.channel == KEYBOARD then held.(key := r != KEY_UP)
    else held
  }

  function HeldAfter(held: Held, reports: seq<Report>): Held {
    if reports == [] then held else After(HeldAfter(held, reports[..|reports| - 1]), reports[|reports| - 1])
  }

  lemma {:induction false} HeldAfterConcat(held: Held, a: seq<Report>, b: seq<Report>)
    ensures HeldAfter(held, a + b) == HeldAfter(HeldAfter(held, a), b)
  {
    if b == [] {
      assert a + b == a;
    } else {
      assert (a + b)[..|a + b| - 1] == a + b[..|b| - 1];
      HeldAfterConcat(held, a, b[..|b| - 1]);
    }
  }

  /** Only the last report of a channel decides whether it is held; others do not matter. */
  lemma {:induction false} OneChannel(reports: seq<Report>, channel: int)
    requires forall i :: 0 <= i < |reports| ==> reports[i].channel == channel
    ensures channel != TOUCH ==> !HeldAfter(RELEASED, reports).touch
    ensures channel != KEYBOARD ==> !HeldAfter(RELEASED, reports).key
    decreases |reports|
  {
    if reports != [] {
      OneChannel(reports[..|reports| - 1], channel);
    }
  }

  /** A completed command leaves neither a touch nor a key held. */
  lemma CompletedCommandReleases(c: Command)
    requires Parsed(c)
    ensures HeldAfter(RELEASED, Reports(c)) == RELEASED
  {
    var reports := Reports(c);
    if reports != [] {
      forall i | 0 <= i < |reports|
        ensures reports[i].channel == ChannelOf(c).value
      {
        ReportsUseTheirChannel(c, i);
      }
      OneChannel(reports, ChannelOf(c).value);
      if c.Swipe? {
        SwipeShape(c, |reports| - 1);
      }
    }
  }
}
