/**
 Mapping positions between this desktop's crossing edge and the receiver's
 crossing range (ReturnMapping in src/desktop.rs), in exact real arithmetic.
 */
module ReturnMapping {
  import opened Wrappers
  import opened Basics
  import opened Tiles

  const FRACTION_MAX := 1_000_000
  const MAX_MONITORS := 16
  const MONITOR_REACH := 65_536

  datatype Point = Point(x: int, y: int)

  datatype Rect = Rect(x: int, y: int, width: nat, height: nat) {
    predicate Contains(p: Point) {
      x <= p.x < x + width && y <= p.y < y + height
    }
  }

  /** `displaysSound` is what Geometry::validate_displays answers. */
  datatype Geometry = Geometry(monitors: seq<Rect>, displaysSound: bool) {
    predicate Valid() {
      && 1 <= |monitors| <= MAX_MONITORS
      && (forall i :: 0 <= i < |monitors| ==>
            && 1 <= monitors[i].width <= MAX_DIMENSION && 1 <= monitors[i].height <= MAX_DIMENSION
            && -MONITOR_REACH <= monitors[i].x <= MONITOR_REACH && -MONITOR_REACH <= monitors[i].y <= MONITOR_REACH)
      && displaysSound
    }

    /** The bounding box of the monitors. */
    function Bounds(): (r: Rect)
      requires Valid()
      ensures forall i :: 0 <= i < |monitors| ==>
        && r.x <= monitors[i].x && monitors[i].x + monitors[i].width <= r.x + r.width
        && r.y <= monitors[i].y && monitors[i].y + monitors[i].height <= r.y + r.height
      ensures |monitors| == 1 ==> r == monitors[0]
      ensures r.width >= 1 && r.height >= 1
    {
      BoundsOf(monitors)
    }
  }

  function BoundsOf(monitors: seq<Rect>): (r: Rect)
    requires monitors != []
    requires forall i :: 0 <= i < |monitors| ==> monitors[i].width >= 1 && monitors[i].height >= 1
    ensures forall i :: 0 <= i < |monitors| ==>
      && r.x <= monitors[i].x && monitors[i].x + monitors[i].width <= r.x + r.width
      && r.y <= monitors[i].y && monitors[i].y + monitors[i].height <= r.y + r.height
    ensures |monitors| == 1 ==> r == monitors[0]
    ensures r.width >= 1 && r.height >= 1
  {
    var first := monitors[0];
    if |monitors| == 1 then first
    else
      var rest := BoundsOf(monitors[1..]);
      var (x, y) := (Min(first.x, rest.x), Min(first.y, rest.y));
      assert forall i :: 0 < i < |monitors| ==> monitors[i] == monitors[1..][i - 1];
      Rect(x, y, Max(first.x + first.width, rest.x + rest.width) - x, Max(first.y + first.height, rest.y + rest.height) - y)
  }

  datatype Mapping = Mapping(geometry: Geometry, edge: Edge,
                             localStart: real, localEnd: real, remoteStart: real, remoteEnd: real) {
    predicate Valid() {
      && 0.0 <= localStart < localEnd <= 1.0
      && 0.0 <= remoteStart < remoteEnd <= 1.0
    }

    predicate Vertical() { edge.Vertical() }

    /** Where the edge's pixels start, and how many there are. */
    function Origin(): int
      requires geometry.Valid()
    {
      if Vertical() then geometry.Bounds().y else geometry.Bounds().x
    }

    function Length(): (r: nat)
      requires geometry.Valid()
      ensures r >= 1
    {
      if Vertical() then geometry.Bounds().height else geometry.Bounds().width
    }

    function Along(p: Point): int { if Vertical() then p.y else p.x }
    function Across(p: Point): int { if Vertical() then p.x else p.y }
  }

  // ----- f64 helpers, exact

  /** f64::round on a value that is not negative. */
  function Clamp(r: real, low: real, high: real): real {
    if r < low then low else if r > high then high else r
  }

  function ClampInt(v: int, low: int, high: int): int {
    if v < low then low else if v > high then high else v
  }

  function Progress(at: real, start: real, end: real): (r: real)
    requires start < end
    ensures 0.0 <= r <= 1.0
  {
    Clamp((at - start) / (end - start), 0.0, 1.0)
  }

  function Between(progress: real, start: real, end: real): real {
    start + progress * (end - start)
  }

  // ----- the two directions

  /** How far along the local range a pixel of the edge is. */
  function LocalProgress(m: Mapping, pixel: int): (r: real)
    requires m.Valid() && m.geometry.Valid()
    ensures 0.0 <= r <= 1.0
  {
    Progress(pixel as real / m.Length() as real, m.localStart, m.localEnd)
  }

  /** How far along the receiver's range a position is. */
  function RemoteProgress(m: Mapping, position: int): (r: real)
    requires m.Valid()
    ensures 0.0 <= r <= 1.0
  {
    Progress(position as real / FRACTION_MAX as real, m.remoteStart, m.remoteEnd)
  }

  /** The receiver's position, unrounded, for a progress along the ranges. */
  function RemoteAt(m: Mapping, progress: real): real {
    Between(progress, m.remoteStart, m.remoteEnd) * FRACTION_MAX as real
  }

  /** The fraction of the local edge for a progress along the ranges. */
  function LocalAt(m: Mapping, progress: real): real {
    Between(progress, m.localStart, m.localEnd)
  }

  /** The position in the receiver's range for a point on this desktop. */
  function Fraction(m: Mapping, point: Point): Option<int> {
    if !m.Valid() || !m.geometry.Valid() then None
    else Some(Round(RemoteAt(m, LocalProgress(m, m.Along(point) - m.Origin()))))
  }

  /** The pixel for a fraction of an edge of this length. */
  function Pixel(along: real, length: nat): int {
    ClampInt(Round(along * length as real), 0, length - 1)
  }

  /** A point a little inside `bounds` at the fraction `along` of `edge`. */
  function EdgePoint(bounds: Rect, edge: Edge, along: real): Point
    requires bounds.width >= 1 && bounds.height >= 1
  {
    var insetX := if (bounds.width - 1) / 2 < 3 then (bounds.width - 1) / 2 else 3;
    var insetY := if (bounds.height - 1) / 2 < 3 then (bounds.height - 1) / 2 else 3;
    var x := bounds.x + Pixel(along, bounds.width);
    var y := bounds.y + Pixel(along, bounds.height);
    match edge
    case Left => Point(bounds.x + insetX, y)
    case Right => Point(bounds.x + bounds.width - 1 - insetX, y)
    case Top => Point(x, bounds.y + insetY)
    case Bottom => Point(x, bounds.y + bounds.height - 1 - insetY)
  }

  /** The point of `monitor`'s stretch of the edge line nearest `p`, if the line meets it. */
  function Near(m: Mapping, monitor: Rect, p: Point): Option<Point> {
    var near := if m.Vertical() then p.(y := ClampInt(p.y, monitor.y, monitor.y + monitor.height - 1))
                else p.(x := ClampInt(p.x, monitor.x, monitor.x + monitor.width - 1));
    if monitor.Contains(near) then Some(near) else None
  }

  function Distance(a: Point, b: Point): nat { Abs(a.x - b.x) + Abs(a.y - b.y) }

  /** The first of the nearest points the monitors offer. */
  function Nearest(m: Mapping, monitors: seq<Rect>, p: Point): (r: Option<Point>)
    ensures r.Some? ==> exists i :: 0 <= i < |monitors| && Near(m, monitors[i], p) == r
    ensures forall i :: 0 <= i < |monitors| && Near(m, monitors[i], p).Some? ==>
      r.Some? && Distance(r.value, p) <= Distance(Near(m, monitors[i], p).value, p)
  {
    if monitors == [] then None
    else
      var n := |monitors| - 1;
      var (last, rest) := (Near(m, monitors[n], p), Nearest(m, monitors[..n], p));
      assert forall i :: 0 <= i < n ==> monitors[..n][i] == monitors[i];
      assert forall i :: 0 <= i < n && Near(m, monitors[..n][i], p).Some? ==>
        rest.Some? && Distance(rest.value, p) <= Distance(Near(m, monitors[..n][i], p).value, p);
      if rest.None? || (last.Some? && Distance(last.value, p) < Distance(rest.value, p)) then last else rest
  }

  predicate Accepts(m: Mapping, position: int) {
    Round(m.remoteStart * FRACTION_MAX as real) <= position <= Round(m.remoteEnd * FRACTION_MAX as real)
  }

  /** The edge point a receiver's position asks for, before monitors are considered. */
  function Wanted(m: Mapping, position: int): Point
    requires m.Valid() && m.geometry.Valid()
  {
    EdgePoint(m.geometry.Bounds(), m.edge, LocalAt(m, RemoteProgress(m, position)))
  }

  function Position(m: Mapping, position: int): Option<Point> {
    if !m.Valid() || !Accepts(m, position) || !m.geometry.Valid() then None
    else Nearest(m, m.geometry.monitors, Wanted(m, position))
  }

  // ----- what position returns

  predicate OnMonitor(g: Geometry, p: Point) {
    exists i :: 0 <= i < |g.monitors| && g.monitors[i].Contains(p)
  }

  lemma NearIsNearest(m: Mapping, monitor: Rect, p: Point, q: Point)
    requires monitor.Contains(q) && m.Across(q) == m.Across(p)
    ensures Near(m, monitor, p).Some? && Distance(Near(m, monitor, p).value, p) <= Distance(q, p)
  {
  }

  /** Some monitor has a point on the edge line through `p`. */
  ghost predicate MeetsLine(m: Mapping, p: Point) {
    exists q :: OnMonitor(m.geometry, q) && m.Across(q) == m.Across(p)
  }

  lemma NearestHolds(m: Mapping, wanted: Point)
    ensures var r := Nearest(m, m.geometry.monitors, wanted);
      && (r.Some? <==> MeetsLine(m, wanted))
      && (r.Some? ==> OnMonitor(m.geometry, r.value) && m.Across(r.value) == m.Across(wanted))
      && forall q :: OnMonitor(m.geometry, q) && m.Across(q) == m.Across(wanted) ==>
           r.Some? && Distance(r.value, wanted) <= Distance(q, wanted)
  {
    var r := Nearest(m, m.geometry.monitors, wanted);
    forall q | OnMonitor(m.geometry, q) && m.Across(q) == m.Across(wanted)
      ensures r.Some? && Distance(r.value, wanted) <= Distance(q, wanted)
    {
      var i :| 0 <= i < |m.geometry.monitors| && m.geometry.monitors[i].Contains(q);
      NearIsNearest(m, m.geometry.monitors[i], wanted, q);
    }
    if r.Some? {
      var i :| 0 <= i < |m.geometry.monitors| && Near(m, m.geometry.monitors[i], wanted) == r;
      assert OnMonitor(m.geometry, r.value);
    }
  }

  /**
   A position is refused only when it is outside the range or no monitor meets
   the edge line; otherwise its point is on a monitor, on the edge line, and no
   point of any monitor on that line is nearer to the one asked for.
   */
  lemma PositionIsNearest(m: Mapping, position: int)
    requires m.Valid() && m.geometry.Valid()
    ensures Position(m, position).Some? <==> Accepts(m, position) && MeetsLine(m, Wanted(m, position))
    ensures Position(m, position).Some? ==>
      var p := Position(m, position).value;
      && OnMonitor(m.geometry, p)
      && m.Across(p) == m.Across(Wanted(m, position))
      && forall q :: OnMonitor(m.geometry, q) && m.Across(q) == m.Across(p) ==>
           Distance(p, Wanted(m, position)) <= Distance(q, Wanted(m, position))
  {
    NearestHolds(m, Wanted(m, position));
  }

  // ----- and that it is at this desktop's own edge

  /** Each side of the box is the side of some monitor. */
  ghost predicate Attained(monitors: seq<Rect>, r: Rect) {
    && (exists i :: 0 <= i < |monitors| && monitors[i].x == r.x)
    && (exists i :: 0 <= i < |monitors| && monitors[i].y == r.y)
    && (exists i :: 0 <= i < |monitors| && monitors[i].x + monitors[i].width == r.x + r.width)
    && (exists i :: 0 <= i < |monitors| && monitors[i].y + monitors[i].height == r.y + r.height)
  }

  lemma {:induction false} BoundsAreAttained(monitors: seq<Rect>)
    requires monitors != []
    requires forall i :: 0 <= i < |monitors| ==> monitors[i].width >= 1 && monitors[i].height >= 1
    ensures Attained(monitors, BoundsOf(monitors))
  {
    var first := monitors[0];
    assert first == monitors[0];
    if |monitors| > 1 {
      BoundsAreAttained(monitors[1..]);
      AttainedMore(monitors, BoundsOf(monitors[1..]), BoundsOf(monitors));
    }
  }

  lemma AttainedMore(monitors: seq<Rect>, rest: Rect, all: Rect)
    requires |monitors| > 1 && Attained(monitors[1..], rest)
    requires all.x == Min(monitors[0].x, rest.x) && all.y == Min(monitors[0].y, rest.y)
    requires all.x + all.width == Max(monitors[0].x + monitors[0].width, rest.x + rest.width)
    requires all.y + all.height == Max(monitors[0].y + monitors[0].height, rest.y + rest.height)
    ensures Attained(monitors, all)
  {
    var a :| 0 <= a < |monitors| - 1 && monitors[1..][a].x == rest.x;
    var b :| 0 <= b < |monitors| - 1 && monitors[1..][b].y == rest.y;
    var c :| 0 <= c < |monitors| - 1 && monitors[1..][c].x + monitors[1..][c].width == rest.x + rest.width;
    var d :| 0 <= d < |monitors| - 1 && monitors[1..][d].y + monitors[1..][d].height == rest.y + rest.height;
    assert monitors[a + 1].x == rest.x && monitors[b + 1].y == rest.y;
    assert monitors[c + 1].x + monitors[c + 1].width == rest.x + rest.width;
    assert monitors[d + 1].y + monitors[d + 1].height == rest.y + rest.height;
  }

  /** `a` reaches at least as far left, right, up or down as `b`. */
  predicate ReachesAsFar(edge: Edge, a: Rect, b: Rect) {
    match edge
    case Left => a.x <= b.x
    case Right => a.x + a.width >= b.x + b.width
    case Top => a.y <= b.y
    case Bottom => a.y + a.height >= b.y + b.height
  }

  predicate Furthest(monitors: seq<Rect>, edge: Edge, i: nat) {
    i < |monitors| && forall j :: 0 <= j < |monitors| ==> ReachesAsFar(edge, monitors[i], monitors[j])
  }

  /** How many pixels in from that side of a rectangle a point is; its outermost row is 0. */
  function Depth(r: Rect, edge: Edge, p: Point): int {
    match edge
    case Left => p.x - r.x
    case Right => r.x + r.width - 1 - p.x
    case Top => p.y - r.y
    case Bottom => r.y + r.height - 1 - p.y
  }

  /** The monitor that makes that side of the box. */
  lemma SideIsFurthest(g: Geometry, edge: Edge) returns (i: nat)
    requires g.Valid()
    ensures Furthest(g.monitors, edge, i) && forall p :: Depth(g.monitors[i], edge, p) == Depth(g.Bounds(), edge, p)
  {
    var (ms, b) := (g.monitors, g.Bounds());
    BoundsAreAttained(ms);
    match edge
    case Left => i :| 0 <= i < |ms| && ms[i].x == b.x;
    case Right => i :| 0 <= i < |ms| && ms[i].x + ms[i].width == b.x + b.width;
    case Top => i :| 0 <= i < |ms| && ms[i].y == b.y;
    case Bottom => i :| 0 <= i < |ms| && ms[i].y + ms[i].height == b.y + b.height;
  }

  lemma EdgePointDepth(bounds: Rect, edge: Edge, along: real)
    requires bounds.width >= 1 && bounds.height >= 1
    ensures 0 <= Depth(bounds, edge, EdgePoint(bounds, edge, along)) <= 3
  {
  }

  lemma SameDepth(m: Mapping, r: Rect, p: Point, q: Point)
    requires m.Across(p) == m.Across(q)
    ensures Depth(r, m.edge, p) == Depth(r, m.edge, q)
  {
  }

  ghost predicate AtEdge(monitors: seq<Rect>, edge: Edge, p: Point) {
    exists i: nat :: Furthest(monitors, edge, i) && 0 <= Depth(monitors[i], edge, p) <= 3
  }

  /** The point is just inside the desktop's outermost side on the mapping's own edge, at most three pixels in. */
  lemma PositionIsAtEdge(m: Mapping, position: int)
    requires m.Valid() && m.geometry.Valid() && Position(m, position).Some?
    ensures AtEdge(m.geometry.monitors, m.edge, Position(m, position).value)
  {
    var (p, b) := (Position(m, position).value, m.geometry.Bounds());
    PositionIsNearest(m, position);
    EdgePointDepth(b, m.edge, LocalAt(m, RemoteProgress(m, position)));
    SameDepth(m, b, p, Wanted(m, position));
    var i := SideIsFurthest(m.geometry, m.edge);
    assert 0 <= Depth(m.geometry.monitors[i], m.edge, p) <= 3;
  }

  // ----- fractions run along the edge from the start of the range to its end

  /** Where the pixels of the edge begin, and how many there are. */
  function EdgeSpan(m: Mapping): (int, nat)
    requires m.geometry.Valid()
  {
    var b := m.geometry.Bounds();
    if m.edge.Left? || m.edge.Right? then (b.y, b.height) else (b.x, b.width)
  }

  /** The point's coordinate along the edge. */
  function AlongEdge(m: Mapping, p: Point): int {
    if m.edge.Left? || m.edge.Right? then p.y else p.x
  }

  lemma QuotientMonotone(a: real, b: real, size: real)
    requires a <= b && size > 0.0
    ensures a / size <= b / size
  {
  }

  lemma ProgressMonotone(a: real, b: real, start: real, end: real)
    requires start < end && a <= b
    ensures Progress(a, start, end) <= Progress(b, start, end)
  {
    QuotientMonotone(a - start, b - start, end - start);
  }

  lemma ProgressEnds(at: real, start: real, end: real)
    requires start < end
    ensures at <= start ==> Progress(at, start, end) == 0.0
    ensures at >= end ==> Progress(at, start, end) == 1.0
  {
    var size := end - start;
    if at <= start { QuotientMonotone(at - start, 0.0, size); }
    if at >= end {
      QuotientMonotone(size, at - start, size);
      assert size / size == 1.0;
    }
  }

  lemma BetweenMonotone(a: real, b: real, start: real, end: real)
    requires a <= b && start < end
    ensures Between(a, start, end) <= Between(b, start, end)
  {
    ScaledMonotone(a, b, end - start);
  }

  lemma ScaledMonotone(a: real, b: real, k: real)
    requires a <= b && k >= 0.0
    ensures a * k <= b * k
  {
    NonNegative(b - a, k);
  }

  /** Further along the edge is never an earlier fraction. */
  lemma FractionMonotone(m: Mapping, p: Point, q: Point)
    requires m.Valid() && m.geometry.Valid() && AlongEdge(m, p) <= AlongEdge(m, q)
    ensures Fraction(m, p).value <= Fraction(m, q).value
  {
    var (a, b) := (m.Along(p) - m.Origin(), m.Along(q) - m.Origin());
    QuotientMonotone(a as real, b as real, m.Length() as real);
    ProgressMonotone(a as real / m.Length() as real, b as real / m.Length() as real, m.localStart, m.localEnd);
    BetweenMonotone(LocalProgress(m, a), LocalProgress(m, b), m.remoteStart, m.remoteEnd);
    RoundMonotone(RemoteAt(m, LocalProgress(m, a)), RemoteAt(m, LocalProgress(m, b)));
  }

  /** Up to the start of the local range it is the receiver's start, from its end on the receiver's end. */
  lemma FractionEnds(m: Mapping, p: Point)
    requires m.Valid() && m.geometry.Valid()
    ensures var (first, length) := EdgeSpan(m);
      var share := (AlongEdge(m, p) - first) as real / length as real;
      && (share <= m.localStart ==> Fraction(m, p).value == Round(m.remoteStart * FRACTION_MAX as real))
      && (share >= m.localEnd ==> Fraction(m, p).value == Round(m.remoteEnd * FRACTION_MAX as real))
  {
    var share := (m.Along(p) - m.Origin()) as real / m.Length() as real;
    ProgressEnds(share, m.localStart, m.localEnd);
  }

  // ----- what fraction returns, position accepts

  lemma RoundMonotone(a: real, b: real)
    requires a <= b
    ensures Round(a) <= Round(b)
  {
  }

  lemma BetweenStays(progress: real, start: real, end: real)
    requires 0.0 <= progress <= 1.0 && start < end
    ensures start <= Between(progress, start, end) <= end
  {
    var size := end - start;
    assert 0.0 <= progress * size;
    assert (1.0 - progress) * size >= 0.0;
  }

  lemma FractionIsAccepted(m: Mapping, point: Point)
    ensures Fraction(m, point).Some? <==> m.Valid() && m.geometry.Valid()
    ensures Fraction(m, point).Some? ==> Accepts(m, Fraction(m, point).value)
  {
    if m.Valid() && m.geometry.Valid() {
      var progress := LocalProgress(m, m.Along(point) - m.Origin());
      BetweenStays(progress, m.remoteStart, m.remoteEnd);
      RoundMonotone(m.remoteStart * FRACTION_MAX as real, RemoteAt(m, progress));
      RoundMonotone(RemoteAt(m, progress), m.remoteEnd * FRACTION_MAX as real);
    }
  }

  // ----- the round trip

  predicate Within(a: real, b: real, gap: real) {
    a - b <= gap && b - a <= gap
  }

  lemma WithinScaled(a: real, b: real, gap: real, scale: real)
    requires scale > 0.0 && Within(a, b, gap)
    ensures Within(a * scale, b * scale, gap * scale)
  {
    assert (gap - (a - b)) * scale >= 0.0;
    assert (gap - (b - a)) * scale >= 0.0;
  }

  lemma WithinShifted(a: real, b: real, gap: real, start: real)
    requires Within(a, b, gap)
    ensures Within(start + a, start + b, gap)
  {
  }

  lemma WithinDivided(a: real, b: real, gap: real, size: real)
    requires size > 0.0 && Within(a, b, gap)
    ensures Within(a / size, b / size, gap / size)
  {
    WithinScaled(a, b, gap, 1.0 / size);
  }

  /** The pixel for a fraction of an edge is within one pixel of it. */
  lemma PixelIsClose(along: real, length: nat)
    requires 0.0 <= along <= 1.0 && length >= 1
    ensures Within(Pixel(along, length) as real, along * length as real, 1.0)
  {
    var (size, at) := (length as real, along * length as real);
    NonNegative(along, size);
    ScaledDown(along, size);
    NearestPixel(at, length);
  }

  lemma ScaledDown(share: real, size: real)
    requires share <= 1.0 && size >= 0.0
    ensures share * size <= size
  {
    NonNegative(1.0 - share, size);
  }

  lemma NearestPixel(at: real, length: nat)
    requires length >= 1 && 0.0 <= at <= length as real
    ensures Within(ClampInt(Round(at), 0, length - 1) as real, at, 1.0)
  {
  }

  /** Reading a progress back from within `gap` of where it leads changes it by at most gap / size. */
  lemma ProgressIsClose(progress: real, start: real, end: real, at: real, gap: real)
    requires start < end && 0.0 <= progress <= 1.0 && Within(at, Between(progress, start, end), gap)
    ensures Within(Progress(at, start, end), progress, gap / (end - start))
  {
    var size := end - start;
    WithinDivided(at - start, progress * size, gap, size);
    assert progress * size / size == progress;
  }

  /** Going to a progress and back only clamps. */
  lemma BetweenProgress(at: real, start: real, end: real)
    requires start < end
    ensures Between(Progress(at, start, end), start, end) == Clamp(at, start, end)
  {
    var size := end - start;
    var raw := (at - start) / size;
    assert raw * size == at - start;
    if raw < 0.0 {
      assert (0.0 - raw) * size > 0.0;
    } else if raw > 1.0 {
      assert (raw - 1.0) * size > 0.0;
    } else {
      NonNegative(1.0 - raw, size);
      NonNegative(raw, size);
    }
  }

  lemma NonNegative(a: real, b: real)
    requires a >= 0.0 && b >= 0.0
    ensures a * b >= 0.0
  {
  }

  /** An accepted position is within half a step of the point of the range it stands for. */
  lemma AcceptedIsClose(position: int, start: real, end: real)
    requires start < end
    requires Round(start * FRACTION_MAX as real) <= position <= Round(end * FRACTION_MAX as real)
    ensures Within(Clamp(position as real / FRACTION_MAX as real, start, end) * FRACTION_MAX as real, position as real, 0.5)
  {
  }

  /** On one monitor the point asked for is on it, so position returns just that point. */
  lemma OneMonitorTakesWanted(m: Mapping, position: int)
    requires m.Valid() && m.geometry.Valid() && |m.geometry.monitors| == 1 && Accepts(m, position)
    ensures Position(m, position) == Some(Wanted(m, position))
  {
    var monitor := m.geometry.monitors[0];
    assert m.geometry.Bounds() == monitor;
    assert Near(m, monitor, Wanted(m, position)) == Some(Wanted(m, position));
  }

  /** How far a round trip may be off: one local pixel, in steps of the receiver's range, and one step. */
  function Slack(m: Mapping): real
    requires m.Valid() && m.geometry.Valid()
  {
    PixelInSteps(m.Length() as real, m.localEnd - m.localStart, m.remoteEnd - m.remoteStart, FRACTION_MAX as real) + 1.0
  }

  lemma PositiveProduct(a: real, b: real)
    requires a > 0.0 && b > 0.0
    ensures a * b > 0.0
  {
  }

  /** One of `length` local pixels, in `steps` of the receiver's range. */
  function PixelInSteps(length: real, local: real, remote: real, steps: real): real
    requires length >= 1.0 && local > 0.0
  {
    PositiveProduct(local, length);
    steps * remote / (local * length)
  }

  lemma Cancel(a: real, b: real, c: real)
    requires c > 0.0 && a * c == b * c
    ensures a == b
  {
    assert (a - b) * c == 0.0;
  }

  /** A pixel within one of where `progress` leads here is read back as close a progress. */
  lemma BackIsClose(progress: real, pixel: real, length: real, start: real, end: real)
    requires start < end && length >= 1.0 && 0.0 <= progress <= 1.0
    requires Within(pixel, Between(progress, start, end) * length, 1.0)
    ensures Within(Progress(pixel / length, start, end), progress, 1.0 / length / (end - start))
  {
    var along := Between(progress, start, end);
    WithinDivided(pixel, along * length, 1.0, length);
    assert along * length / length == along;
    ProgressIsClose(progress, start, end, pixel / length, 1.0 / length);
  }

  lemma ThereIsClose(back: real, progress: real, off: real, start: real, end: real, steps: real)
    requires start < end && steps > 0.0 && Within(back, progress, off)
    ensures Within(Between(back, start, end) * steps, Between(progress, start, end) * steps, Scaled(off, end - start, steps))
  {
    var size := end - start;
    WithinScaled(back, progress, off, size);
    WithinShifted(back * size, progress * size, off * size, start);
    WithinScaled(Between(back, start, end), Between(progress, start, end), off * (end - start), steps);
  }

  lemma WantedPixel(m: Mapping, position: int)
    requires m.Valid() && m.geometry.Valid()
    ensures m.Along(Wanted(m, position)) - m.Origin() == Pixel(LocalAt(m, RemoteProgress(m, position)), m.Length())
  {
  }

  /** One of `length` pixels, as a part of the range from `start` to `end`. */
  function Share(length: real, start: real, end: real): real
    requires length >= 1.0 && start < end
  {
    1.0 / length / (end - start)
  }

  function Scaled(share: real, size: real, steps: real): real {
    share * size * steps
  }

  lemma PixelReadBack(progress: real, start: real, end: real, length: nat)
    requires 0.0 <= start < end <= 1.0 && length >= 1 && 0.0 <= progress <= 1.0
    ensures Within(Progress(Pixel(Between(progress, start, end), length) as real / length as real, start, end),
                   progress, Share(length as real, start, end))
  {
    var along := Between(progress, start, end);
    var pixel := Pixel(along, length) as real;
    assert Within(pixel, along * length as real, 1.0) by {
      BetweenStays(progress, start, end);
      PixelIsClose(along, length);
    }
    BackIsClose(progress, pixel, length as real, start, end);
  }

  lemma ShareIsSlack(length: real, start: real, end: real, remote: real, steps: real)
    requires length >= 1.0 && start < end
    ensures Scaled(Share(length, start, end), remote, steps) == PixelInSteps(length, end - start, remote, steps)
  {
    var local := end - start;
    PositiveProduct(local, length);
    var share := Share(length, start, end);
    var z := PixelInSteps(length, local, remote, steps);
    assert share * local == 1.0 / length;
    assert share * (local * length) == 1.0;
    assert z * (local * length) == steps * remote;
    assert share * remote * steps * (local * length) == (share * (local * length)) * (remote * steps);
    Cancel(Scaled(share, remote, steps), z, local * length);
  }

  lemma ReadBack(m: Mapping, progress: real)
    requires m.Valid() && m.geometry.Valid() && 0.0 <= progress <= 1.0
    ensures Within(RemoteAt(m, LocalProgress(m, Pixel(LocalAt(m, progress), m.Length()))), RemoteAt(m, progress), Slack(m) - 1.0)
  {
    var pixel := Pixel(LocalAt(m, progress), m.Length());
    assert Within(LocalProgress(m, pixel), progress, Share(m.Length() as real, m.localStart, m.localEnd)) by {
      PixelReadBack(progress, m.localStart, m.localEnd, m.Length());
    }
    ThereIsClose(LocalProgress(m, pixel), progress, Share(m.Length() as real, m.localStart, m.localEnd), m.remoteStart, m.remoteEnd, FRACTION_MAX as real);
    ShareIsSlack(m.Length() as real, m.localStart, m.localEnd, m.remoteEnd - m.remoteStart, FRACTION_MAX as real);
  }

  lemma AskedIsClose(m: Mapping, position: int)
    requires m.Valid() && Accepts(m, position)
    ensures Within(RemoteAt(m, RemoteProgress(m, position)), position as real, 0.5)
  {
    BetweenProgress(position as real / FRACTION_MAX as real, m.remoteStart, m.remoteEnd);
    AcceptedIsClose(position, m.remoteStart, m.remoteEnd);
  }

  lemma Chain(there: real, meant: real, position: real, slack: real)
    requires Within(there, meant, slack - 1.0) && Within(meant, position, 0.5)
    ensures Within(Round(there) as real, position, slack)
  {
    RoundIsClose(there);
  }

  lemma RoundIsClose(r: real)
    ensures Within(Round(r) as real, r, 0.5)
  {
  }

  /** The point a position asks for reads back as that position, within the slack, on any monitors. */
  lemma WantedReadsBack(m: Mapping, position: int)
    requires m.Valid() && m.geometry.Valid() && Accepts(m, position)
    ensures Fraction(m, Wanted(m, position)).Some?
    ensures Within(Fraction(m, Wanted(m, position)).value as real, position as real, Slack(m))
  {
    WantedPixel(m, position);
    var pixel := m.Along(Wanted(m, position)) - m.Origin();
    ReadBack(m, RemoteProgress(m, position));
    AskedIsClose(m, position);
    Chain(RemoteAt(m, LocalProgress(m, pixel)), RemoteAt(m, RemoteProgress(m, position)), position as real, Slack(m));
  }

  /** `asked` is on the line through `p` along the edge and reads as the position, within the slack. */
  predicate Asks(m: Mapping, position: int, p: Point, asked: Point) {
    && (if m.edge.Left? || m.edge.Right? then asked.x == p.x else asked.y == p.y)
    && Fraction(m, asked).Some? && Within(Fraction(m, asked).value as real, position as real, Slack(m))
  }

  /** No point of a monitor on the line of `asked` along the edge is nearer to it than `p`. */
  ghost predicate NearestTo(m: Mapping, p: Point, asked: Point) {
    OnMonitor(m.geometry, p) &&
    forall q :: OnMonitor(m.geometry, q) && (if m.edge.Left? || m.edge.Right? then q.x == p.x else q.y == p.y) ==>
      Distance(p, asked) <= Distance(q, asked)
  }

  /** On any monitors: the point returned is the nearest one of a monitor to a point that reads as the position. */
  lemma PositionReadsBack(m: Mapping, position: int)
    requires m.Valid() && m.geometry.Valid() && Position(m, position).Some?
    ensures exists asked :: Asks(m, position, Position(m, position).value, asked)
                            && NearestTo(m, Position(m, position).value, asked)
  {
    PositionIsNearest(m, position);
    WantedReadsBack(m, position);
    assert Asks(m, position, Position(m, position).value, Wanted(m, position));
  }

  /**
   Return mapping bound: on one monitor, sending a received position back is off
   by at most Slack.
   */
  lemma RoundTrip(m: Mapping, position: int)
    requires m.Valid() && m.geometry.Valid() && |m.geometry.monitors| == 1 && Accepts(m, position)
    ensures Position(m, position).Some?
    ensures Fraction(m, Position(m, position).value).Some?
    ensures Within(Fraction(m, Position(m, position).value).value as real, position as real, Slack(m))
  {
    OneMonitorTakesWanted(m, position);
    WantedReadsBack(m, position);
  }
}
