/**
 Where a computer's desktop can be entered and left on GNOME
 (packaging/gnome-extension/shell.js): the monitors along one outer edge cut to
 a range of fractions of MAX, the pixel a crossing enters at, and the position
 a push against a barrier reports. Fractions are exact.
 */
module EdgeGeometry {
  import opened Wrappers
  import opened Basics
  import opened Tiles

  const MAX := 1_000_000
  const DEAD_CORNER := 8

  datatype Monitor = Monitor(x: int, y: int, width: int, height: int) {
    function Side(edge: Edge): int {
      match edge
      case Left => x
      case Right => x + width
      case Top => y
      case Bottom => y + height
    }

    predicate Has(px: int, py: int) {
      x <= px < x + width && y <= py < y + height
    }
  }

  datatype Segment = Segment(start: int, end: int, monitor: Monitor) {
    predicate Has(c: int) { start <= c < end }
  }

  datatype Geometry = Geometry(low: int, high: int, boundary: int, segments: seq<Segment>) {
    function Span(): int { high - low }
  }

  /** Whether side `a` lies at least as far out as side `b`. */
  predicate AsFarOut(edge: Edge, a: int, b: int) {
    if edge.Lesser() then a <= b else a >= b
  }

  /** The desktop's own side: the outermost of its monitors'. */
  function Outermost(ms: seq<Monitor>, edge: Edge): (r: int)
    requires ms != []
    ensures exists i :: 0 <= i < |ms| && ms[i].Side(edge) == r
    ensures forall i :: 0 <= i < |ms| ==> AsFarOut(edge, r, ms[i].Side(edge))
  {
    var last := ms[|ms| - 1].Side(edge);
    if |ms| == 1 then last
    else
      var rest := Outermost(ms[..|ms| - 1], edge);
      if AsFarOut(edge, rest, last) then rest else last
  }

  function FloorOf(n: int): (r: int)
    ensures forall k: int :: k <= r <==> k * MAX <= n
  {
    n / MAX
  }

  function CeilOf(n: int): (r: int)
    ensures forall k: int :: r <= k <==> n <= k * MAX
  {
    -(-n / MAX)
  }

  /** One monitor's part of the range, perhaps empty. */
  function Cut(m: Monitor, edge: Edge, first: int, last: int): Segment {
    Segment(Max(m.Side(edge.First()), first), Min(m.Side(edge.Last()), last), m)
  }

  function Segments(ms: seq<Monitor>, edge: Edge, boundary: int, first: int, last: int): seq<Segment> {
    if ms == [] then []
    else
      var (rest, m) := (Segments(ms[..|ms| - 1], edge, boundary, first, last), ms[|ms| - 1]);
      var cut := Cut(m, edge, first, last);
      if m.Side(edge) == boundary && cut.end > cut.start then rest + [cut] else rest
  }

  function EdgeGeometryOf(ms: seq<Monitor>, edge: Edge, start: int, end: int): Geometry
    requires ms != []
  {
    var (low, high, boundary) := (Outermost(ms, edge.First()), Outermost(ms, edge.Last()), Outermost(ms, edge));
    var span := high - low;
    Geometry(low, high, boundary, Segments(ms, edge, boundary, low + CeilOf(start * span), low + FloorOf(end * span)))
  }

  // ----- which pixels the segments cover

  /** Pixel `c` of a desktop from `low` of length `span` lies wholly inside the range. */
  predicate InRange(c: int, low: int, span: int, start: int, end: int) {
    start * span <= (c - low) * MAX && (c + 1 - low) * MAX <= end * span
  }

  /** Monitor `m` is behind pixel `c` of the desktop's edge. */
  predicate Behind(m: Monitor, edge: Edge, boundary: int, c: int) {
    m.Side(edge) == boundary && m.Side(edge.First()) <= c < m.Side(edge.Last())
  }

  /** A pixel of the desktop's outer edge that lies in the range and has a monitor behind it. */
  ghost predicate Covered(ms: seq<Monitor>, edge: Edge, start: int, end: int, c: int)
    requires ms != []
  {
    var low := Outermost(ms, edge.First());
    && InRange(c, low, Outermost(ms, edge.Last()) - low, start, end)
    && exists m :: m in ms && Behind(m, edge, Outermost(ms, edge), c)
  }

  ghost predicate OnSegment(segments: seq<Segment>, c: int) {
    exists s :: s in segments && s.Has(c)
  }

  lemma {:induction false} SegmentsExactly(ms: seq<Monitor>, edge: Edge, boundary: int, first: int, last: int, s: Segment)
    ensures s in Segments(ms, edge, boundary, first, last) <==>
            s.monitor in ms && s.monitor.Side(edge) == boundary && s == Cut(s.monitor, edge, first, last) && s.start < s.end
  {
    if ms != [] {
      SegmentsExactly(ms[..|ms| - 1], edge, boundary, first, last, s);
      assert ms == ms[..|ms| - 1] + [ms[|ms| - 1]];
    }
  }

  lemma CutExactly(m: Monitor, edge: Edge, low: int, span: int, start: int, end: int, c: int)
    ensures Cut(m, edge, low + CeilOf(start * span), low + FloorOf(end * span)).Has(c) <==>
            m.Side(edge.First()) <= c < m.Side(edge.Last()) && InRange(c, low, span, start, end)
  {
    var (ceil, floor) := (CeilOf(start * span), FloorOf(end * span));
    assert ceil <= c - low <==> start * span <= (c - low) * MAX;
    assert c + 1 - low <= floor <==> (c + 1 - low) * MAX <= end * span;
  }

  lemma SegmentIsCovered(ms: seq<Monitor>, edge: Edge, start: int, end: int, s: Segment, c: int)
    requires ms != [] && s in EdgeGeometryOf(ms, edge, start, end).segments && s.Has(c)
    ensures Covered(ms, edge, start, end, c)
  {
    var g := EdgeGeometryOf(ms, edge, start, end);
    SegmentsExactly(ms, edge, g.boundary, g.low + CeilOf(start * g.Span()), g.low + FloorOf(end * g.Span()), s);
    CutExactly(s.monitor, edge, g.low, g.Span(), start, end, c);
    assert Behind(s.monitor, edge, g.boundary, c);
  }

  lemma CutIsOnSegment(ms: seq<Monitor>, edge: Edge, boundary: int, first: int, last: int, m: Monitor, c: int)
    requires m in ms && m.Side(edge) == boundary && Cut(m, edge, first, last).Has(c)
    ensures OnSegment(Segments(ms, edge, boundary, first, last), c)
  {
    SegmentsExactly(ms, edge, boundary, first, last, Cut(m, edge, first, last));
  }

  lemma MonitorIsOnSegment(ms: seq<Monitor>, edge: Edge, start: int, end: int, m: Monitor, c: int)
    requires ms != [] && m in ms && Behind(m, edge, Outermost(ms, edge), c)
    requires var g := EdgeGeometryOf(ms, edge, start, end); InRange(c, g.low, g.Span(), start, end)
    ensures OnSegment(EdgeGeometryOf(ms, edge, start, end).segments, c)
  {
    var g := EdgeGeometryOf(ms, edge, start, end);
    CutExactly(m, edge, g.low, g.Span(), start, end, c);
    CutIsOnSegment(ms, edge, g.boundary, g.low + CeilOf(start * g.Span()), g.low + FloorOf(end * g.Span()), m, c);
  }

  /** The segments hold exactly the covered pixels. */
  lemma CoveredExactly(ms: seq<Monitor>, edge: Edge, start: int, end: int, c: int)
    requires ms != []
    ensures Covered(ms, edge, start, end, c) <==> OnSegment(EdgeGeometryOf(ms, edge, start, end).segments, c)
  {
    if Covered(ms, edge, start, end, c) {
      var m :| m in ms && Behind(m, edge, Outermost(ms, edge), c);
      MonitorIsOnSegment(ms, edge, start, end, m, c);
    } else if OnSegment(EdgeGeometryOf(ms, edge, start, end).segments, c) {
      var s :| s in EdgeGeometryOf(ms, edge, start, end).segments && s.Has(c);
      SegmentIsCovered(ms, edge, start, end, s, c);
    }
  }

  // ----- the entry pixel

  function Along(s: Segment, wanted: int): int {
    Max(s.start, Min(s.end - 1, wanted))
  }

  function Off(s: Segment, wanted: int): int { Abs(Along(s, wanted) - wanted) }

  /** The segment that comes nearest to the wanted pixel, the first of equals. */
  function NearestSegment(segments: seq<Segment>, wanted: int): Option<Segment> {
    if segments == [] then None
    else
      var (best, s) := (NearestSegment(segments[..|segments| - 1], wanted), segments[|segments| - 1]);
      if best.Some? && Off(best.value, wanted) <= Off(s, wanted) then best else Some(s)
  }

  lemma {:induction false} NearestSegmentIsNearest(segments: seq<Segment>, wanted: int)
    ensures segments == [] <==> NearestSegment(segments, wanted).None?
    ensures segments != [] ==> NearestSegment(segments, wanted).value in segments
    ensures forall s :: s in segments ==> Off(NearestSegment(segments, wanted).value, wanted) <= Off(s, wanted)
  {
    if segments != [] {
      NearestSegmentIsNearest(segments[..|segments| - 1], wanted);
      assert segments == segments[..|segments| - 1] + [segments[|segments| - 1]];
    }
  }

  datatype Entry = NoMonitor | TooSmall | At(x: int, y: int, monitor: Monitor)

  function Wanted(g: Geometry, position: int): int {
    g.low + FloorOf(position * g.Span())
  }

  /** Where a crossing at `position` comes in, a few pixels inside the edge. */
  function EntryOf(ms: seq<Monitor>, edge: Edge, start: int, end: int, position: int): Entry
    requires ms != []
  {
    var g := EdgeGeometryOf(ms, edge, start, end);
    var segment := NearestSegment(g.segments, Wanted(g, position));
    if segment.None? then NoMonitor
    else
      var (along, m) := (Along(segment.value, Wanted(g, position)), segment.value.monitor);
      if m.width < 8 || m.height < 8 then TooSmall
      else
        match edge
        case Left => At(g.boundary + 3, along, m)
        case Right => At(g.boundary - 4, along, m)
        case Top => At(along, g.boundary + 3, m)
        case Bottom => At(along, g.boundary - 4, m)
  }

  lemma OffIsLeast(s: Segment, wanted: int, c: int)
    requires s.Has(c)
    ensures s.Has(Along(s, wanted)) && Off(s, wanted) <= Abs(c - wanted)
  {
  }

  lemma OnSegmentOf(s: Segment, segments: seq<Segment>, wanted: int)
    requires s in segments && s.start < s.end
    ensures OnSegment(segments, Along(s, wanted))
  {
    OffIsLeast(s, wanted, s.start);
  }

  ghost predicate NearestCovered(ms: seq<Monitor>, edge: Edge, start: int, end: int, wanted: int, along: int)
    requires ms != []
  {
    && Covered(ms, edge, start, end, along)
    && forall c :: Covered(ms, edge, start, end, c) ==> Abs(along - wanted) <= Abs(c - wanted)
  }

  lemma ChosenIsNearest(ms: seq<Monitor>, edge: Edge, start: int, end: int, wanted: int)
    requires ms != []
    ensures var r := NearestSegment(EdgeGeometryOf(ms, edge, start, end).segments, wanted);
      if r.None? then forall c :: !Covered(ms, edge, start, end, c)
      else r.value.monitor in ms && Behind(r.value.monitor, edge, Outermost(ms, edge), Along(r.value, wanted))
           && NearestCovered(ms, edge, start, end, wanted, Along(r.value, wanted))
  {
    var g := EdgeGeometryOf(ms, edge, start, end);
    var (first, last) := (g.low + CeilOf(start * g.Span()), g.low + FloorOf(end * g.Span()));
    var r := NearestSegment(g.segments, wanted);
    NearestSegmentIsNearest(g.segments, wanted);
    forall c | Covered(ms, edge, start, end, c) ensures r.Some? && Off(r.value, wanted) <= Abs(c - wanted) {
      CoveredExactly(ms, edge, start, end, c);
      var s :| s in g.segments && s.Has(c);
      OffIsLeast(s, wanted, c);
    }
    if r.Some? {
      SegmentsExactly(ms, edge, g.boundary, first, last, r.value);
      OffIsLeast(r.value, wanted, r.value.start);
      OnSegmentOf(r.value, g.segments, wanted);
      CoveredExactly(ms, edge, start, end, Along(r.value, wanted));
    }
  }

  /** `pixel` is the one of the edge that the fraction `position` of it falls on. */
  predicate FallsOn(ms: seq<Monitor>, edge: Edge, position: int, pixel: int)
    requires ms != []
  {
    var (low, high) := (Outermost(ms, edge.First()), Outermost(ms, edge.Last()));
    (pixel - low) * MAX <= position * (high - low) < (pixel + 1 - low) * MAX
  }

  lemma WantedIs(ms: seq<Monitor>, edge: Edge, start: int, end: int, position: int, pixel: int)
    requires ms != []
    ensures FallsOn(ms, edge, position, pixel) <==> pixel == Wanted(EdgeGeometryOf(ms, edge, start, end), position)
  {
    var g := EdgeGeometryOf(ms, edge, start, end);
    var (at, floor) := (pixel - g.low, FloorOf(position * g.Span()));
    assert at <= floor <==> at * MAX <= position * g.Span();
    assert at + 1 <= floor <==> (at + 1) * MAX <= position * g.Span();
  }

  /** No covered pixel is nearer than `along` to the one the crossing falls on. */
  ghost predicate NearestToCrossing(ms: seq<Monitor>, edge: Edge, start: int, end: int, position: int, along: int)
    requires ms != []
  {
    forall pixel :: FallsOn(ms, edge, position, pixel) ==> NearestCovered(ms, edge, start, end, pixel, along)
  }

  /**
   The entry lies on one of the monitors, a few pixels in from the desktop's
   edge, and no covered pixel of that edge is nearer to the one the crossing
   falls on. There is none exactly when no pixel is covered, apart from a
   monitor too small.
   */
  lemma EntryIsNearest(ms: seq<Monitor>, edge: Edge, start: int, end: int, position: int)
    requires ms != []
    ensures exists pixel :: FallsOn(ms, edge, position, pixel)
    ensures var e := EntryOf(ms, edge, start, end, position);
      && (e.NoMonitor? <==> forall c :: !Covered(ms, edge, start, end, c))
      && (e.TooSmall? ==> exists m :: m in ms && (m.width < 8 || m.height < 8))
      && (e.At? ==>
            && e.monitor in ms && e.monitor.Has(e.x, e.y)
            && Abs((if edge.Vertical() then e.x else e.y) - Outermost(ms, edge)) == (if edge.Lesser() then 3 else 4)
            && NearestToCrossing(ms, edge, start, end, position, if edge.Vertical() then e.y else e.x))
  {
    var wanted := Wanted(EdgeGeometryOf(ms, edge, start, end), position);
    ChosenIsNearest(ms, edge, start, end, wanted);
    WantedIs(ms, edge, start, end, position, wanted);
    var e := EntryOf(ms, edge, start, end, position);
    if e.At? {
      var along := if edge.Vertical() then e.y else e.x;
      forall pixel | FallsOn(ms, edge, position, pixel) ensures NearestCovered(ms, edge, start, end, pixel, along) {
        WantedIs(ms, edge, start, end, position, pixel);
      }
    }
  }

  // ----- the position of a push

  /** What a push at `axis` against a barrier on the edge reports. */
  function PositionOf(g: Geometry, start: int, end: int, axis: real): (r: int)
    requires start <= end
    ensures start <= r <= end
  {
    Max(start, Min(end, if g.Span() == 0 then start else Round(Exact(g, axis))))
  }

  lemma SegmentInRange(ms: seq<Monitor>, edge: Edge, start: int, end: int, s: Segment)
    requires ms != [] && s in EdgeGeometryOf(ms, edge, start, end).segments
    ensures var g := EdgeGeometryOf(ms, edge, start, end);
      && s.monitor in ms && g.low <= s.start < s.end <= g.high
      && start * g.Span() <= (s.start - g.low) * MAX && (s.end - g.low) * MAX <= end * g.Span()
  {
    var g := EdgeGeometryOf(ms, edge, start, end);
    var (ceil, floor) := (CeilOf(start * g.Span()), FloorOf(end * g.Span()));
    SegmentsExactly(ms, edge, g.boundary, g.low + ceil, g.low + floor, s);
    assert ceil <= s.start - g.low && s.end - g.low <= floor;
    var i :| 0 <= i < |ms| && ms[i] == s.monitor;
    assert AsFarOut(edge.First(), g.low, ms[i].Side(edge.First())) && AsFarOut(edge.Last(), g.high, ms[i].Side(edge.Last()));
  }

  lemma Divided(low: real, high: real, value: real, span: real)
    requires span > 0.0 && low * span <= value <= high * span
    ensures low <= value / span <= high
  {
  }

  lemma RoundIsNearest(x: real, low: int, high: int)
    requires low as real <= x <= high as real
    ensures low <= Round(x) <= high && x - 0.5 <= Round(x) as real <= x + 0.5
  {
  }

  /** Both ends of a barrier, and so all of it, as fractions of the edge. */
  lemma PushInRange(g: Geometry, start: int, end: int, s: Segment, axis: real)
    requires start * g.Span() <= (s.start - g.low) * MAX && (s.end - g.low) * MAX <= end * g.Span()
    requires s.start as real <= axis <= s.end as real
    ensures start as real * g.Span() as real <= (axis - g.low as real) * MAX as real <= end as real * g.Span() as real
  {
    assert (start * g.Span()) as real == start as real * g.Span() as real;
    assert (end * g.Span()) as real == end as real * g.Span() as real;
  }

  /** The pushed point as an exact fraction of the edge, times MAX. */
  function Exact(g: Geometry, axis: real): real
    requires g.Span() != 0
  {
    (axis - g.low as real) * MAX as real / g.Span() as real
  }

  lemma PositionIsNearest(g: Geometry, start: int, end: int, s: Segment, axis: real)
    requires g.Span() > 0 && start <= end
    requires start * g.Span() <= (s.start - g.low) * MAX && (s.end - g.low) * MAX <= end * g.Span()
    requires s.start as real <= axis <= s.end as real
    ensures -0.5 <= PositionOf(g, start, end, axis) as real - Exact(g, axis) <= 0.5
  {
    PushInRange(g, start, end, s, axis);
    Divided(start as real, end as real, (axis - g.low as real) * MAX as real, g.Span() as real);
    RoundIsNearest(Exact(g, axis), start, end);
  }

  /** A push anywhere on a barrier is inside the range already: its position is the nearest to the exact one. */
  lemma PushIsNearest(ms: seq<Monitor>, edge: Edge, start: int, end: int, s: Segment, axis: real)
    requires ms != [] && start <= end && s in EdgeGeometryOf(ms, edge, start, end).segments
    requires s.start as real <= axis <= s.end as real
    ensures Outermost(ms, edge.Last()) > Outermost(ms, edge.First())
    ensures var g := EdgeGeometryOf(ms, edge, start, end);
      var exact := (axis - Outermost(ms, edge.First()) as real) * MAX as real
                   / (Outermost(ms, edge.Last()) - Outermost(ms, edge.First())) as real;
      -0.5 <= PositionOf(g, start, end, axis) as real - exact <= 0.5
  {
    SegmentInRange(ms, edge, start, end, s);
    PositionIsNearest(EdgeGeometryOf(ms, edge, start, end), start, end, s, axis);
  }

  // ----- the corners an outbound barrier leaves alone

  /** A segment at an end of the desktop's edge stops DEAD_CORNER short of it. */
  function Trim(g: Geometry, s: Segment): Segment {
    s.(start := if s.start == g.low then s.start + DEAD_CORNER else s.start,
       end := if s.end == g.high then s.end - DEAD_CORNER else s.end)
  }

  function Trimmed(g: Geometry, segments: seq<Segment>): seq<Segment> {
    if segments == [] then []
    else
      var (rest, s) := (Trimmed(g, segments[..|segments| - 1]), Trim(g, segments[|segments| - 1]));
      if s.end > s.start then rest + [s] else rest
  }

  /** No barrier reaches into the last DEAD_CORNER pixels at either end of the edge. */
  ghost predicate LeavesCorners(g: Geometry, segments: seq<Segment>) {
    forall s :: s in segments ==> g.low + DEAD_CORNER <= s.start && s.end <= g.high - DEAD_CORNER
  }

  /** A segment that starts or ends inside a corner but not at its very end, where nothing is taken off. */
  predicate CutsCorner(g: Geometry, s: Segment) {
    Trim(g, s).start < Trim(g, s).end && (g.low < s.start < g.low + DEAD_CORNER || g.high - DEAD_CORNER < s.end < g.high)
  }

  lemma {:induction false} TrimmedExactly(g: Geometry, segments: seq<Segment>, t: Segment)
    ensures t in Trimmed(g, segments) <==> t.start < t.end && exists s :: s in segments && t == Trim(g, s)
  {
    if segments != [] {
      var (rest, last) := (segments[..|segments| - 1], segments[|segments| - 1]);
      assert segments == rest + [last];
      TrimmedExactly(g, rest, t);
    }
  }

  /** The corners stay free exactly when no segment begins or ends strictly inside one. */
  lemma CornersAreLeftExactlyWhen(ms: seq<Monitor>, edge: Edge, start: int, end: int)
    requires ms != []
    ensures var g := EdgeGeometryOf(ms, edge, start, end);
      LeavesCorners(g, Trimmed(g, g.segments)) <==> forall s :: s in g.segments ==> !CutsCorner(g, s)
  {
    var g := EdgeGeometryOf(ms, edge, start, end);
    forall s | s in g.segments ensures g.low <= s.start && s.end <= g.high {
      SegmentInRange(ms, edge, start, end, s);
    }
    forall s | s in g.segments && CutsCorner(g, s) ensures !LeavesCorners(g, Trimmed(g, g.segments)) {
      TrimmedExactly(g, g.segments, Trim(g, s));
    }
    forall t | t in Trimmed(g, g.segments)
      ensures (g.low + DEAD_CORNER <= t.start && t.end <= g.high - DEAD_CORNER)
           || exists s :: s in g.segments && CutsCorner(g, s)
    {
      TrimmedExactly(g, g.segments, t);
      var s :| s in g.segments && t == Trim(g, s);
      assert CutsCorner(g, s) || (g.low + DEAD_CORNER <= t.start && t.end <= g.high - DEAD_CORNER);
    }
  }

  /** It happens: a range that starts one pixel in leaves the barrier one pixel from the corner. */
  lemma CornerCanBeCut()
    ensures var g := EdgeGeometryOf([Monitor(0, 0, 1000, 1000)], Right, 1000, MAX);
      !LeavesCorners(g, Trimmed(g, g.segments))
  {
    var m := Monitor(0, 0, 1000, 1000);
    var g := EdgeGeometryOf([m], Right, 1000, MAX);
    assert CeilOf(1000 * 1000) == 1 && FloorOf(MAX * 1000) == 1000;
    SegmentsExactly([m], Right, 1000, 1, 1000, Segment(1, 1000, m));
    assert CutsCorner(g, Segment(1, 1000, m));
    CornersAreLeftExactlyWhen([m], Right, 1000, MAX);
  }
}
