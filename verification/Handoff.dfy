/**
 The lease under which another computer controls this GNOME desktop (class
 Zflow in packaging/gnome-extension/shell.js): its own outbound barriers, the
 exit barriers of the lease, and the polls that wait for the pointer to leave.
 Every callback runs to its end before the next one, so each is one step.
 Times are microseconds that never go back; what the Shell knows of its
 monitors comes with each step.
 */
module Handoff {
  import opened Wrappers
  import opened Basics
  import opened Tiles
  import opened EdgeGeometry

  const LEASE_US := 2_000_000
  const WARP_US := 100_000
  const MAX_PAUSE := 2_000

  datatype Display = Display(id: string, bounds: Monitor)

  /** `monitors` is empty while the Shell cannot tell where they are. */
  datatype Desk = Desk(monitors: seq<Monitor>, displays: seq<Display>, barriers: bool)

  datatype Exit = Exit(monitor: Option<string>, edge: Edge, start: int, end: int) {
    predicate Valid() { 0 <= start < end <= MAX }
  }

  predicate AllValid(exits: seq<Exit>) {
    |exits| <= 64 && forall i :: 0 <= i < |exits| ==> exits[i].Valid()
  }

  datatype Barrier = Barrier(exit: Exit, geometry: Geometry, segment: Segment)

  /** A barrier of a lease: which exit of its Prepare it stands for. */
  datatype WayOut = WayOut(lease: nat, index: nat, barrier: Barrier)

  datatype Status = Active | Ended | Exited(index: nat, position: int)

  datatype Answer = Answer(lease: nat, poll: nat, status: Status)

  /** Where the entry warps to, until the pointer is there. */
  datatype Warp = Warp(x: int, y: int, deadline: int)

  datatype Lease = Lease(id: nat, token: int, renewed: int, exits: seq<Exit>, warp: Option<Warp>,
                         exited: Option<Status>, delivered: bool, polls: seq<nat>)

  datatype Request = Request(token: int, monitor: Option<string>, edge: Edge, start: int, end: int, position: int, exits: seq<Exit>)

  /** An exit the lease took note of, with the barrier that was pushed. */
  datatype Record = Record(way: WayOut, position: int)

  datatype State = State(lease: Option<Lease>, ways: seq<WayOut>, outbound: seq<Barrier>, edges: seq<Exit>, pause: int,
                         sent: seq<Answer>, leases: nat, asked: nat, recorded: seq<Record>)

  const START := State(None, [], [], [], 0, [], 0, 0, [])

  datatype Step =
    | SetEdges(edges: seq<Exit>, pause: int, desk: Desk)
    | ReadDisplays(desk: Desk)
    | ChangeMonitors
    | LoseAgent
    | Disable
    | Timer(now: int, desk: Desk)
    | Prepare(request: Request, now: int, desk: Desk)
    | Arrive(lease: nat, x: int, y: int, now: int, desk: Desk)
    | Push(way: nat, axis: real)
    | Poll(token: int, now: int, desk: Desk)
    | HoldOver(poll: nat)
    | Finish(token: int, now: int, desk: Desk)

  // ----- the pieces

  function FindDisplay(displays: seq<Display>, id: string): (r: Option<Monitor>)
    ensures r.Some? ==> exists d :: d in displays && d.id == id && d.bounds == r.value
    ensures r.None? ==> forall d :: d in displays ==> d.id != id
  {
    if displays == [] then None
    else if displays[0].id == id then Some(displays[0].bounds)
    else FindDisplay(displays[1..], id)
  }

  /** The monitors an edge belongs to; none when it names one that is gone. */
  function Selected(desk: Desk, id: Option<string>): (r: seq<Monitor>)
    ensures id.Some? && r != [] ==> exists d :: d in desk.displays && d.id == id.value && r == [d.bounds]
    ensures id.Some? && r == [] ==> forall d :: d in desk.displays ==> d.id != id.value
    ensures id.None? ==> r == desk.monitors
  {
    match id
    case None => desk.monitors
    case Some(id) =>
      match FindDisplay(desk.displays, id)
      case Some(bounds) => [bounds]
      case None => []
  }

  function BarriersOn(exit: Exit, g: Geometry, segments: seq<Segment>): seq<Barrier> {
    seq(|segments|, i requires 0 <= i < |segments| => Barrier(exit, g, segments[i]))
  }

  /** The barriers where one edge leads to another computer, short of the corners. */
  function OwnBarriers(e: Exit, desk: Desk): seq<Barrier> {
    var ms := Selected(desk, e.monitor);
    if ms == [] then []
    else
      var g := EdgeGeometryOf(ms, e.edge, e.start, e.end);
      BarriersOn(e, g, Trimmed(g, g.segments))
  }

  function OutboundFor(edges: seq<Exit>, desk: Desk): seq<Barrier> {
    if edges == [] then []
    else OutboundFor(edges[..|edges| - 1], desk) + OwnBarriers(edges[|edges| - 1], desk)
  }

  function WaysOn(lease: nat, index: nat, barriers: seq<Barrier>): seq<WayOut> {
    seq(|barriers|, i requires 0 <= i < |barriers| => WayOut(lease, index, barriers[i]))
  }

  /** The barriers where one exit leads off this desktop. */
  function ExitBarriers(e: Exit, desk: Desk): seq<Barrier> {
    var ms := Selected(desk, e.monitor);
    if ms == [] then []
    else
      var g := EdgeGeometryOf(ms, e.edge, e.start, e.end);
      BarriersOn(e, g, g.segments)
  }

  /** Every way off this desktop, for the exits of a Prepare. */
  function WaysFor(lease: nat, exits: seq<Exit>, desk: Desk): seq<WayOut> {
    if exits == [] then []
    else
      var last := |exits| - 1;
      WaysFor(lease, exits[..last], desk) + WaysOn(lease, last, ExitBarriers(exits[last], desk))
  }

  function Answers(lease: nat, polls: seq<nat>, status: Status): seq<Answer> {
    seq(|polls|, i requires 0 <= i < |polls| => Answer(lease, polls[i], status))
  }

  function Placed(s: State, desk: Desk): State {
    s.(outbound := if s.lease.Some? || desk.monitors == [] || !desk.barriers then [] else OutboundFor(s.edges, desk))
  }

  function Cleared(s: State, desk: Desk): State {
    match s.lease
    case None => s.(ways := [])
    case Some(lease) =>
      Placed(s.(sent := s.sent + Answers(lease.id, lease.polls, Ended), ways := [], lease := None), desk)
  }

  predicate Over(s: State, now: int) {
    s.lease.Some? && now - s.lease.value.renewed >= LEASE_US
  }

  function Expired(s: State, now: int, desk: Desk): State {
    if Over(s, now) then Cleared(s, desk) else s
  }

  predicate Holds(s: State, token: int) {
    s.lease.Some? && s.lease.value.token == token
  }

  /** The entry of a request nothing is wrong with. */
  function EntryFor(r: Request, desk: Desk): Entry {
    if !(0 <= r.start < r.end <= MAX) || !(r.start <= r.position <= r.end) || !AllValid(r.exits) || !desk.barriers then NoMonitor
    else
      var ms := Selected(desk, r.monitor);
      if ms == [] then NoMonitor else EntryOf(ms, r.edge, r.start, r.end, r.position)
  }

  function Prepared(s: State, r: Request, now: int, desk: Desk): State {
    var entry := EntryFor(r, desk);
    if s.lease.Some? || !entry.At? then s
    else
      var warp := Warp(entry.x, entry.y, now + WARP_US);
      Placed(s.(lease := Some(Lease(s.leases, r.token, now, r.exits, Some(warp), None, false, [])), leases := s.leases + 1), desk)
  }

  predicate Near(a: int, b: int) { Abs(a - b) <= 2 }

  /** One more look whether the pointer is in; only then do the exit barriers go up. */
  function Arrived(s: State, lease: nat, x: int, y: int, now: int, desk: Desk): State {
    if s.lease.None? || s.lease.value.id != lease || s.lease.value.warp.None? then s
    else
      var warp := s.lease.value.warp.value;
      if desk.monitors == [] then Cleared(s, desk)
      else if Near(x, warp.x) && Near(y, warp.y) then
        s.(lease := Some(s.lease.value.(warp := None)), ways := s.ways + WaysFor(lease, s.lease.value.exits, desk))
      else if now >= warp.deadline then Cleared(s, desk)
      else s
  }

  function PushedAt(way: WayOut, axis: real): int {
    if way.barrier.exit.Valid() then PositionOf(way.barrier.geometry, way.barrier.exit.start, way.barrier.exit.end, axis)
    else 0
  }

  function Pushed(s: State, way: nat, axis: real): State {
    if way >= |s.ways| || s.lease.None? || s.lease.value.id != s.ways[way].lease || s.lease.value.exited.Some? then s
    else
      var (lease, out) := (s.lease.value, s.ways[way]);
      var exited := Exited(out.index, PushedAt(out, axis));
      s.(lease := Some(lease.(exited := Some(exited), delivered := lease.polls != [], polls := [])),
         sent := s.sent + Answers(lease.id, lease.polls, exited),
         recorded := s.recorded + [Record(out, PushedAt(out, axis))])
  }

  /** A Poll of the lease: answered at once by an exit nobody heard of yet, else it waits. */
  function Polled(s: State, lease: Lease): State {
    if lease.exited.Some? && !lease.delivered then
      s.(lease := Some(lease.(delivered := true)), sent := s.sent + [Answer(lease.id, s.asked, lease.exited.value)], asked := s.asked + 1)
    else
      s.(lease := Some(lease.(exited := None, polls := lease.polls + [s.asked])), asked := s.asked + 1)
  }

  function Dropped(polls: seq<nat>, poll: nat): seq<nat> {
    if polls == [] then []
    else if polls[0] == poll then polls[1..]
    else [polls[0]] + Dropped(polls[1..], poll)
  }

  function HeldOver(s: State, poll: nat): State {
    if s.lease.None? || poll !in s.lease.value.polls then s
    else
      var lease := s.lease.value;
      s.(lease := Some(lease.(polls := Dropped(lease.polls, poll))), sent := s.sent + [Answer(lease.id, poll, Active)])
  }

  const NOWHERE := Desk([], [], false)

  function Next(s: State, step: Step): State {
    match step
    case SetEdges(edges, pause, desk) =>
      if !AllValid(edges) || !(0 <= pause <= MAX_PAUSE) || (edges == s.edges && pause == s.pause) then s
      else Placed(s.(edges := edges, pause := pause), desk)
    case ReadDisplays(desk) => Placed(s, desk)
    case ChangeMonitors => Placed(Cleared(s, NOWHERE), NOWHERE)
    case LoseAgent => Placed(s.(edges := []), NOWHERE)
    case Disable => Placed(Cleared(s.(edges := []), NOWHERE), NOWHERE)
    case Timer(now, desk) => Expired(s, now, desk)
    case Prepare(r, now, desk) =>
      if desk.monitors == [] || r.token <= 0 then s else Prepared(Expired(s, now, desk), r, now, desk)
    case Arrive(lease, x, y, now, desk) => Arrived(s, lease, x, y, now, desk)
    case Push(way, axis) => Pushed(s, way, axis)
    case Poll(token, now, desk) =>
      if desk.monitors == [] || token <= 0 then s
      else
        var t := Expired(s, now, desk);
        if Holds(t, token) then Polled(t, t.lease.value.(renewed := now)) else t
    case HoldOver(poll) => HeldOver(s, poll)
    case Finish(token, now, desk) =>
      if desk.monitors == [] || token <= 0 then s
      else
        var t := Expired(s, now, desk);
        if Holds(t, token) then Cleared(t, desk) else t
  }

  function Run(s: State, steps: seq<Step>): State {
    if steps == [] then s else Next(Run(s, steps[..|steps| - 1]), steps[|steps| - 1])
  }

  lemma RunThen(s: State, steps: seq<Step>, step: Step)
    ensures Run(s, steps + [step]) == Next(Run(s, steps), step)
  {
    assert (steps + [step])[..|steps|] == steps;
  }

  /** What a Poll is told at once. */
  datatype Reply = Refused | Told(status: Status) | Waits

  lemma AnswersMore(lease: nat, polls: seq<nat>, status: Status, i: nat)
    requires i < |polls|
    ensures Answers(lease, polls[..i + 1], status) == Answers(lease, polls[..i], status) + [Answer(lease, polls[i], status)]
  {
  }
}
