/** What holds of the handoff lease after every run. */
module HandoffProofs {
  import opened Wrappers
  import opened Basics
  import opened Tiles
  import opened EdgeGeometry
  import opened Handoff

  // ----- the two kinds of barriers

  /** A way out leads through the exit of its Prepare that it names. */
  predicate LeadsOut(way: WayOut, lease: nat, exits: seq<Exit>) {
    way.lease == lease && way.index < |exits| && way.barrier.exit == exits[way.index]
  }

  predicate RecordedInRange(r: Record) {
    r.way.barrier.exit.start <= r.position <= r.way.barrier.exit.end
  }

  /**
   Own barriers only without a lease; exit barriers only with one, once the
   pointer is in, and only those of its own exits.
   */
  predicate Fenced(s: State) {
    && (s.lease.Some? ==> s.outbound == [])
    && (s.lease.None? ==> s.ways == [])
    && (s.lease.Some? ==> s.lease.value.id < s.leases && AllValid(s.lease.value.exits)
                          && forall i :: 0 <= i < |s.ways| ==> LeadsOut(s.ways[i], s.lease.value.id, s.lease.value.exits))
    && (s.lease.Some? && s.lease.value.warp.Some? ==> s.ways == [])
    && forall i :: 0 <= i < |s.recorded| ==> RecordedInRange(s.recorded[i]) && s.recorded[i].way.lease < s.leases
  }

  lemma {:induction false} WaysLeadOut(lease: nat, exits: seq<Exit>, desk: Desk, i: nat)
    requires i < |WaysFor(lease, exits, desk)|
    ensures LeadsOut(WaysFor(lease, exits, desk)[i], lease, exits)
  {
    var last := |exits| - 1;
    var rest := WaysFor(lease, exits[..last], desk);
    if i < |rest| {
      WaysLeadOut(lease, exits[..last], desk, i);
    }
  }

  lemma ClearedIsFenced(s: State, desk: Desk)
    requires Fenced(s)
    ensures Fenced(Cleared(s, desk)) && Cleared(s, desk).lease.None?
  {
  }

  lemma ExpiredIsFenced(s: State, now: int, desk: Desk)
    requires Fenced(s)
    ensures Fenced(Expired(s, now, desk)) && !Over(Expired(s, now, desk), now)
  {
    ClearedIsFenced(s, desk);
  }

  lemma PreparedIsFenced(s: State, r: Request, now: int, desk: Desk)
    requires Fenced(s)
    ensures Fenced(Prepared(s, r, now, desk))
  {
  }

  lemma ArrivedIsFenced(s: State, lease: nat, x: int, y: int, now: int, desk: Desk)
    requires Fenced(s)
    ensures Fenced(Arrived(s, lease, x, y, now, desk))
  {
    ClearedIsFenced(s, desk);
    if s.lease.Some? && s.lease.value.id == lease {
      var more := WaysFor(lease, s.lease.value.exits, desk);
      forall i | 0 <= i < |more| ensures LeadsOut(more[i], lease, s.lease.value.exits) {
        WaysLeadOut(lease, s.lease.value.exits, desk, i);
      }
    }
  }

  lemma PushedIsFenced(s: State, way: nat, axis: real)
    requires Fenced(s)
    ensures Fenced(Pushed(s, way, axis))
  {
    if way < |s.ways| && s.lease.Some? && s.lease.value.exited.None? {
      var out := s.ways[way];
      assert LeadsOut(out, s.lease.value.id, s.lease.value.exits) && out.barrier.exit.Valid();
      assert RecordedInRange(Record(out, PushedAt(out, axis)));
    }
  }

  lemma FencedStays(s: State, step: Step)
    requires Fenced(s)
    ensures Fenced(Next(s, step))
  {
    match step
    case Prepare(r, now, desk) => ExpiredIsFenced(s, now, desk); PreparedIsFenced(Expired(s, now, desk), r, now, desk);
    case Arrive(lease, x, y, now, desk) => ArrivedIsFenced(s, lease, x, y, now, desk);
    case Push(way, axis) => PushedIsFenced(s, way, axis);
    case Timer(now, desk) => ExpiredIsFenced(s, now, desk);
    case Poll(token, now, desk) => ExpiredIsFenced(s, now, desk);
    case Finish(token, now, desk) => ExpiredIsFenced(s, now, desk); ClearedIsFenced(Expired(s, now, desk), desk);
    case _ =>
  }

  /** After every step, whatever the agent, the pointer and the timers do. */
  lemma {:induction false} BarriersFollowTheLease(steps: seq<Step>)
    ensures Fenced(Run(START, steps))
  {
    if steps != [] {
      BarriersFollowTheLease(steps[..|steps| - 1]);
      FencedStays(Run(START, steps[..|steps| - 1]), steps[|steps| - 1]);
    }
  }

  /** A Prepare that takes the lease sends the pointer to the nearest covered pixel, with no barrier in its way. */
  lemma EntersAtTheNearest(s: State, r: Request, now: int, desk: Desk)
    requires Fenced(s) && s.lease.None? && Prepared(s, r, now, desk).lease.Some?
    ensures var (t, ms) := (Prepared(s, r, now, desk), Selected(desk, r.monitor));
      && t.ways == [] && t.outbound == [] && ms != [] && t.lease.value.warp.Some?
      && (t.lease.value.token, t.lease.value.exits, t.lease.value.renewed) == (r.token, r.exits, now)
      && var warp := t.lease.value.warp.value;
      && (exists m :: m in ms && m.Has(warp.x, warp.y))
      && NearestToCrossing(ms, r.edge, r.start, r.end, r.position, if r.edge.Vertical() then warp.y else warp.x)
  {
    var ms := Selected(desk, r.monitor);
    assert ms != [];
    EntryIsNearest(ms, r.edge, r.start, r.end, r.position);
    assert EntryFor(r, desk) == EntryOf(ms, r.edge, r.start, r.end, r.position);
    var e := EntryOf(ms, r.edge, r.start, r.end, r.position);
    assert e.monitor.Has(e.x, e.y);
  }

  /** A request nothing is wrong with. */
  predicate SoundRequest(r: Request) {
    0 <= r.start < r.end <= MAX && r.start <= r.position <= r.end && AllValid(r.exits)
  }

  /** The entry would be on a monitor too small to enter, at the nearest covered pixel. */
  ghost predicate EntersTooSmall(ms: seq<Monitor>, r: Request)
    requires ms != []
  {
    EntryOf(ms, r.edge, r.start, r.end, r.position).TooSmall?
  }

  /**
   A sound request takes the free lease exactly when its monitor is there, some
   pixel of its range is covered, and the monitor it would enter is not too
   small; none is when all are 8 pixels or more.
   */
  lemma LeaseIsTakenExactlyWhen(s: State, r: Request, now: int, desk: Desk)
    requires s.lease.None?
    ensures var ms := Selected(desk, r.monitor);
      && (Prepared(s, r, now, desk).lease.Some? <==>
          (SoundRequest(r) && desk.barriers && ms != []
           && (exists c :: Covered(ms, r.edge, r.start, r.end, c)) && !EntersTooSmall(ms, r)))
      && (ms != [] && EntersTooSmall(ms, r) ==> exists m :: m in ms && (m.width < 8 || m.height < 8))
  {
    var ms := Selected(desk, r.monitor);
    if ms != [] {
      EntryIsNearest(ms, r.edge, r.start, r.end, r.position);
    }
  }

  // ----- the barriers that are up cover their edges

  /** A barrier for this edge, as its monitors are now, that has pixel `c`. */
  predicate Blocks(b: Barrier, e: Exit, ms: seq<Monitor>, c: int)
    requires ms != []
  {
    b.exit == e && b.geometry == EdgeGeometryOf(ms, e.edge, e.start, e.end) && b.segment.Has(c)
  }

  lemma ExitBarriersCover(e: Exit, desk: Desk, c: int) returns (b: Barrier)
    requires Selected(desk, e.monitor) != [] && Covered(Selected(desk, e.monitor), e.edge, e.start, e.end, c)
    ensures b in ExitBarriers(e, desk) && Blocks(b, e, Selected(desk, e.monitor), c)
  {
    var ms := Selected(desk, e.monitor);
    var segments := EdgeGeometryOf(ms, e.edge, e.start, e.end).segments;
    CoveredExactly(ms, e.edge, e.start, e.end, c);
    var s :| s in segments && s.Has(c);
    var k :| 0 <= k < |segments| && segments[k] == s;
    b := ExitBarriers(e, desk)[k];
  }

  /** A pixel of the desktop's edge outside its two corners. */
  predicate OffCorners(ms: seq<Monitor>, edge: Edge, c: int)
    requires ms != []
  {
    Outermost(ms, edge.First()) + 8 <= c < Outermost(ms, edge.Last()) - 8
  }

  lemma OwnBarriersCover(e: Exit, desk: Desk, c: int) returns (b: Barrier)
    requires Selected(desk, e.monitor) != [] && Covered(Selected(desk, e.monitor), e.edge, e.start, e.end, c)
    requires OffCorners(Selected(desk, e.monitor), e.edge, c)
    ensures b in OwnBarriers(e, desk) && Blocks(b, e, Selected(desk, e.monitor), c)
  {
    var ms := Selected(desk, e.monitor);
    var g := EdgeGeometryOf(ms, e.edge, e.start, e.end);
    CoveredExactly(ms, e.edge, e.start, e.end, c);
    var s :| s in g.segments && s.Has(c);
    TrimmedExactly(g, g.segments, Trim(g, s));
    var k :| 0 <= k < |Trimmed(g, g.segments)| && Trimmed(g, g.segments)[k] == Trim(g, s);
    b := OwnBarriers(e, desk)[k];
  }

  /** Own barriers stop eight pixels short of the corners, apart from a segment that begins or ends inside one. */
  lemma OwnBarriersLeaveCorners(e: Exit, desk: Desk, b: Barrier)
    requires Selected(desk, e.monitor) != [] && b in OwnBarriers(e, desk)
    requires var g := EdgeGeometryOf(Selected(desk, e.monitor), e.edge, e.start, e.end);
      forall s :: s in g.segments ==> !CutsCorner(g, s)
    ensures var ms := Selected(desk, e.monitor);
      Outermost(ms, e.edge.First()) + 8 <= b.segment.start && b.segment.end <= Outermost(ms, e.edge.Last()) - 8
  {
    var ms := Selected(desk, e.monitor);
    var g := EdgeGeometryOf(ms, e.edge, e.start, e.end);
    CornersAreLeftExactlyWhen(ms, e.edge, e.start, e.end);
    assert b.segment in Trimmed(g, g.segments);
  }

  lemma {:induction false} OutboundHas(edges: seq<Exit>, desk: Desk, i: nat, b: Barrier)
    requires i < |edges| && b in OwnBarriers(edges[i], desk)
    ensures b in OutboundFor(edges, desk)
  {
    if i < |edges| - 1 {
      OutboundHas(edges[..|edges| - 1], desk, i, b);
    }
  }

  lemma WaysOnHas(lease: nat, index: nat, barriers: seq<Barrier>, b: Barrier)
    requires b in barriers
    ensures WayOut(lease, index, b) in WaysOn(lease, index, barriers)
  {
    var k :| 0 <= k < |barriers| && barriers[k] == b;
    assert WaysOn(lease, index, barriers)[k] == WayOut(lease, index, b);
  }

  lemma {:induction false} WaysHas(lease: nat, exits: seq<Exit>, desk: Desk, i: nat, b: Barrier)
    requires i < |exits| && b in ExitBarriers(exits[i], desk)
    ensures WayOut(lease, i, b) in WaysFor(lease, exits, desk)
  {
    if i < |exits| - 1 {
      WaysHas(lease, exits[..|exits| - 1], desk, i, b);
    } else {
      WaysOnHas(lease, i, ExitBarriers(exits[i], desk), b);
    }
  }

  /** Some own barrier for the edge has the pixel. */
  ghost predicate Guarded(outbound: seq<Barrier>, e: Exit, ms: seq<Monitor>, c: int)
    requires ms != []
  {
    exists b :: b in outbound && Blocks(b, e, ms, c)
  }

  /** Some exit barrier of the lease leads through exit `i` at the pixel. */
  ghost predicate Leads(ways: seq<WayOut>, lease: nat, i: nat, e: Exit, ms: seq<Monitor>, c: int)
    requires ms != []
  {
    exists b :: WayOut(lease, i, b) in ways && Blocks(b, e, ms, c)
  }

  /**
   When a lease ends, this computer's own edges are guarded again: every covered
   pixel outside the corners, on each edge whose monitor is there.
   */
  lemma OwnEdgesComeBack(s: State, desk: Desk, i: nat, c: int)
    requires s.lease.Some? && desk.monitors != [] && desk.barriers
    requires i < |s.edges| && Selected(desk, s.edges[i].monitor) != []
    requires var (e, ms) := (s.edges[i], Selected(desk, s.edges[i].monitor));
      Covered(ms, e.edge, e.start, e.end, c) && OffCorners(ms, e.edge, c)
    ensures Cleared(s, desk).lease.None?
    ensures Guarded(Cleared(s, desk).outbound, s.edges[i], Selected(desk, s.edges[i].monitor), c)
  {
    var b := OwnBarriersCover(s.edges[i], desk, c);
    OutboundHas(s.edges, desk, i, b);
  }

  /** Waiting for its pointer: the lease `id` and where the pointer is to be. */
  predicate Awaits(s: State, id: nat, warp: Warp) {
    IsHolder(s, id) && s.lease.value.warp == Some(warp)
  }

  /** The pointer is within two pixels of where it was sent. */
  predicate IsIn(warp: Warp, x: int, y: int) {
    -2 <= x - warp.x <= 2 && -2 <= y - warp.y <= 2
  }

  lemma ArrivedIn(s: State, id: nat, warp: Warp, x: int, y: int, now: int, desk: Desk)
    requires Awaits(s, id, warp) && IsIn(warp, x, y) && desk.monitors != []
    ensures var t := Arrived(s, id, x, y, now, desk);
      IsHolder(t, id) && t.lease.value.warp.None? && t.ways == s.ways + WaysFor(id, s.lease.value.exits, desk)
  {
  }

  /** Once it is in, every covered pixel of every exit whose monitor is there leads out. */
  lemma ExitsGoUp(s: State, id: nat, warp: Warp, x: int, y: int, now: int, desk: Desk, i: nat, c: int)
    requires Awaits(s, id, warp) && IsIn(warp, x, y) && desk.monitors != []
    requires i < |s.lease.value.exits| && Selected(desk, s.lease.value.exits[i].monitor) != []
    requires var e := s.lease.value.exits[i]; Covered(Selected(desk, e.monitor), e.edge, e.start, e.end, c)
    ensures var (t, e) := (Arrived(s, id, x, y, now, desk), s.lease.value.exits[i]);
      IsHolder(t, id) && t.lease.value.warp.None? && Leads(t.ways, id, i, e, Selected(desk, e.monitor), c)
  {
    var exits := s.lease.value.exits;
    var b := ExitBarriersCover(exits[i], desk, c);
    WaysHas(id, exits, desk, i, b);
    ArrivedIn(s, id, warp, x, y, now, desk);
  }

  /** Until then it is looked for, and WARP_US after the request the lease ends. */
  lemma EntryGivesUp(s: State, r: Request, asked: int, later: int, x: int, y: int, desk: Desk, seen: Desk)
    requires s.lease.None? && Prepared(s, r, asked, desk).lease.Some? && seen.monitors != []
    requires !IsIn(Prepared(s, r, asked, desk).lease.value.warp.value, x, y)
    ensures var t := Prepared(s, r, asked, desk);
      var after := Arrived(t, t.lease.value.id, x, y, later, seen);
      if later - asked >= 100_000 then after.lease.None? else after == t
  {
  }

  // ----- every poll is answered once

  predicate Unlike(polls: seq<nat>) {
    forall i, j :: 0 <= i < j < |polls| ==> polls[i] != polls[j]
  }

  predicate Heard(sent: seq<Answer>, poll: nat) {
    exists i :: 0 <= i < |sent| && sent[i].poll == poll
  }

  /** Each poll asked is either still waiting or was answered, once. */
  ghost predicate Books(sent: seq<Answer>, polls: seq<nat>, asked: nat) {
    && Unlike(polls)
    && (forall i :: 0 <= i < |polls| ==> polls[i] < asked && !Heard(sent, polls[i]))
    && (forall i, j :: 0 <= i < j < |sent| ==> sent[i].poll != sent[j].poll)
    && (forall i :: 0 <= i < |sent| ==> sent[i].poll < asked)
    && (forall poll: nat :: poll < asked ==> poll in polls || Heard(sent, poll))
  }

  lemma HeardMore(sent: seq<Answer>, more: seq<Answer>, poll: nat)
    ensures Heard(sent + more, poll) <==> Heard(sent, poll) || Heard(more, poll)
  {
    if Heard(sent, poll) {
      var i :| 0 <= i < |sent| && sent[i].poll == poll;
      assert (sent + more)[i].poll == poll;
    }
    if Heard(more, poll) {
      var i :| 0 <= i < |more| && more[i].poll == poll;
      assert (sent + more)[|sent| + i].poll == poll;
    }
  }

  lemma HeardAnswers(lease: nat, polls: seq<nat>, status: Status, poll: nat)
    ensures Heard(Answers(lease, polls, status), poll) <==> poll in polls
  {
    var a := Answers(lease, polls, status);
    if poll in polls {
      var i :| 0 <= i < |polls| && polls[i] == poll;
      assert a[i].poll == poll;
    }
  }

  lemma AllAnswered(sent: seq<Answer>, polls: seq<nat>, asked: nat, lease: nat, status: Status)
    requires Books(sent, polls, asked)
    ensures Books(sent + Answers(lease, polls, status), [], asked)
  {
    var more := Answers(lease, polls, status);
    forall poll: nat | poll < asked ensures Heard(sent + more, poll) {
      HeardMore(sent, more, poll);
      HeardAnswers(lease, polls, status, poll);
    }
    forall i, j | 0 <= i < |sent| && 0 <= j < |more| ensures sent[i].poll != more[j].poll {
      assert !Heard(sent, polls[j]);
    }
  }

  lemma AnsweredAtOnce(sent: seq<Answer>, polls: seq<nat>, asked: nat, lease: nat, status: Status)
    requires Books(sent, polls, asked)
    ensures Books(sent + [Answer(lease, asked, status)], polls, asked + 1)
  {
    var more := [Answer(lease, asked, status)];
    forall poll: nat ensures Heard(sent + more, poll) <==> Heard(sent, poll) || poll == asked {
      HeardMore(sent, more, poll);
      assert more[0].poll == asked;
    }
  }

  lemma Waits(sent: seq<Answer>, polls: seq<nat>, asked: nat)
    requires Books(sent, polls, asked)
    ensures Books(sent, polls + [asked], asked + 1)
  {
    assert (polls + [asked])[|polls|] == asked;
  }

  lemma {:induction false} DroppedIsTheRest(polls: seq<nat>, poll: nat)
    requires Unlike(polls) && poll in polls
    ensures Unlike(Dropped(polls, poll)) && forall p: nat :: p in Dropped(polls, poll) <==> p in polls && p != poll
  {
    assert polls == [polls[0]] + polls[1..];
    assert Unlike(polls[1..]) && polls[0] !in polls[1..];
    if polls[0] != poll {
      DroppedIsTheRest(polls[1..], poll);
    }
  }

  lemma HeldOverIsAnswered(sent: seq<Answer>, polls: seq<nat>, asked: nat, lease: nat, poll: nat)
    requires Books(sent, polls, asked) && poll in polls
    ensures Books(sent + [Answer(lease, poll, Active)], Dropped(polls, poll), asked)
  {
    var (more, rest) := ([Answer(lease, poll, Active)], Dropped(polls, poll));
    DroppedIsTheRest(polls, poll);
    assert !Heard(sent, poll);
    forall p: nat ensures Heard(sent + more, p) <==> Heard(sent, p) || p == poll {
      HeardMore(sent, more, p);
      assert more[0].poll == poll;
    }
    forall i | 0 <= i < |rest| ensures rest[i] < asked && !Heard(sent + more, rest[i]) {
      assert rest[i] in rest && rest[i] in polls;
    }
  }

  function Waiting(s: State): seq<nat> {
    if s.lease.Some? then s.lease.value.polls else []
  }

  ghost predicate InOrder(s: State) {
    Books(s.sent, Waiting(s), s.asked)
  }

  /** A step that can at most end the lease. */
  predicate Ends(step: Step) {
    !step.Poll? && !step.Push? && !step.HoldOver? && !step.Prepare? && !step.Finish?
  }

  lemma ClearedInOrder(s: State, desk: Desk)
    requires InOrder(s)
    ensures InOrder(Cleared(s, desk))
  {
    if s.lease.Some? {
      AllAnswered(s.sent, s.lease.value.polls, s.asked, s.lease.value.id, Ended);
    }
  }

  lemma PolledInOrder(s: State, lease: Lease)
    requires InOrder(s) && s.lease.Some? && lease.polls == s.lease.value.polls
    ensures InOrder(Polled(s, lease))
  {
    if lease.exited.Some? && !lease.delivered {
      AnsweredAtOnce(s.sent, lease.polls, s.asked, lease.id, lease.exited.value);
    } else {
      Waits(s.sent, lease.polls, s.asked);
    }
  }

  lemma PushedInOrder(s: State, way: nat, axis: real)
    requires InOrder(s)
    ensures InOrder(Pushed(s, way, axis))
  {
    if Pushed(s, way, axis) != s {
      var (lease, out) := (s.lease.value, s.ways[way]);
      AllAnswered(s.sent, lease.polls, s.asked, lease.id, Exited(out.index, PushedAt(out, axis)));
    }
  }

  lemma ExpiredInOrder(s: State, now: int, desk: Desk)
    requires InOrder(s)
    ensures InOrder(Expired(s, now, desk))
  {
    ClearedInOrder(s, desk);
  }

  lemma PollInOrder(s: State, token: int, now: int, desk: Desk)
    requires InOrder(s)
    ensures InOrder(Next(s, Poll(token, now, desk)))
  {
    ExpiredInOrder(s, now, desk);
    var t := Expired(s, now, desk);
    if Holds(t, token) {
      PolledInOrder(t, t.lease.value.(renewed := now));
    }
  }

  lemma FinishInOrder(s: State, token: int, now: int, desk: Desk)
    requires InOrder(s)
    ensures InOrder(Next(s, Finish(token, now, desk)))
  {
    ExpiredInOrder(s, now, desk);
    ClearedInOrder(Expired(s, now, desk), desk);
  }

  lemma PrepareInOrder(s: State, r: Request, now: int, desk: Desk)
    requires InOrder(s)
    ensures InOrder(Next(s, Prepare(r, now, desk)))
  {
    ExpiredInOrder(s, now, desk);
  }

  lemma HeldOverInOrder(s: State, poll: nat)
    requires InOrder(s)
    ensures InOrder(HeldOver(s, poll))
  {
    if s.lease.Some? && poll in s.lease.value.polls {
      HeldOverIsAnswered(s.sent, s.lease.value.polls, s.asked, s.lease.value.id, poll);
    }
  }

  lemma EndsInOrder(s: State, step: Step)
    requires InOrder(s) && Ends(step)
    ensures InOrder(Next(s, step))
  {
    match step
    case ChangeMonitors => ClearedInOrder(s, NOWHERE);
    case Disable => ClearedInOrder(s.(edges := []), NOWHERE);
    case Timer(now, desk) => ExpiredInOrder(s, now, desk);
    case Arrive(_, x, y, now, desk) => ClearedInOrder(s, desk);
    case _ =>
  }

  lemma InOrderStays(s: State, step: Step)
    requires InOrder(s)
    ensures InOrder(Next(s, step))
  {
    match step
    case Poll(token, now, desk) => PollInOrder(s, token, now, desk);
    case Push(way, axis) => PushedInOrder(s, way, axis);
    case HoldOver(poll) => HeldOverInOrder(s, poll);
    case Prepare(r, now, desk) => PrepareInOrder(s, r, now, desk);
    case Finish(token, now, desk) => FinishInOrder(s, token, now, desk);
    case _ => EndsInOrder(s, step);
  }

  /** However many polls are out at a time, none is lost and none is answered twice. */
  lemma {:induction false} PollsAnsweredOnce(steps: seq<Step>)
    ensures InOrder(Run(START, steps))
  {
    if steps != [] {
      PollsAnsweredOnce(steps[..|steps| - 1]);
      InOrderStays(Run(START, steps[..|steps| - 1]), steps[|steps| - 1]);
    }
  }

  // ----- every exit is reported once

  /** The exits a lease's polls heard of. */
  function Reports(sent: seq<Answer>, lease: nat): seq<Status> {
    if sent == [] then []
    else
      var (rest, a) := (Reports(sent[..|sent| - 1], lease), sent[|sent| - 1]);
      if a.lease == lease && a.status.Exited? then rest + [a.status] else rest
  }

  /** The exits a lease took note of. */
  function Notes(recorded: seq<Record>, lease: nat): seq<Status> {
    if recorded == [] then []
    else
      var (rest, r) := (Notes(recorded[..|recorded| - 1], lease), recorded[|recorded| - 1]);
      if r.way.lease == lease then rest + [Exited(r.way.index, r.position)] else rest
  }

  predicate AllButLast(reports: seq<Status>, notes: seq<Status>) {
    notes != [] && reports == notes[..|notes| - 1]
  }

  predicate Pending(lease: Lease) { lease.exited.Some? && !lease.delivered }

  /** What a lease that holds told: everything, but for an exit the next poll is going to hear. */
  predicate ToldByHolder(lease: Lease, reports: seq<Status>, notes: seq<Status>) {
    if Pending(lease) then AllButLast(reports, notes) && notes[|notes| - 1] == lease.exited.value else reports == notes
  }

  /** One that ended without it is the only way to lose an exit, and only the last. */
  predicate ToldBefore(reports: seq<Status>, notes: seq<Status>) {
    reports == notes || AllButLast(reports, notes)
  }

  predicate IsHolder(s: State, lease: nat) {
    s.lease.Some? && s.lease.value.id == lease
  }

  predicate Told(s: State, lease: nat) {
    var (reports, notes) := (Reports(s.sent, lease), Notes(s.recorded, lease));
    if lease >= s.leases then reports == [] && notes == []
    else if IsHolder(s, lease) then ToldByHolder(s.lease.value, reports, notes)
    else ToldBefore(reports, notes)
  }

  /** At most one poll waits, and none once the pointer left. */
  predicate OneWaits(s: State) {
    && (s.lease.Some? ==> |s.lease.value.polls| <= 1 && s.lease.value.id < s.leases)
    && (s.lease.Some? && s.lease.value.exited.Some? ==> s.lease.value.polls == [] && s.lease.value.exited.value.Exited?)
  }

  lemma {:induction false} ReportsMore(sent: seq<Answer>, more: seq<Answer>, lease: nat)
    ensures Reports(sent + more, lease) == Reports(sent, lease) + Reports(more, lease)
  {
    if more == [] {
      assert sent + more == sent;
    } else {
      var (rest, last) := (more[..|more| - 1], more[|more| - 1]);
      ReportsMore(sent, rest, lease);
      assert (sent + more)[..|sent| + |more| - 1] == sent + rest;
    }
  }

  lemma {:induction false} SilentAnswers(answers: seq<Answer>, lease: nat)
    requires forall i :: 0 <= i < |answers| ==> answers[i].lease != lease || !answers[i].status.Exited?
    ensures Reports(answers, lease) == []
  {
    if answers != [] {
      SilentAnswers(answers[..|answers| - 1], lease);
    }
  }

  lemma OneReport(sent: seq<Answer>, a: Answer, lease: nat)
    ensures Reports(sent + [a], lease) ==
            Reports(sent, lease) + if a.lease == lease && a.status.Exited? then [a.status] else []
  {
    assert (sent + [a])[..|sent|] == sent;
  }

  lemma OneNote(recorded: seq<Record>, r: Record, lease: nat)
    ensures Notes(recorded + [r], lease) ==
            Notes(recorded, lease) + if r.way.lease == lease then [Exited(r.way.index, r.position)] else []
  {
    assert (recorded + [r])[..|recorded|] == recorded;
  }

  ghost predicate AllTold(s: State, lease: nat) {
    OneWaits(s) && Told(s, lease)
  }

  lemma ClearedTold(s: State, desk: Desk, lease: nat)
    requires AllTold(s, lease)
    ensures AllTold(Cleared(s, desk), lease)
  {
    if s.lease.Some? {
      var ended := Answers(s.lease.value.id, s.lease.value.polls, Ended);
      ReportsMore(s.sent, ended, lease);
      SilentAnswers(ended, lease);
    }
  }

  lemma ExpiredTold(s: State, now: int, desk: Desk, lease: nat)
    requires AllTold(s, lease)
    ensures AllTold(Expired(s, now, desk), lease) && |Waiting(Expired(s, now, desk))| <= |Waiting(s)|
  {
    ClearedTold(s, desk, lease);
  }

  lemma LastReported(held: Lease, reports: seq<Status>, notes: seq<Status>)
    requires ToldByHolder(held, reports, notes) && Pending(held)
    ensures reports + [held.exited.value] == notes
  {
    assert notes == notes[..|notes| - 1] + [notes[|notes| - 1]];
  }

  lemma PolledTold(s: State, held: Lease, lease: nat)
    requires AllTold(s, lease) && s.lease.Some? && held == s.lease.value.(renewed := held.renewed)
    requires held.polls == []
    ensures AllTold(Polled(s, held), lease)
  {
    if Pending(held) {
      OneReport(s.sent, Answer(held.id, s.asked, held.exited.value), lease);
      if held.id == lease {
        LastReported(s.lease.value, Reports(s.sent, lease), Notes(s.recorded, lease));
      }
    }
  }

  lemma PollTold(s: State, token: int, now: int, desk: Desk, lease: nat)
    requires AllTold(s, lease) && Waiting(s) == []
    ensures AllTold(Next(s, Poll(token, now, desk)), lease)
  {
    ExpiredTold(s, now, desk, lease);
    var t := Expired(s, now, desk);
    if Holds(t, token) {
      PolledTold(t, t.lease.value.(renewed := now), lease);
    }
  }

  lemma FinishTold(s: State, token: int, now: int, desk: Desk, lease: nat)
    requires AllTold(s, lease)
    ensures AllTold(Next(s, Finish(token, now, desk)), lease)
  {
    ExpiredTold(s, now, desk, lease);
    ClearedTold(Expired(s, now, desk), desk, lease);
  }

  lemma PrepareTold(s: State, r: Request, now: int, desk: Desk, lease: nat)
    requires AllTold(s, lease)
    ensures AllTold(Next(s, Prepare(r, now, desk)), lease)
  {
    ExpiredTold(s, now, desk, lease);
  }

  lemma PushedTold(s: State, way: nat, axis: real, lease: nat)
    requires AllTold(s, lease)
    ensures AllTold(Pushed(s, way, axis), lease)
  {
    if Pushed(s, way, axis) != s {
      var (held, out) := (s.lease.value, s.ways[way]);
      var exited := Exited(out.index, PushedAt(out, axis));
      OneNote(s.recorded, Record(out, PushedAt(out, axis)), lease);
      if held.polls == [] {
        assert s.sent + Answers(held.id, [], exited) == s.sent;
      } else {
        assert Answers(held.id, held.polls, exited) == [Answer(held.id, held.polls[0], exited)];
        OneReport(s.sent, Answer(held.id, held.polls[0], exited), lease);
      }
    }
  }

  lemma HeldOverTold(s: State, poll: nat, lease: nat)
    requires AllTold(s, lease)
    ensures AllTold(HeldOver(s, poll), lease)
  {
    if s.lease.Some? && poll in s.lease.value.polls {
      OneReport(s.sent, Answer(s.lease.value.id, poll, Active), lease);
    }
  }

  /** A poll is only made while none waits. */
  predicate AsksOnce(s: State, step: Step) {
    step.Poll? ==> Waiting(s) == []
  }

  lemma ToldStays(s: State, step: Step, lease: nat)
    requires AllTold(s, lease) && AsksOnce(s, step)
    ensures AllTold(Next(s, step), lease)
  {
    match step
    case Poll(token, now, desk) => PollTold(s, token, now, desk, lease);
    case Push(way, axis) => PushedTold(s, way, axis, lease);
    case HoldOver(poll) => HeldOverTold(s, poll, lease);
    case Prepare(r, now, desk) => PrepareTold(s, r, now, desk, lease);
    case Finish(token, now, desk) => FinishTold(s, token, now, desk, lease);
    case _ => EndsTold(s, step, lease);
  }

  lemma EndsTold(s: State, step: Step, lease: nat)
    requires AllTold(s, lease) && Ends(step)
    ensures AllTold(Next(s, step), lease)
  {
    match step
    case ChangeMonitors => ClearedTold(s, NOWHERE, lease);
    case Disable => ClearedTold(s.(edges := []), NOWHERE, lease);
    case Timer(now, desk) => ExpiredTold(s, now, desk, lease);
    case Arrive(_, x, y, now, desk) => ClearedTold(s, desk, lease);
    case _ =>
  }

  ghost predicate OneAtATime(steps: seq<Step>) {
    forall i :: 0 <= i < |steps| ==> AsksOnce(Run(START, steps[..i]), steps[i])
  }

  /**
   With one poll out at a time, each exit a lease takes note of is reported
   exactly once and in order. Only the last one can be missing: while the next
   poll has yet to come, or for good when the lease ends before it does.
   */
  lemma {:induction false} ExitsReportedOnce(steps: seq<Step>, lease: nat)
    requires OneAtATime(steps)
    ensures AllTold(Run(START, steps), lease)
  {
    if steps != [] {
      var before := steps[..|steps| - 1];
      assert OneAtATime(before) by {
        forall i | 0 <= i < |before| ensures AsksOnce(Run(START, before[..i]), before[i]) {
          assert before[..i] == steps[..i];
        }
      }
      ExitsReportedOnce(before, lease);
      ToldStays(Run(START, before), steps[|steps| - 1], lease);
    }
  }

  lemma {:induction false} EveryPollHears(lease: nat, polls: seq<nat>, status: Status)
    requires status.Exited?
    ensures |Reports(Answers(lease, polls, status), lease)| == |polls|
  {
    if polls != [] {
      var last := |polls| - 1;
      EveryPollHears(lease, polls[..last], status);
      assert Answers(lease, polls, status)[..last] == Answers(lease, polls[..last], status);
    }
  }

  /** With more polls out, the same exit is reported to each: once per poll that waits. */
  lemma PushReportsToEveryPoll(s: State, way: nat, axis: real)
    requires way < |s.ways| && IsHolder(s, s.ways[way].lease) && s.lease.value.exited.None?
    ensures var (t, lease) := (Pushed(s, way, axis), s.lease.value.id);
      && |Notes(t.recorded, lease)| == |Notes(s.recorded, lease)| + 1
      && |Reports(t.sent, lease)| == |Reports(s.sent, lease)| + |Waiting(s)|
  {
    var (held, out) := (s.lease.value, s.ways[way]);
    var exited := Exited(out.index, PushedAt(out, axis));
    OneNote(s.recorded, Record(out, PushedAt(out, axis)), held.id);
    ReportsMore(s.sent, Answers(held.id, held.polls, exited), held.id);
    EveryPollHears(held.id, held.polls, exited);
  }

  /** An exit no poll heard of yet stays so until a poll comes or the lease ends. */
  lemma {:induction false} PendingStays(s: State, more: seq<Step>)
    requires s.lease.Some? && s.lease.value.id < s.leases && Pending(s.lease.value)
    requires forall k :: 0 <= k < |more| ==> !more[k].Poll?
    ensures var (id, t) := (s.lease.value.id, Run(s, more));
      && id < t.leases
      && (IsHolder(t, id) ==> Pending(t.lease.value) && t.lease.value.exited == s.lease.value.exited)
  {
    if more != [] {
      PendingStays(s, more[..|more| - 1]);
      PendingStep(Run(s, more[..|more| - 1]), more[|more| - 1], s.lease.value.id);
    }
  }

  lemma PendingStep(s: State, step: Step, id: nat)
    requires id < s.leases && !step.Poll?
    ensures var t := Next(s, step);
      && id < t.leases
      && (IsHolder(t, id) && (IsHolder(s, id) ==> Pending(s.lease.value)) ==>
          IsHolder(s, id) && Pending(t.lease.value) && t.lease.value.exited == s.lease.value.exited)
  {
  }

  /** Whatever happens meanwhile, the lease's next poll in time hears it, and it is the answer next sent. */
  lemma PendingIsHeard(s: State, more: seq<Step>, token: int, now: int, desk: Desk)
    requires s.lease.Some? && s.lease.value.id < s.leases && Pending(s.lease.value)
    requires forall k :: 0 <= k < |more| ==> !more[k].Poll?
    requires var t := Run(s, more); IsHolder(t, s.lease.value.id) && Holds(t, token) && !Over(t, now)
    requires token > 0 && desk.monitors != []
    ensures var t := Run(s, more);
      Run(s, more + [Poll(token, now, desk)]).sent == t.sent + [Answer(s.lease.value.id, t.asked, s.lease.value.exited.value)]
  {
    PendingStays(s, more);
    RunThen(s, more, Poll(token, now, desk));
  }

  /** The barriers follow the lease, no poll is lost or answered twice, and exits are reported once. */
  ghost predicate Keeps(s: State, steps: seq<Step>) {
    Fenced(s) && InOrder(s) && (OneAtATime(steps) ==> forall id: nat :: AllTold(s, id))
  }

  /** The first push after an entry, or after a poll took the last one back, is noted, at the position of its barrier. */
  lemma PushIsNoted(s: State, way: nat, axis: real)
    requires Fenced(s) && way < |s.ways| && s.lease.value.exited.None?
    ensures var (t, b) := (Pushed(s, way, axis), s.ways[way].barrier);
      && b.exit.Valid() && t.recorded == s.recorded + [Record(s.ways[way], PositionOf(b.geometry, b.exit.start, b.exit.end, axis))]
      && IsHolder(t, s.ways[way].lease) && t.lease.value.exited.Some?
  {
    assert LeadsOut(s.ways[way], s.lease.value.id, s.lease.value.exits);
  }

  lemma EveryRunKeeps(steps: seq<Step>)
    ensures Keeps(Run(START, steps), steps)
  {
    BarriersFollowTheLease(steps);
    PollsAnsweredOnce(steps);
    if OneAtATime(steps) {
      forall id: nat ensures AllTold(Run(START, steps), id) { ExitsReportedOnce(steps, id); }
    }
  }
}
