/**
 Two computers that dial each other at the same moment (connect,
 accept_connection, retire_session, keeps_own_dial and wins_dial in
 src/daemon.rs). Every await splits a task into separate steps, the two
 computers interleave freely, and a connection is named by who dialed it.
 */
module Dial {
  import opened Wrappers

  const CONNECT_TIMEOUT := 5_000

  /** The computer whose fingerprint sorts first, and the other one. */
  datatype Side = Low | High {
    function Other(): Side { if Low? then High else Low }
    /** wins_simultaneous_dial. */
    predicate Wins() { Low? }
  }

  /**
   How far a task handling a connection is: its own dial goes Pending, Started,
   Done; a connection dialed by the other goes Pending, Retiring, Started, Done.
   */
  datatype Stage = Pending | Retiring | Started | Done

  /** `reported`: sessions whose Closed event this computer has handled. */
  datatype Computer = Computer(session: Option<Side>, dialedAt: Option<int>, dial: Stage, accept: Stage, reported: set<Side>)

  datatype State = State(open: set<Side>, low: Computer, high: Computer, now: int) {
    function At(side: Side): Computer { if side.Low? then low else high }
    function With(side: Side, c: Computer): State { if side.Low? then this.(low := c) else this.(high := c) }
    function Shut(conn: Side): State { this.(open := open - {conn}) }
  }

  datatype Step =
    | Tick(ms: nat)
    | DialStarts(at: Side)
    | DialPlaces(at: Side)
    | Arrives(at: Side)
    | Retires(at: Side)
    | AcceptPlaces(at: Side, ended: bool)   // `ended`: its session already stopped
    | Report(at: Side, conn: Side)          // the Closed event of a session here
    | GiveUp(at: Side)                      // the accepting task's own timeout
    | Fail(conn: Side)                      // the network

  const START := State({Low, High}, Computer(None, None, Pending, Pending, {}), Computer(None, None, Pending, Pending, {}), 0)

  /** keeps_own_dial: the session is this computer's own dial, just finished, and it wins. */
  predicate KeepsOwnDial(s: State, at: Side) {
    var c := s.At(at);
    c.session == Some(at) && c.dialedAt.Some? && s.now - c.dialedAt.value < CONNECT_TIMEOUT && at.Wins()
  }

  /** The end of connect: keep the new session, unless the one there wins. */
  function PlaceDial(s: State, at: Side): State {
    var c := s.At(at).(dial := Done);
    var placed := c.(session := Some(at), dialedAt := Some(s.now));
    match c.session
    case None => s.With(at, placed)
    case Some(existing) =>
      if existing == at || !at.Wins() then s.With(at, c).Shut(at)
      else s.With(at, placed).Shut(existing)
  }

  /** The loop at the end of accept_connection, once round. */
  function PlaceAccepted(s: State, at: Side, ended: bool): State {
    var (c, conn) := (s.At(at), at.Other());
    if ended || conn in c.reported then s.With(at, c.(accept := Done)).Shut(conn)
    else match c.session
         case None => s.With(at, c.(session := Some(conn), accept := Done))
         case Some(existing) =>
           if KeepsOwnDial(s, at) then s.With(at, c.(accept := Done)).Shut(conn)
           else s.Shut(existing)
  }

  function Next(s: State, step: Step): State {
    match step
    case Tick(ms) => s.(now := s.now + ms)
    case DialStarts(at) =>
      if !s.At(at).dial.Pending? then s
      else s.With(at, s.At(at).(dial := if at in s.open then Started else Done))
    case DialPlaces(at) => if s.At(at).dial.Started? then PlaceDial(s, at) else s
    case Arrives(at) =>
      if !s.At(at).accept.Pending? then s
      else if KeepsOwnDial(s, at) then s.With(at, s.At(at).(accept := Done)).Shut(at.Other())
      else s.With(at, s.At(at).(accept := Retiring))
    case Retires(at) =>
      if !s.At(at).accept.Retiring? then s
      else if s.At(at).session.Some? then s.Shut(s.At(at).session.value)
      else s.With(at, s.At(at).(accept := if at.Other() in s.open then Started else Done))
    case AcceptPlaces(at, ended) =>
      if s.At(at).accept.Started? && (ended ==> at.Other() !in s.open) then PlaceAccepted(s, at, ended) else s
    case Report(at, conn) =>
      var c := s.At(at);
      var live := if conn == at then c.dial.Started? || c.dial.Done? else c.accept.Started? || c.accept.Done?;
      if conn in s.open || conn in c.reported || !live then s
      else s.With(at, c.(reported := c.reported + {conn},
                         session := if c.session == Some(conn) then None else c.session,
                         dialedAt := if conn == at then None else c.dialedAt))
    case GiveUp(at) =>
      if s.At(at).accept.Retiring? || s.At(at).accept.Started?
      then s.With(at, s.At(at).(accept := Done)).Shut(at.Other()) else s
    case Fail(conn) => s.Shut(conn)
  }

  function Run(steps: seq<Step>): State {
    if steps == [] then START else Next(Run(steps[..|steps| - 1]), steps[|steps| - 1])
  }

  // ----- agreement

  function StageOf(s: State, at: Side, conn: Side): Stage {
    if conn == at then s.At(at).dial else s.At(at).accept
  }

  /** A connection still open that a computer is done with is the one it keeps. */
  predicate KeptAt(s: State, at: Side, conn: Side) {
    && (conn in s.open && StageOf(s, at, conn).Done? ==> s.At(at).session == Some(conn))
    && (s.At(at).session == Some(conn) ==> StageOf(s, at, conn).Done?)
    && (conn in s.At(at).reported ==> conn !in s.open)
  }

  predicate Kept(s: State) {
    KeptAt(s, Low, Low) && KeptAt(s, Low, High) && KeptAt(s, High, Low) && KeptAt(s, High, High)
  }

  lemma KeptEverywhere(s: State, at: Side, conn: Side)
    requires Kept(s)
    ensures KeptAt(s, at, conn)
  {
    match (at, conn) {
      case (Low, Low) =>
      case (Low, High) =>
      case (High, Low) =>
      case (High, High) =>
    }
  }

  /** What a step at the other computer, or of the network, does to this one is close connections. */
  lemma KeptAtElsewhere(s: State, t: State, at: Side, conn: Side)
    requires KeptAt(s, at, conn) && t.At(at) == s.At(at) && t.open <= s.open
    ensures KeptAt(t, at, conn)
  {
  }

  predicate IsAt(step: Step, at: Side) {
    !step.Tick? && !step.Fail? && step.at == at
  }

  lemma ElsewhereUnchanged(s: State, step: Step, at: Side)
    requires !IsAt(step, at)
    ensures Next(s, step).At(at) == s.At(at) && Next(s, step).open <= s.open
  {
  }

  lemma KeptAtHere(s: State, step: Step, at: Side, conn: Side)
    requires KeptAt(s, at, conn) && KeptAt(s, at, conn.Other()) && IsAt(step, at)
    ensures KeptAt(Next(s, step), at, conn)
  {
  }

  lemma KeptAtStays(s: State, step: Step, at: Side, conn: Side)
    requires Kept(s)
    ensures KeptAt(Next(s, step), at, conn)
  {
    KeptEverywhere(s, at, conn);
    KeptEverywhere(s, at, conn.Other());
    if IsAt(step, at) {
      KeptAtHere(s, step, at, conn);
    } else {
      ElsewhereUnchanged(s, step, at);
      KeptAtElsewhere(s, Next(s, step), at, conn);
    }
  }

  lemma KeptStays(s: State, step: Step)
    requires Kept(s)
    ensures Kept(Next(s, step))
  {
    KeptAtStays(s, step, Low, Low);
    KeptAtStays(s, step, Low, High);
    KeptAtStays(s, step, High, Low);
    KeptAtStays(s, step, High, High);
  }

  lemma {:induction false} KeptHolds(steps: seq<Step>)
    ensures Kept(Run(steps))
  {
    if steps != [] {
      KeptHolds(steps[..|steps| - 1]);
      KeptStays(Run(steps[..|steps| - 1]), steps[|steps| - 1]);
    }
  }

  /** Both tasks of both computers are done, and every closed session's event was handled. */
  predicate Settled(s: State) {
    && s.low.dial.Done? && s.low.accept.Done? && s.high.dial.Done? && s.high.accept.Done?
    && (Low !in s.open ==> Low in s.low.reported && Low in s.high.reported)
    && (High !in s.open ==> High in s.low.reported && High in s.high.reported)
  }

  /** A computer keeps a session whose end it was told of before it put it in the map. */
  predicate KeepsEnded(s: State, at: Side) {
    var c := s.At(at);
    c.session.Some? && c.session.value in c.reported
  }

  /** Only connect can do that: what was accepted is checked again before it is put there. */
  predicate AcceptedIsLive(s: State, at: Side) {
    s.At(at).session == Some(at.Other()) ==> at.Other() !in s.At(at).reported
  }

  lemma AcceptedIsLiveStays(s: State, step: Step, at: Side)
    requires AcceptedIsLive(s, at)
    ensures AcceptedIsLive(Next(s, step), at)
  {
  }

  lemma {:induction false} AcceptedIsLiveHolds(steps: seq<Step>, at: Side)
    ensures AcceptedIsLive(Run(steps), at)
  {
    if steps != [] {
      AcceptedIsLiveHolds(steps[..|steps| - 1], at);
      AcceptedIsLiveStays(Run(steps[..|steps| - 1]), steps[|steps| - 1], at);
    }
  }

  lemma KeptByBoth(s: State, at: Side)
    requires Kept(s) && Settled(s) && s.At(at).session.Some? && !KeepsEnded(s, at)
    ensures s.At(at.Other()).session == s.At(at).session
  {
    var conn := s.At(at).session.value;
    KeptEverywhere(s, at.Other(), conn);
    KeptEverywhere(s, at, conn);
  }

  /**
   Settled computers keep the same connection, or both none, unless one of
   them keeps a session that ended before.
   */
  lemma SettledUnlessEnded(steps: seq<Step>)
    requires Settled(Run(steps))
    ensures var s := Run(steps);
      s.low.session == s.high.session <==> !KeepsEnded(s, Low) && !KeepsEnded(s, High)
  {
    KeptHolds(steps);
    AcceptedIsLiveHolds(steps, Low);
    AcceptedIsLiveHolds(steps, High);
    var s := Run(steps);
    if KeepsEnded(s, Low) { KeptEverywhere(s, Low, s.low.session.value); }
    if KeepsEnded(s, High) { KeptEverywhere(s, High, s.high.session.value); }
    if !KeepsEnded(s, Low) && s.low.session.Some? { KeptByBoth(s, Low); }
    if !KeepsEnded(s, High) && s.high.session.Some? { KeptByBoth(s, High); }
  }

  /** connect is about to put its session in the map although its end was handled already; it does not look. */
  predicate PlacesEnded(s: State, step: Step, at: Side) {
    var c := s.At(at);
    step == DialPlaces(at) && c.dial.Started? && at in c.reported && (c.session.None? || at.Wins())
  }

  ghost predicate PlacedEnded(steps: seq<Step>, at: Side) {
    exists k :: 0 <= k < |steps| && PlacesEnded(Run(steps[..k]), steps[k], at)
  }

  lemma EndedStep(s: State, step: Step, at: Side)
    requires KeptAt(s, at, at) && AcceptedIsLive(s, at)
    ensures KeepsEnded(Next(s, step), at) <==> KeepsEnded(s, at) || PlacesEnded(s, step, at)
  {
  }

  lemma PlacedEndedStep(steps: seq<Step>, at: Side)
    requires steps != []
    ensures var last := |steps| - 1;
      PlacedEnded(steps, at) <==> PlacedEnded(steps[..last], at) || PlacesEnded(Run(steps[..last]), steps[last], at)
  {
    var last := |steps| - 1;
    assert forall k :: 0 <= k < last ==> steps[..last][..k] == steps[..k] && steps[..last][k] == steps[k];
    if PlacedEnded(steps[..last], at) {
      var k :| 0 <= k < last && PlacesEnded(Run(steps[..last][..k]), steps[..last][k], at);
      assert PlacesEnded(Run(steps[..k]), steps[k], at);
    }
    if PlacedEnded(steps, at) {
      var k :| 0 <= k < |steps| && PlacesEnded(Run(steps[..k]), steps[k], at);
      if k < last { assert PlacesEnded(Run(steps[..last][..k]), steps[..last][k], at); }
    }
  }

  /** A computer keeps a session that ended exactly when connect once put one in its map. */
  lemma {:induction false} KeepsEndedExactlyWhen(steps: seq<Step>, at: Side)
    ensures KeepsEnded(Run(steps), at) <==> PlacedEnded(steps, at)
  {
    if steps != [] {
      var last := |steps| - 1;
      KeepsEndedExactlyWhen(steps[..last], at);
      KeptHolds(steps[..last]);
      KeptEverywhere(Run(steps[..last]), at, at);
      AcceptedIsLiveHolds(steps[..last], at);
      EndedStep(Run(steps[..last]), steps[last], at);
      PlacedEndedStep(steps, at);
    }
  }

  /**
   Settled computers agree exactly when no connect of the run put a session in
   the map whose end had been handled: the check it lacks.
   */
  lemma SettledAgree(steps: seq<Step>)
    requires Settled(Run(steps))
    ensures Run(steps).low.session == Run(steps).high.session <==> !PlacedEnded(steps, Low) && !PlacedEnded(steps, High)
  {
    SettledUnlessEnded(steps);
    KeepsEndedExactlyWhen(steps, Low);
    KeepsEndedExactlyWhen(steps, High);
  }

  /** So no settled state has them keeping two different connections that are both open. */
  lemma SettledNeverDiffer(steps: seq<Step>)
    requires Settled(Run(steps))
    requires Run(steps).low.session.Some? && Run(steps).high.session.Some?
    requires Run(steps).low.session.value in Run(steps).open && Run(steps).high.session.value in Run(steps).open
    ensures Run(steps).low.session == Run(steps).high.session
  {
    KeptHolds(steps);
    SettledUnlessEnded(steps);
    var s := Run(steps);
    KeptEverywhere(s, Low, s.low.session.value);
    KeptEverywhere(s, High, s.high.session.value);
  }

  // ----- what an arrival does to the session that is there

  /** It is this computer's own dial, finished within CONNECT_TIMEOUT, and this computer wins. */
  predicate OwnDialStands(s: State, at: Side) {
    var c := s.At(at);
    at.Low? && c.session == Some(at) && c.dialedAt.Some? && s.now - c.dialedAt.value < 5_000
  }

  /** A connection that arrives is refused exactly when the own dial stands; else the session there is to go. */
  lemma ArrivalRefusedExactlyWhen(s: State, at: Side)
    requires s.At(at).accept.Pending? && at.Other() in s.open
    ensures var t := Next(s, Arrives(at));
      && (at.Other() !in t.open <==> OwnDialStands(s, at))
      && t.At(at).accept == (if OwnDialStands(s, at) then Done else Retiring)
      && t.At(at).session == s.At(at).session
  {
  }

  /**
   A peer that dials in later than CONNECT_TIMEOUT, or to the computer that
   loses, replaces the own dial there was: it is closed, and once its end is
   reported the new connection is this computer's session.
   */
  lemma LateArrivalReplaces(s: State, at: Side)
    requires s.At(at).accept.Pending? && s.At(at).session == Some(at) && s.At(at).dial.Done?
    requires at !in s.At(at).reported && at.Other() !in s.At(at).reported && at.Other() in s.open
    requires !OwnDialStands(s, at)
    ensures var retired := Next(Next(s, Arrives(at)), Retires(at));
      var started := Next(Next(retired, Report(at, at)), Retires(at));
      var placed := Next(started, AcceptPlaces(at, false));
      && at !in retired.open
      && placed.At(at).session == Some(at.Other()) && at.Other() in placed.open && placed.At(at).accept.Done?
  {
    ArrivalRefusedExactlyWhen(s, at);
    var retired := Next(Next(s, Arrives(at)), Retires(at));
    assert retired.open == s.open - {at} && retired.At(at) == s.At(at).(accept := Retiring);
    var reported := Next(retired, Report(at, at));
    assert reported.At(at).session.None? && reported.open == retired.open;
  }

  lemma Then(steps: seq<Step>, s: State, step: Step, t: State)
    requires Run(steps) == s && Next(s, step) == t
    ensures Run(steps + [step]) == t
  {
    assert (steps + [step])[..|steps|] == steps;
  }

  /** Both dials are under way, each computer with its own. */
  function Dialing(low: Computer, high: Computer, open: set<Side>): State { State(open, low, high, 0) }

  const NEW := Computer(None, None, Pending, Pending, {})
  const STARTED := NEW.(dial := Started)

  lemma BothStarted() returns (steps: seq<Step>)
    ensures steps == [DialStarts(Low), DialStarts(High)]
    ensures Run(steps) == Dialing(STARTED, STARTED, {Low, High})
  {
    steps := [];
    Then(steps, START, DialStarts(Low), Dialing(STARTED, NEW, {Low, High}));
    steps := steps + [DialStarts(Low)];
    Then(steps, Dialing(STARTED, NEW, {Low, High}), DialStarts(High), Dialing(STARTED, STARTED, {Low, High}));
    steps := steps + [DialStarts(High)];
  }

  const KEPT_LOW := Computer(Some(Low), Some(0), Done, Pending, {})

  /** The low computer keeps its dial and refuses the other's. */
  lemma LoserIsRefused() returns (steps: seq<Step>)
    ensures steps == [DialStarts(Low), DialStarts(High), DialPlaces(Low), Arrives(Low)]
    ensures Run(steps) == Dialing(KEPT_LOW.(accept := Done), STARTED, {Low})
  {
    steps := BothStarted();
    Then(steps, Dialing(STARTED, STARTED, {Low, High}), DialPlaces(Low), Dialing(KEPT_LOW, STARTED, {Low, High}));
    steps := steps + [DialPlaces(Low)];
    Then(steps, Dialing(KEPT_LOW, STARTED, {Low, High}), Arrives(Low), Dialing(KEPT_LOW.(accept := Done), STARTED, {Low}));
    steps := steps + [Arrives(Low)];
  }

  /** The loser's dial ends, and its end is handled, before connect puts it in the map. */
  lemma EndedDialIsKept() returns (steps: seq<Step>)
    ensures steps == [DialStarts(Low), DialStarts(High), DialPlaces(Low), Arrives(Low), Report(High, High), DialPlaces(High)]
    ensures Run(steps) == Dialing(KEPT_LOW.(accept := Done), Computer(Some(High), Some(0), Done, Pending, {High}), {Low})
  {
    steps := LoserIsRefused();
    var low := KEPT_LOW.(accept := Done);
    Then(steps, Dialing(low, STARTED, {Low}), Report(High, High), Dialing(low, STARTED.(reported := {High}), {Low}));
    steps := steps + [Report(High, High)];
    Then(steps, Dialing(low, STARTED.(reported := {High}), {Low}), DialPlaces(High),
         Dialing(low, Computer(Some(High), Some(0), Done, Pending, {High}), {Low}));
    steps := steps + [DialPlaces(High)];
  }

  /** The low computer's connection waits for that session to go, in vain, and is given up. */
  lemma GivenUp() returns (steps: seq<Step>)
    ensures Run(steps) == Dialing(KEPT_LOW.(accept := Done), Computer(Some(High), Some(0), Done, Done, {High}), {})
  {
    steps := EndedDialIsKept();
    var (low, high) := (KEPT_LOW.(accept := Done), Computer(Some(High), Some(0), Done, Pending, {High}));
    Then(steps, Dialing(low, high, {Low}), Arrives(High), Dialing(low, high.(accept := Retiring), {Low}));
    steps := steps + [Arrives(High)];
    Then(steps, Dialing(low, high.(accept := Retiring), {Low}), GiveUp(High), Dialing(low, high.(accept := Done), {}));
    steps := steps + [GiveUp(High)];
  }

  /**
   The session it then keeps never reports its end again, so the peer's live
   connection waits for it in vain: settled, one keeps a dead session, the
   other none.
   */
  lemma SettledCanDiffer() returns (steps: seq<Step>)
    ensures var s := Run(steps);
      Settled(s) && s.low.session.None? && s.high.session == Some(High) && KeepsEnded(s, High)
  {
    steps := GivenUp();
    var (low, high) := (KEPT_LOW.(accept := Done), Computer(Some(High), Some(0), Done, Done, {High}));
    Then(steps, Dialing(low, high, {}), Report(High, Low), Dialing(low, high.(reported := {High, Low}), {}));
    steps := steps + [Report(High, Low)];
    var gone := low.(session := None, dialedAt := None, reported := {Low});
    Then(steps, Dialing(low, high.(reported := {High, Low}), {}), Report(Low, Low), Dialing(gone, high.(reported := {High, Low}), {}));
    steps := steps + [Report(Low, Low)];
    Then(steps, Dialing(gone, high.(reported := {High, Low}), {}), Report(Low, High),
         Dialing(gone.(reported := {Low, High}), high.(reported := {High, Low}), {}));
    steps := steps + [Report(Low, High)];
  }

  // ----- who survives

  /** The network holds, no task times out, and the winner's dial is young when weighed. */
  predicate TimelyStep(s: State, step: Step) {
    && !step.Fail? && !step.GiveUp?
    && (s.low.dialedAt.Some? ==> s.now - s.low.dialedAt.value < CONNECT_TIMEOUT)
  }

  /** The winner's own dial was put in the map after it was checked for and before the old session was retired. */
  predicate RetiresOwnDial(s: State, step: Step) {
    step == Retires(Low) && s.low.accept.Retiring? && s.low.session == Some(Low)
  }

  predicate Timely(steps: seq<Step>) {
    forall k :: 0 <= k < |steps| ==> TimelyStep(Run(steps[..k]), steps[k])
  }

  predicate Atomic(steps: seq<Step>) {
    forall k :: 0 <= k < |steps| ==> !RetiresOwnDial(Run(steps[..k]), steps[k])
  }

  predicate LowStands(s: State) {
    Low in s.open && (s.low.session == Some(Low) ==> s.low.dialedAt.Some?)
  }

  lemma LowStandsOn(s: State, step: Step)
    requires Kept(s) && LowStands(s) && TimelyStep(s, step) && !RetiresOwnDial(s, step)
    ensures LowStands(Next(s, step))
  {
  }

  lemma {:induction false} LowSurvives(steps: seq<Step>)
    requires Timely(steps) && Atomic(steps)
    ensures LowStands(Run(steps))
  {
    if steps != [] {
      var before := steps[..|steps| - 1];
      forall k | 0 <= k < |before| ensures TimelyStep(Run(before[..k]), before[k]) && !RetiresOwnDial(Run(before[..k]), before[k]) {
        assert before[..k] == steps[..k];
      }
      LowSurvives(before);
      KeptHolds(before);
      LowStandsOn(Run(before), steps[|steps| - 1]);
    }
  }

  lemma {:induction false} ClosedStaysClosed(steps: seq<Step>, k: nat, conn: Side)
    requires k <= |steps| && conn !in Run(steps[..k]).open
    ensures conn !in Run(steps).open
    decreases |steps|
  {
    if k < |steps| {
      assert steps[..|steps| - 1][..k] == steps[..k];
      ClosedStaysClosed(steps[..|steps| - 1], k, conn);
    } else {
      assert steps[..k] == steps;
    }
  }

  lemma RetireCloses(s: State, step: Step)
    requires RetiresOwnDial(s, step)
    ensures Low !in Next(s, step).open
  {
  }

  lemma RetiredIsLost(steps: seq<Step>, k: nat)
    requires k < |steps| && RetiresOwnDial(Run(steps[..k]), steps[k])
    ensures Low !in Run(steps).open
  {
    RetireCloses(Run(steps[..k]), steps[k]);
    Then(steps[..k], Run(steps[..k]), steps[k], Next(Run(steps[..k]), steps[k]));
    assert steps[..k] + [steps[k]] == steps[..k + 1];
    ClosedStaysClosed(steps, k + 1, Low);
  }

  /**
   With a network that holds and dials that are young, the connection the lower
   fingerprint dialed survives exactly when it is not placed between the check
   for it and the retiring of what was there.
   */
  lemma LowSurvivesExactlyWhen(steps: seq<Step>)
    requires Timely(steps)
    ensures Low in Run(steps).open <==> Atomic(steps)
  {
    if Atomic(steps) {
      LowSurvives(steps);
    } else {
      var k :| 0 <= k < |steps| && RetiresOwnDial(Run(steps[..k]), steps[k]);
      RetiredIsLost(steps, k);
    }
  }

  /** Then both computers settle on it. */
  lemma SettledOnLow(steps: seq<Step>)
    requires Timely(steps) && Atomic(steps) && Settled(Run(steps))
    ensures Run(steps).low.session == Some(Low) && Run(steps).high.session == Some(Low)
  {
    LowSurvives(steps);
    KeptHolds(steps);
    assert KeptAt(Run(steps), Low, Low) && KeptAt(Run(steps), High, Low);
  }

  lemma TimelyThen(steps: seq<Step>, step: Step)
    requires Timely(steps) && TimelyStep(Run(steps), step)
    ensures Timely(steps + [step])
  {
    var all := steps + [step];
    forall k | 0 <= k < |all| ensures TimelyStep(Run(all[..k]), all[k]) {
      assert all[..k] == steps[..k];
      if k == |steps| { assert steps[..k] == steps; }
    }
  }

  lemma TimelyRun(steps: seq<Step>, s: State, step: Step, t: State)
    requires Timely(steps) && Run(steps) == s && TimelyStep(s, step) && Next(s, step) == t
    ensures Timely(steps + [step]) && Run(steps + [step]) == t
  {
    Then(steps, s, step, t);
    TimelyThen(steps, step);
  }

  /** It can be lost: retire_session closes whatever is there, also a dial that finished meanwhile. */
  lemma OwnDialCanBeRetired() returns (steps: seq<Step>)
    ensures steps == [DialStarts(Low), Arrives(Low), DialPlaces(Low), Retires(Low)]
    ensures Timely(steps) && Low !in Run(steps).open
  {
    var both := {Low, High};
    steps := [];
    TimelyRun(steps, START, DialStarts(Low), Dialing(STARTED, NEW, both));
    steps := steps + [DialStarts(Low)];
    TimelyRun(steps, Dialing(STARTED, NEW, both), Arrives(Low), Dialing(STARTED.(accept := Retiring), NEW, both));
    steps := steps + [Arrives(Low)];
    var placed := KEPT_LOW.(accept := Retiring);
    TimelyRun(steps, Dialing(STARTED.(accept := Retiring), NEW, both), DialPlaces(Low), Dialing(placed, NEW, both));
    steps := steps + [DialPlaces(Low)];
    TimelyRun(steps, Dialing(placed, NEW, both), Retires(Low), Dialing(placed, NEW, {High}));
    steps := steps + [Retires(Low)];
  }
}
