/**
 Moving this computer's one outbound activation between sessions (begin_outbound,
 switch_outbound, end_outbound, finish_runtime_terminal and the event handlers
 of src/daemon.rs). What runs under the policy lock is one step. The handlers
 of session events and close_all do not take it: each of their locks is a step
 of its own, and what they have still to do is a task that anything may come
 before. The runtime queues its events in order, a session may end or die at
 any moment, and every send may fail.
 */
module Hop {
  import opened Wrappers

  /** A saved computer's name, which is only ever compared. */
  type Peer = nat

  /**
   `open`: an activation was begun on it and has neither left nor been closed.
   `told`: it ended one by itself, so its OutboundEnded may come, however late.
   */
  datatype Session = Session(peer: Peer, open: bool, closed: bool, told: bool) {
    function Left(): Session { this.(open := false) }
    function GivenUp(): Session { this.(open := false, told := told || open) }
    function Closed(): Session { GivenUp().(closed := true) }
  }

  datatype Active = Active(peer: Peer, id: nat)

  datatype Phase = Idle | Remote | Releasing

  /** OwnershipChanged to Remote, TerminalRequested or ActivationClosed, OwnershipChanged to Idle. */
  datatype Event = Began(peer: Peer) | Ended | Idled

  /** What a handler has still to do, each after another lock. */
  datatype Task =
    | EndedClears(id: nat)   // OutboundEnded found its session active
    | EndedCloses(id: nat)
    | ClosedLooks(id: nat)   // Closed took its session out of the map
    | ClosedClears(id: nat)  // and found it active
    | AllClears              // close_all took every session

  datatype State = State(sessions: map<Peer, nat>, all: map<nat, Session>, active: Option<Active>,
                         runtime: Phase, events: seq<Event>, tasks: multiset<Task>) {
    predicate Registered(id: nat) {
      id in all && all[id].peer in sessions && sessions[all[id].peer] == id
    }
  }

  datatype Step =
    | Register(peer: Peer, id: nat)           // a new session takes the peer's place; the one there is closed
    | Close(id: nat)                          // any caller closes a session
    | Expire(id: nat)                         // the session gives its activation up by itself
    | LookEnded(id: nat)                      // the handler of its OutboundEnded starts
    | RemoveClosed(id: nat)                   // the handler of its Closed starts
    | TakeAll                                 // close_all starts
    | Continue(task: Task)
    | RuntimeBegins(peer: Peer)
    | RuntimeEnds
    | RuntimeIdles
    | Handle(sent: bool)                      // the next runtime event; `sent`: what it sends goes out
    | Hop(peer: Peer, left: bool, begun: bool)

  function Put(s: State, id: nat, session: Session): State {
    s.(all := s.all[id := session])
  }

  /** SessionHandle::begin_outbound and what follows: the activation is open and the active one. */
  function Begin(s: State, peer: Peer, sent: bool): State {
    if peer !in s.sessions || s.sessions[peer] !in s.all then s
    else
      var id := s.sessions[peer];
      if !sent || s.all[id].closed then s
      else Put(s, id, s.all[id].(open := true)).(active := Some(Active(peer, id)))
  }

  /** The active one is taken, and left; when Leave cannot be sent its session is closed instead. */
  function EndActive(s: State, sent: bool): State {
    if s.active.None? then s
    else
      var Active(peer, id) := s.active.value;
      var taken := s.(active := None);
      if peer !in s.sessions || s.sessions[peer] != id || id !in s.all then taken
      else Put(taken, id, if sent then s.all[id].Left() else s.all[id].Closed())
  }

  /** switch_outbound: refused unless input goes somewhere and the peer has a session. */
  function HopTo(s: State, peer: Peer, left: bool, begun: bool): State {
    if s.runtime != Remote || peer !in s.sessions || s.active.None? then s
    else Begin(EndActive(s, left), peer, begun)
  }

  function CloseIfRegistered(s: State, id: nat): State {
    if s.Registered(id) then Put(s, id, s.all[id].Closed()) else s
  }

  function Handled(s: State, event: Event, sent: bool): State {
    match event
    case Began(peer) => Begin(s, peer, sent)
    case Ended => EndActive(s, sent)
    case Idled => s.(active := None)
  }

  predicate IsActive(s: State, id: nat) {
    id in s.all && s.active == Some(Active(s.all[id].peer, id))
  }

  function WithTask(s: State, task: Task): State {
    s.(tasks := s.tasks + multiset{task})
  }

  /** The next part of a handler. Those that clear do not look again. */
  function Continued(s: State, task: Task): State {
    match task
    case EndedClears(id) => WithTask(s.(active := None), EndedCloses(id))
    case EndedCloses(id) => CloseIfRegistered(s, id)
    case ClosedLooks(id) => if IsActive(s, id) then WithTask(s, ClosedClears(id)) else s
    case ClosedClears(_) => s.(active := None)
    case AllClears => s.(active := None)
  }

  function Next(s: State, step: Step): State {
    match step
    case Register(peer, id) =>
      if id in s.all then s
      else
        var old' := if peer in s.sessions then CloseIfRegistered(s, s.sessions[peer]) else s;
        Put(old', id, Session(peer, false, false, false)).(sessions := s.sessions[peer := id])
    case Close(id) => if id in s.all then Put(s, id, s.all[id].Closed()) else s
    case Expire(id) => if id in s.all then Put(s, id, s.all[id].GivenUp()) else s
    case LookEnded(id) => if id in s.all && s.all[id].told && IsActive(s, id) then WithTask(s, EndedClears(id)) else s
    case RemoveClosed(id) =>
      if id !in s.all || !s.all[id].closed then s
      else WithTask(if s.Registered(id) then s.(sessions := s.sessions - {s.all[id].peer}) else s, ClosedLooks(id))
    case TakeAll =>
      WithTask(s.(sessions := map[],
                  all := map id | id in s.all :: if s.Registered(id) then s.all[id].Closed() else s.all[id]),
               AllClears)
    case Continue(task) => if task in s.tasks then Continued(s.(tasks := s.tasks - multiset{task}), task) else s
    case RuntimeBegins(peer) => if s.runtime == Idle then s.(runtime := Remote, events := s.events + [Began(peer)]) else s
    case RuntimeEnds => if s.runtime != Idle then s.(runtime := Releasing, events := s.events + [Ended]) else s
    case RuntimeIdles => if s.runtime != Remote then s.(runtime := Idle, events := s.events + [Idled]) else s
    case Handle(sent) =>
      if s.events == [] then s else Handled(s, s.events[0], sent).(events := s.events[1..])
    case Hop(peer, left, begun) => HopTo(s, peer, left, begun)
  }

  function Run(s: State, steps: seq<Step>): State {
    if steps == [] then s else Next(Run(s, steps[..|steps| - 1]), steps[|steps| - 1])
  }

  const START := State(map[], map[], None, Idle, [], multiset{})

  // ----- what holds in every reachable state

  /** Every open activation is the active one, on the peer's own live session. */
  ghost predicate Safe(s: State) {
    forall id :: id in s.all && s.all[id].open ==> IsActive(s, id) && s.Registered(id) && !s.all[id].closed
  }

  /** Each peer's session is one of that peer's. */
  ghost predicate Named(s: State) {
    forall peer :: peer in s.sessions ==> s.sessions[peer] in s.all && s.all[s.sessions[peer]].peer == peer
  }

  /** Whether input may be going somewhere once `events` are handled. */
  function BusyAfter(events: seq<Event>, busy: bool): bool {
    if events == [] then busy
    else match events[|events| - 1]
         case Began(_) => true
         case Ended => false
         case Idled => BusyAfter(events[..|events| - 1], busy)
  }

  /** No event that begins or forgets an activation comes while one may be going. */
  predicate InOrder(events: seq<Event>, busy: bool) {
    forall i :: 0 <= i < |events| && !events[i].Ended? ==> !BusyAfter(events[..i], busy)
  }

  ghost predicate Inv(s: State) {
    && Safe(s) && Named(s)
    && InOrder(s.events, s.active.Some?)
    && (s.runtime != Remote ==> !BusyAfter(s.events, s.active.Some?))
  }

  lemma {:induction false} LessBusy(events: seq<Event>)
    ensures BusyAfter(events, false) ==> BusyAfter(events, true)
  {
    if events != [] { LessBusy(events[..|events| - 1]); }
  }

  lemma {:induction false} BusyHandled(events: seq<Event>, busy: bool)
    requires events != []
    ensures BusyAfter(events, busy) == BusyAfter(events[1..], BusyAfter(events[..1], busy))
  {
    if |events| > 1 {
      var last := |events| - 1;
      BusyHandled(events[..last], busy);
      assert events[1..][..last - 1] == events[..last][1..];
      assert events[..last][..1] == events[..1];
    }
  }

  /** Dropping to idle or handling the next event keeps the rest in order. */
  lemma OrderHandled(events: seq<Event>, busy: bool, after: bool)
    requires events != [] && InOrder(events, busy)
    requires after ==> BusyAfter(events[..1], busy)
    ensures InOrder(events[1..], after)
    ensures BusyAfter(events[1..], after) ==> BusyAfter(events, busy)
  {
    forall i | 0 <= i < |events| - 1 && !events[1..][i].Ended? ensures !BusyAfter(events[1..][..i], after) {
      var head := events[..i + 1];
      BusyHandled(head, busy);
      assert head[1..] == events[1..][..i] && head[..1] == events[..1];
      LessBusy(events[1..][..i]);
    }
    BusyHandled(events, busy);
    LessBusy(events[1..]);
  }

  lemma OrderRelaxed(events: seq<Event>, busy: bool, after: bool)
    requires InOrder(events, busy) && (after ==> busy)
    ensures InOrder(events, after)
    ensures BusyAfter(events, after) ==> BusyAfter(events, busy)
  {
    LessBusy(events);
    forall i | 0 <= i < |events| && !events[i].Ended? ensures !BusyAfter(events[..i], after) {
      LessBusy(events[..i]);
    }
  }

  lemma OrderAppended(events: seq<Event>, busy: bool, event: Event)
    requires InOrder(events, busy) && (event.Ended? || !BusyAfter(events, busy))
    ensures InOrder(events + [event], busy)
    ensures BusyAfter(events + [event], busy) == (event.Began? || (event.Idled? && BusyAfter(events, busy)))
  {
    var all := events + [event];
    assert all[..|events|] == events;
    forall i | 0 <= i < |all| && !all[i].Ended? ensures !BusyAfter(all[..i], busy) {
      assert all[..i] == events[..i];
      if i == |events| { assert events[..i] == events; }
    }
  }

  // ----- each step keeps it

  lemma SafeEnd(s: State, sent: bool)
    requires Safe(s)
    ensures Safe(EndActive(s, sent)) && EndActive(s, sent).active.None?
    ensures forall id :: id in EndActive(s, sent).all ==> !EndActive(s, sent).all[id].open
  {
  }

  lemma SafeBegin(s: State, peer: Peer, sent: bool)
    requires Safe(s) && s.active.None?
    requires Named(s)
    ensures Safe(Begin(s, peer, sent))
  {
  }

  lemma SessionsFrom(s: State, step: Step, peer: Peer)
    requires Named(s) && peer in Next(s, step).sessions
    ensures (peer in s.sessions && Next(s, step).sessions[peer] == s.sessions[peer])
         || (step.Register? && step.peer == peer && Next(s, step).sessions[peer] == step.id && step.id !in s.all)
  {
  }

  lemma PeersContinue(s: State, task: Task, id: nat)
    requires id in s.all
    ensures id in Continued(s, task).all && Continued(s, task).all[id].peer == s.all[id].peer
  {
  }

  lemma PeersHandled(s: State, event: Event, sent: bool, id: nat)
    requires id in s.all
    ensures id in Handled(s, event, sent).all && Handled(s, event, sent).all[id].peer == s.all[id].peer
  {
  }

  lemma PeersStay(s: State, step: Step, id: nat)
    requires id in s.all
    ensures id in Next(s, step).all && Next(s, step).all[id].peer == s.all[id].peer
  {
    match step
    case Continue(task) => PeersContinue(s.(tasks := s.tasks - multiset{task}), task, id);
    case Handle(sent) => if s.events != [] { PeersHandled(s, s.events[0], sent, id); }
    case _ =>
  }

  lemma NamedStays(s: State, step: Step)
    requires Named(s)
    ensures Named(Next(s, step))
  {
    var t := Next(s, step);
    forall peer | peer in t.sessions ensures t.sessions[peer] in t.all && t.all[t.sessions[peer]].peer == peer {
      SessionsFrom(s, step, peer);
      if peer in s.sessions && t.sessions[peer] == s.sessions[peer] { PeersStay(s, step, s.sessions[peer]); }
    }
  }

  /** A handler's clear comes when the active one is open: it forgets an activation it did not look at. */
  predicate Orphans(s: State, step: Step) {
    && step.Continue? && step.task in s.tasks
    && (step.task.EndedClears? || step.task.ClosedClears? || step.task.AllClears?)
    && s.active.Some? && s.active.value.id in s.all && s.all[s.active.value.id].open
  }

  lemma SafeContinue(s: State, task: Task)
    requires Safe(s) && task in s.tasks && !Orphans(s, Continue(task))
    ensures Safe(Next(s, Continue(task)))
  {
  }

  lemma SafeHandled(s: State, sent: bool)
    requires Inv(s) && s.events != []
    ensures Safe(Next(s, Handle(sent)))
  {
    assert s.events[0].Began? || s.events[0].Idled? ==> !BusyAfter(s.events[..0], s.active.Some?);
    match s.events[0]
    case Began(peer) => SafeBegin(s, peer, sent);
    case Ended => SafeEnd(s, sent);
    case Idled =>
  }

  lemma SafeHop(s: State, peer: Peer, left: bool, begun: bool)
    requires Safe(s) && Named(s)
    ensures Safe(HopTo(s, peer, left, begun))
  {
    if s.active.Some? {
      SafeEnd(s, left);
      assert Named(EndActive(s, left));
      SafeBegin(EndActive(s, left), peer, begun);
    }
  }

  lemma SafeTakeAll(s: State)
    requires Safe(s)
    ensures Safe(Next(s, TakeAll))
  {
    var t := Next(s, TakeAll);
    forall id | id in t.all ensures !t.all[id].open {
      assert s.all[id].open ==> s.Registered(id);
    }
  }

  lemma SafeRegister(s: State, peer: Peer, id: nat)
    requires Safe(s) && Named(s)
    ensures Safe(Next(s, Register(peer, id)))
  {
    var t := Next(s, Register(peer, id));
    forall other | other in t.all && t.all[other].open ensures IsActive(t, other) && t.Registered(other) && !t.all[other].closed {
      assert other in s.all && s.all[other].open && s.all[other].peer == t.all[other].peer;
    }
  }

  lemma SafeSessionEnds(s: State, step: Step)
    requires Safe(s) && (step.Close? || step.Expire? || step.LookEnded? || step.RemoveClosed?)
    ensures Safe(Next(s, step))
  {
  }

  lemma SafeStays(s: State, step: Step)
    requires Inv(s) && !Orphans(s, step)
    ensures Safe(Next(s, step))
  {
    match step
    case Handle(sent) => if s.events != [] { SafeHandled(s, sent); }
    case Hop(peer, left, begun) => SafeHop(s, peer, left, begun);
    case Continue(task) => if task in s.tasks { SafeContinue(s, task); }
    case TakeAll => SafeTakeAll(s);
    case Register(peer, id) => SafeRegister(s, peer, id);
    case Close(_) => SafeSessionEnds(s, step);
    case Expire(_) => SafeSessionEnds(s, step);
    case LookEnded(_) => SafeSessionEnds(s, step);
    case RemoveClosed(_) => SafeSessionEnds(s, step);
    case _ =>
  }

  /** Nothing names the activation it forgets. */
  lemma OrphanIsLost(s: State, step: Step)
    requires Orphans(s, step)
    ensures var t := Next(s, step);
      t.active.None? && s.active.value.id in t.all && t.all[s.active.value.id].open && !Safe(t)
  {
    var t := Next(s, step);
    assert t.all == s.all && !IsActive(t, s.active.value.id);
  }

  predicate OfRuntime(step: Step) {
    step.Handle? || step.RuntimeBegins? || step.RuntimeEnds? || step.RuntimeIdles?
  }

  /** Nothing becomes active from nothing, except where an event says input went out. */
  lemma ActiveFrom(s: State, step: Step)
    requires !OfRuntime(step)
    ensures var t := Next(s, step);
      t.events == s.events && t.runtime == s.runtime && (t.active.Some? ==> s.active.Some?)
  {
  }

  lemma ActiveHandled(s: State, sent: bool)
    requires s.events != []
    ensures var t := Next(s, Handle(sent));
      t.events == s.events[1..] && t.runtime == s.runtime
      && (t.active.Some? ==> BusyAfter(s.events[..1], s.active.Some?) || (s.events[0].Began? && s.active.Some?))
  {
    assert s.events[..1] == [s.events[0]] && s.events[..1][..0] == [];
  }

  lemma OrderStays(s: State, step: Step)
    requires Inv(s)
    ensures var t := Next(s, step);
      InOrder(t.events, t.active.Some?) && (t.runtime != Remote ==> !BusyAfter(t.events, t.active.Some?))
  {
    var t := Next(s, step);
    var (busy, after) := (s.active.Some?, t.active.Some?);
    if !OfRuntime(step) {
      ActiveFrom(s, step);
      OrderRelaxed(s.events, busy, after);
    } else if step.Handle? {
      if s.events != [] {
        ActiveHandled(s, step.sent);
        OrderHandled(s.events, busy, after);
      }
    } else if t != s {
      OrderAppended(s.events, busy, t.events[|s.events|]);
    }
  }

  /** No clear of the run forgets an open activation. */
  ghost predicate NoneOrphaned(steps: seq<Step>) {
    forall k :: 0 <= k < |steps| ==> !Orphans(Run(START, steps[..k]), steps[k])
  }

  lemma NoneOrphanedBefore(steps: seq<Step>, n: nat)
    requires NoneOrphaned(steps) && n <= |steps|
    ensures NoneOrphaned(steps[..n])
  {
    forall k | 0 <= k < n ensures !Orphans(Run(START, steps[..n][..k]), steps[..n][k]) {
      assert steps[..n][..k] == steps[..k];
    }
  }

  lemma InvStays(s: State, step: Step)
    requires Inv(s) && !Orphans(s, step)
    ensures Inv(Next(s, step))
  {
    NamedStays(s, step);
    SafeStays(s, step);
    OrderStays(s, step);
  }

  lemma {:induction false} InvHolds(steps: seq<Step>)
    requires NoneOrphaned(steps)
    ensures Inv(Run(START, steps))
  {
    if steps != [] {
      var last := |steps| - 1;
      assert !Orphans(Run(START, steps[..last]), steps[last]);
      NoneOrphanedBefore(steps, last);
      InvHolds(steps[..last]);
      InvStays(Run(START, steps[..last]), steps[last]);
    }
  }

  /** After every step of the run, each open activation is the active one, on its peer's own live session. */
  ghost predicate SafeThroughout(steps: seq<Step>) {
    forall n :: 0 <= n <= |steps| ==> Safe(Run(START, steps[..n]))
  }

  /**
   Hop safety over every interleaving: it holds throughout exactly when no
   handler clears the active one while that is open. The first that does
   leaves an open activation nothing names.
   */
  lemma SafeExactlyWhen(steps: seq<Step>)
    ensures SafeThroughout(steps) <==> NoneOrphaned(steps)
  {
    if NoneOrphaned(steps) {
      forall n | 0 <= n <= |steps| ensures Safe(Run(START, steps[..n])) {
        NoneOrphanedBefore(steps, n);
        InvHolds(steps[..n]);
      }
    } else {
      var k :| 0 <= k < |steps| && Orphans(Run(START, steps[..k]), steps[k]);
      OrphanIsLost(Run(START, steps[..k]), steps[k]);
      assert steps[..k + 1][..k] == steps[..k];
      assert !Safe(Run(START, steps[..k + 1]));
    }
  }

  /** So at most one session has an open activation, and it is the active one, on the session its peer has now. */
  lemma AtMostOneOpen(steps: seq<Step>, a: nat, b: nat)
    requires NoneOrphaned(steps)
    requires var s := Run(START, steps); a in s.all && b in s.all && s.all[a].open && s.all[b].open
    ensures var s := Run(START, steps);
      a == b && s.active == Some(Active(s.all[a].peer, a)) && s.Registered(a) && !s.all[a].closed
  {
    InvHolds(steps);
    assert IsActive(Run(START, steps), a) && IsActive(Run(START, steps), b);
  }

  /** When nothing is active, nothing is open: input that came back left no activation behind. */
  lemma NothingActiveNothingOpen(steps: seq<Step>, id: nat)
    requires NoneOrphaned(steps)
    requires var s := Run(START, steps); s.active.None? && id in s.all
    ensures !Run(START, steps).all[id].open
  {
    InvHolds(steps);
  }

  // ----- what the steps do get done

  /** The peer has a session that can still take an activation. */
  predicate Takes(s: State, peer: Peer, id: nat) {
    peer in s.sessions && s.sessions[peer] == id && id in s.all && !s.all[id].closed
  }

  /** Handling the event that input went to a peer opens an activation on the peer's session, if that can be sent. */
  lemma BeginOpens(s: State, peer: Peer, id: nat)
    requires s.events != [] && s.events[0] == Began(peer) && Takes(s, peer, id)
    ensures var t := Next(s, Handle(true));
      t.all[id].open && t.active == Some(Active(peer, id)) && t.events == s.events[1..]
  {
  }

  /** Ending leaves the active one's session; one that cannot be told is closed. */
  lemma EndLeavesOrCloses(s: State, id: nat, sent: bool)
    requires s.active.Some? && s.active.value.id == id && id in s.all && Takes(s, s.active.value.peer, id)
    ensures var t := EndActive(s, sent);
      && t.active.None? && !t.all[id].open
      && (t.all[id].closed <==> !sent)
  {
  }

  lemma HandledEnds(s: State, id: nat, sent: bool)
    requires s.events != [] && s.events[0] == Ended && s.active.Some? && s.active.value.id == id && id in s.all
    requires Takes(s, s.active.value.peer, id)
    ensures var t := Next(s, Handle(sent));
      t.active.None? && !t.all[id].open && (t.all[id].closed <==> !sent) && t.events == s.events[1..]
  {
    EndLeavesOrCloses(s, id, sent);
  }

  /** A hop ends the old activation and opens the new one; a session that cannot be told Leave is closed. */
  lemma HopMovesOn(s: State, from: nat, peer: Peer, to: nat, left: bool)
    requires s.runtime == Remote && s.active.Some? && s.active.value.id == from && from in s.all
    requires Takes(s, s.active.value.peer, from) && Takes(s, peer, to) && from != to
    ensures var t := Next(s, Hop(peer, left, true));
      && t.active == Some(Active(peer, to)) && t.all[to].open
      && !t.all[from].open && (t.all[from].closed <==> !left)
  {
    EndLeavesOrCloses(s, from, left);
  }

  /** When the new one cannot begin, nothing is active. */
  lemma HopThatCannotBegin(s: State, from: nat, peer: Peer, left: bool)
    requires s.runtime == Remote && s.active.Some? && s.active.value.id == from && from in s.all
    requires Takes(s, s.active.value.peer, from) && peer in s.sessions
    ensures var t := Next(s, Hop(peer, left, false));
      t.active.None? && !t.all[from].open
  {
    EndLeavesOrCloses(s, from, left);
  }

  /** Without input out, an active session or a session of that peer, a hop is refused and nothing changes. */
  lemma HopRefused(s: State, peer: Peer, left: bool, begun: bool)
    requires s.runtime != Remote || s.active.None? || peer !in s.sessions
    ensures Next(s, Hop(peer, left, begun)) == s
  {
  }

  /** A new session of a peer closes the one it had. */
  lemma RegisterReplaces(s: State, peer: Peer, id: nat)
    requires Named(s) && id !in s.all
    ensures var t := Next(s, Register(peer, id));
      && t.Registered(id) && !t.all[id].open && !t.all[id].closed
      && (peer in s.sessions ==> t.all[s.sessions[peer]].closed)
  {
  }

  /** Nothing in between: the handler of OutboundEnded leaves nothing active and closes the session. */
  lemma EndedIsHandled(s: State, id: nat)
    requires IsActive(s, id) && s.Registered(id) && s.all[id].told
    ensures var looked := Next(s, LookEnded(id));
      var cleared := Next(looked, Continue(EndedClears(id)));
      var closed := Next(cleared, Continue(EndedCloses(id)));
      closed.active.None? && closed.all[id].closed && closed.tasks == s.tasks
  {
    var looked := Next(s, LookEnded(id));
    assert looked.tasks - multiset{EndedClears(id)} == s.tasks;
    var cleared := Next(looked, Continue(EndedClears(id)));
    assert cleared.tasks - multiset{EndedCloses(id)} == s.tasks;
  }

  /** Nothing in between: the handler of Closed takes the session out and leaves it active nowhere. */
  lemma ClosedIsHandled(s: State, id: nat)
    requires id in s.all && s.all[id].closed && s.Registered(id)
    ensures var removed := Next(s, RemoveClosed(id));
      var looked := Next(removed, Continue(ClosedLooks(id)));
      var done := Next(looked, Continue(ClosedClears(id)));
      s.all[id].peer !in removed.sessions && !IsActive(done, id)
  {
  }

  /** close_all closes every registered session and then leaves nothing active. */
  lemma AllAreClosed(s: State)
    ensures var taken := Next(s, TakeAll);
      && taken.sessions == map[] && (forall id :: s.Registered(id) ==> taken.all[id].closed)
      && AllClears in taken.tasks && Next(taken, Continue(AllClears)).active.None?
  {
  }

  // ----- it happens

  lemma Then(steps: seq<Step>, s: State, step: Step, t: State)
    requires Run(START, steps) == s && Next(s, step) == t
    ensures Run(START, steps + [step]) == t
  {
    assert (steps + [step])[..|steps|] == steps;
  }

  const A: Peer := 0
  const B: Peer := 1

  function With(a: Session, b: Session, active: Option<Active>, phase: Phase, events: seq<Event>, tasks: multiset<Task>): State {
    State(map[A := 1, B := 2], map[1 := a, 2 := b], active, phase, events, tasks)
  }

  function Idling(peer: Peer): Session { Session(peer, false, false, false) }
  function Opened(peer: Peer): Session { Session(peer, true, false, false) }
  function GaveUp(peer: Peer): Session { Session(peer, false, false, true) }

  lemma TwoSessions() returns (steps: seq<Step>)
    ensures steps == [Register(A, 1), Register(B, 2)]
    ensures Run(START, steps) == With(Idling(A), Idling(B), None, Idle, [], multiset{})
  {
    var one := State(map[A := 1], map[1 := Idling(A)], None, Idle, [], multiset{});
    steps := [];
    Then(steps, START, Register(A, 1), one);
    steps := steps + [Register(A, 1)];
    Then(steps, one, Register(B, 2), With(Idling(A), Idling(B), None, Idle, [], multiset{}));
    steps := steps + [Register(B, 2)];
  }

  lemma BeginsAtA(events: seq<Event>, tasks: multiset<Task>)
    ensures Begin(With(Idling(A), Idling(B), None, Remote, events, tasks), A, true) ==
      With(Opened(A), Idling(B), Some(Active(A, 1)), Remote, events, tasks)
  {
  }

  lemma HandlesBegin(tasks: multiset<Task>)
    ensures Next(With(Idling(A), Idling(B), None, Remote, [Began(A)], tasks), Handle(true)) ==
      With(Opened(A), Idling(B), Some(Active(A, 1)), Remote, [], tasks)
  {
    var events := [Began(A)];
    BeginsAtA(events, tasks);
    assert events[0] == Began(A) && events[1..] == [];
  }

  lemma InputGoesToA() returns (steps: seq<Step>)
    ensures steps == [Register(A, 1), Register(B, 2), RuntimeBegins(A), Handle(true)]
    ensures Run(START, steps) == With(Opened(A), Idling(B), Some(Active(A, 1)), Remote, [], multiset{})
  {
    steps := TwoSessions();
    var asked := With(Idling(A), Idling(B), None, Remote, [Began(A)], multiset{});
    Then(steps, With(Idling(A), Idling(B), None, Idle, [], multiset{}), RuntimeBegins(A), asked);
    steps := steps + [RuntimeBegins(A)];
    HandlesBegin(multiset{});
    Then(steps, asked, Handle(true), With(Opened(A), Idling(B), Some(Active(A, 1)), Remote, [], multiset{}));
    steps := steps + [Handle(true)];
  }

  /** Input went to A, its session gave the activation up, and the handler of that looked at the active one. */
  lemma LookedAtA() returns (steps: seq<Step>)
    ensures steps == [Register(A, 1), Register(B, 2), RuntimeBegins(A), Handle(true), Expire(1), LookEnded(1)]
    ensures Run(START, steps) == With(GaveUp(A), Idling(B), Some(Active(A, 1)), Remote, [], multiset{EndedClears(1)})
  {
    steps := InputGoesToA();
    var expired := With(GaveUp(A), Idling(B), Some(Active(A, 1)), Remote, [], multiset{});
    Then(steps, With(Opened(A), Idling(B), Some(Active(A, 1)), Remote, [], multiset{}), Expire(1), expired);
    steps := steps + [Expire(1)];
    Then(steps, expired, LookEnded(1), With(GaveUp(A), Idling(B), Some(Active(A, 1)), Remote, [], multiset{EndedClears(1)}));
    steps := steps + [LookEnded(1)];
  }

  lemma HopsToB(tasks: multiset<Task>)
    ensures HopTo(With(GaveUp(A), Idling(B), Some(Active(A, 1)), Remote, [], tasks), B, true, true) ==
      With(GaveUp(A), Opened(B), Some(Active(B, 2)), Remote, [], tasks)
  {
    var s := With(GaveUp(A), Idling(B), Some(Active(A, 1)), Remote, [], tasks);
    assert EndActive(s, true) == With(GaveUp(A), Idling(B), None, Remote, [], tasks);
  }

  lemma HandlerGoesOn()
    ensures var looked := With(GaveUp(A), Opened(B), Some(Active(B, 2)), Remote, [], multiset{EndedClears(1)});
      var cleared := With(GaveUp(A), Opened(B), None, Remote, [], multiset{EndedCloses(1)});
      && Next(looked, Continue(EndedClears(1))) == cleared
      && Next(cleared, Continue(EndedCloses(1))) == With(GaveUp(A).(closed := true), Opened(B), None, Remote, [], multiset{})
  {
  }

  /** A hop to B before the handler goes on: it ends with B's activation open and nothing active. */
  lemma HopBetweenTheLocks() returns (steps: seq<Step>)
    ensures steps == [Register(A, 1), Register(B, 2), RuntimeBegins(A), Handle(true), Expire(1), LookEnded(1),
                      Hop(B, true, true), Continue(EndedClears(1)), Continue(EndedCloses(1))]
    ensures var s := Run(START, steps); s.active.None? && s.tasks == multiset{} && 2 in s.all && s.all[2].open
  {
    steps := LookedAtA();
    HopsToB(multiset{EndedClears(1)});
    HandlerGoesOn();
    var hopped := With(GaveUp(A), Opened(B), Some(Active(B, 2)), Remote, [], multiset{EndedClears(1)});
    var cleared := With(GaveUp(A), Opened(B), None, Remote, [], multiset{EndedCloses(1)});
    Then(steps, With(GaveUp(A), Idling(B), Some(Active(A, 1)), Remote, [], multiset{EndedClears(1)}), Hop(B, true, true), hopped);
    steps := steps + [Hop(B, true, true)];
    Then(steps, hopped, Continue(EndedClears(1)), cleared);
    steps := steps + [Continue(EndedClears(1))];
    Then(steps, cleared, Continue(EndedCloses(1)), With(GaveUp(A).(closed := true), Opened(B), None, Remote, [], multiset{}));
    steps := steps + [Continue(EndedCloses(1))];
  }
}
