/** The extension itself, and what every one of its callbacks keeps. */
module HandoffShell {
  import opened Wrappers
  import opened EdgeGeometry
  import opened Handoff
  import opened HandoffProofs

  /** `trace` and `recorded` only remember. */
  class Shell {
    var lease: Option<Lease>
    var ways: seq<WayOut>
    var outbound: seq<Barrier>
    var edges: seq<Exit>
    var pause: int
    var sent: seq<Answer>
    var leases: nat
    var asked: nat
    ghost var recorded: seq<Record>
    ghost var trace: seq<Step>

    ghost function View(): State
      reads this
    {
      State(lease, ways, outbound, edges, pause, sent, leases, asked, recorded)
    }

    /** It is what the callbacks so far make of a fresh one, so whatever holds of every run holds of it. */
    ghost predicate Valid()
      reads this
    {
      View() == Run(START, trace)
    }

    constructor ()
      ensures Valid() && trace == []
    {
      lease, ways, outbound, edges, pause, sent := None, [], [], [], 0, [];
      leases, asked, recorded, trace := 0, 0, [], [];
    }

    /** One more callback ran. */
    ghost method Did(step: Step)
      requires View() == Next(Run(START, trace), step)
      modifies this`trace
      ensures Valid() && trace == old(trace) + [step]
    {
      ghost var (now, all) := (View(), trace + [step]);
      assert now == Run(START, all) by { RunThen(START, trace, step); }
      trace := all;
      assert View() == now;
    }

    /** Every poll of the lease hears `status`. */
    method AnswerAll(id: nat, polls: seq<nat>, status: Status)
      modifies this`sent
      ensures sent == old(sent) + Answers(id, polls, status)
    {
      for i := 0 to |polls|
        invariant sent == old(sent) + Answers(id, polls[..i], status)
      {
        AnswersMore(id, polls, status, i);
        sent := sent + [Answer(id, polls[i], status)];
      }
      assert polls[..|polls|] == polls;
    }

    method PlaceEdges(desk: Desk)
      modifies this`outbound
      ensures View() == Placed(old(View()), desk)
    {
      var up := [];
      if lease.None? && desk.monitors != [] && desk.barriers {
        for i := 0 to |edges|
          invariant up == OutboundFor(edges[..i], desk)
        {
          assert edges[..i + 1][..i] == edges[..i];
          up := up + OwnBarriers(edges[i], desk);
        }
        assert edges[..|edges|] == edges;
      }
      outbound := up;
    }

    method Clear(desk: Desk)
      modifies this`lease, this`ways, this`sent, this`outbound
      ensures View() == Cleared(old(View()), desk)
    {
      var leased := lease.Some?;
      if leased {
        AnswerAll(lease.value.id, lease.value.polls, Ended);
      }
      ways, lease := [], None;
      if leased {
        PlaceEdges(desk);
      }
    }

    method ClearIfOver(now: int, desk: Desk)
      modifies this`lease, this`ways, this`sent, this`outbound
      ensures View() == Expired(old(View()), now, desk)
    {
      if lease.Some? && now - lease.value.renewed >= LEASE_US {
        Clear(desk);
      }
    }

    method SetEdges(edges: seq<Exit>, pause: int, desk: Desk)
      requires Valid()
      modifies this
      ensures Valid() && trace == old(trace) + [Step.SetEdges(edges, pause, desk)] && Keeps(View(), trace)
      ensures lease == old(lease) && ways == old(ways)
      ensures this.edges == if AllValid(edges) && 0 <= pause <= MAX_PAUSE then edges else old(this.edges)
    {
      if AllValid(edges) && 0 <= pause <= MAX_PAUSE && (edges != this.edges || pause != this.pause) {
        this.edges, this.pause := edges, pause;
        PlaceEdges(desk);
      }
      Did(Step.SetEdges(edges, pause, desk));
      EveryRunKeeps(trace);
    }

    method ReadDisplays(desk: Desk)
      requires Valid()
      modifies this
      ensures Valid() && trace == old(trace) + [Step.ReadDisplays(desk)] && Keeps(View(), trace)
      ensures lease == old(lease) && ways == old(ways) && edges == old(edges)
    {
      PlaceEdges(desk);
      Did(Step.ReadDisplays(desk));
      EveryRunKeeps(trace);
    }

    method ChangeMonitors()
      requires Valid()
      modifies this
      ensures Valid() && trace == old(trace) + [Step.ChangeMonitors] && Keeps(View(), trace)
      ensures lease.None? && ways == [] && outbound == [] && edges == old(edges)
    {
      Clear(NOWHERE);
      PlaceEdges(NOWHERE);
      Did(Step.ChangeMonitors);
      EveryRunKeeps(trace);
    }

    method LoseAgent()
      requires Valid()
      modifies this
      ensures Valid() && trace == old(trace) + [Step.LoseAgent] && Keeps(View(), trace)
      ensures edges == [] && outbound == [] && lease == old(lease) && ways == old(ways)
    {
      edges := [];
      PlaceEdges(NOWHERE);
      Did(Step.LoseAgent);
      EveryRunKeeps(trace);
    }

    method Disable()
      requires Valid()
      modifies this
      ensures Valid() && trace == old(trace) + [Step.Disable] && Keeps(View(), trace)
      ensures lease.None? && ways == [] && outbound == [] && edges == []
    {
      edges := [];
      Clear(NOWHERE);
      PlaceEdges(NOWHERE);
      Did(Step.Disable);
      EveryRunKeeps(trace);
    }

    method Timer(now: int, desk: Desk)
      requires Valid()
      modifies this
      ensures Valid() && trace == old(trace) + [Step.Timer(now, desk)] && Keeps(View(), trace)
      ensures lease.Some? ==> now - lease.value.renewed < 2_000_000
      ensures old(lease).Some? && now - old(lease).value.renewed < 2_000_000 ==> View() == old(View())
    {
      ClearIfOver(now, desk);
      Did(Step.Timer(now, desk));
      EveryRunKeeps(trace);
    }

    /** This computer's own barriers come down before the pointer is moved in. */
    method Prepare(r: Request, now: int, desk: Desk)
      requires Valid()
      modifies this
      ensures Valid() && trace == old(trace) + [Step.Prepare(r, now, desk)] && Keeps(View(), trace)
      ensures leases > old(leases) ==> lease.Some? && lease.value.token == r.token && outbound == [] && ways == []
    {
      if desk.monitors != [] && r.token > 0 {
        ClearIfOver(now, desk);
        TakeLease(r, now, desk);
      }
      Did(Step.Prepare(r, now, desk));
      EveryRunKeeps(trace);
    }

    method TakeLease(r: Request, now: int, desk: Desk)
      modifies this`lease, this`leases, this`outbound
      ensures View() == Prepared(old(View()), r, now, desk)
    {
      var entry := EntryFor(r, desk);
      if lease.Some? || !entry.At? {
        return;
      }
      lease := Some(Lease(leases, r.token, now, r.exits, Some(Warp(entry.x, entry.y, now + WARP_US)), None, false, []));
      leases := leases + 1;
      PlaceEdges(desk);
    }

    method PlaceWays(id: nat, exits: seq<Exit>, desk: Desk)
      modifies this`ways
      ensures ways == old(ways) + WaysFor(id, exits, desk)
    {
      var up := [];
      for i := 0 to |exits|
        invariant up == WaysFor(id, exits[..i], desk)
      {
        assert exits[..i + 1][..i] == exits[..i];
        up := up + WaysOn(id, i, ExitBarriers(exits[i], desk));
      }
      assert exits[..|exits|] == exits;
      ways := ways + up;
    }

    method Arrive(id: nat, x: int, y: int, now: int, desk: Desk)
      requires Valid()
      modifies this
      ensures Valid() && trace == old(trace) + [Step.Arrive(id, x, y, now, desk)] && Keeps(View(), trace)
      ensures old(lease).None? || old(lease).value.id != id ==> View() == old(View())
      ensures |ways| > |old(ways)| ==> lease.Some? && lease.value.id == id && lease.value.warp.None?
    {
      if lease.Some? && lease.value.id == id && lease.value.warp.Some? {
        var warp := lease.value.warp.value;
        if desk.monitors == [] {
          Clear(desk);
        } else if Near(x, warp.x) && Near(y, warp.y) {
          PlaceWays(id, lease.value.exits, desk);
          lease := Some(lease.value.(warp := None));
        } else if now >= warp.deadline {
          Clear(desk);
        }
      }
      Did(Step.Arrive(id, x, y, now, desk));
      EveryRunKeeps(trace);
    }

    /** The pointer is pushed against an exit barrier. */
    method Push(way: nat, axis: real)
      requires Valid()
      modifies this
      ensures Valid() && trace == old(trace) + [Step.Push(way, axis)] && Keeps(View(), trace)
      ensures |recorded| <= |old(recorded)| + 1 && ways == old(ways)
      ensures recorded != old(recorded) ==>
        way < |ways| && lease.Some? && lease.value.exited == Some(Exited(ways[way].index, PushedAt(ways[way], axis)))
    {
      if way < |ways| && lease.Some? && lease.value.id == ways[way].lease && lease.value.exited.None? {
        var (held, position) := (lease.value, PushedAt(ways[way], axis));
        var exited := Exited(ways[way].index, position);
        recorded := recorded + [Record(ways[way], position)];
        AnswerAll(held.id, held.polls, exited);
        lease := Some(held.(exited := Some(exited), delivered := held.polls != [], polls := []));
      }
      Did(Step.Push(way, axis));
      EveryRunKeeps(trace);
    }

    /** Refused without the lease of that token; told at once an exit no poll heard of; else it waits. */
    method Poll(token: int, now: int, desk: Desk) returns (reply: Reply)
      requires Valid()
      modifies this
      ensures Valid() && trace == old(trace) + [Step.Poll(token, now, desk)] && Keeps(View(), trace)
      ensures reply.Refused? <==> desk.monitors == [] || token <= 0 || !Holds(old(View()), token) || Over(old(View()), now)
      ensures reply.Told? <==> !reply.Refused? && Pending(old(lease).value)
      ensures reply.Told? ==> old(lease).value.exited == Some(reply.status)
      ensures !reply.Refused? ==> lease.Some? && lease.value.renewed == now && lease.value.id == old(lease).value.id
      ensures reply.Waits? ==> lease.Some? && old(asked) in lease.value.polls
    {
      reply := Refused;
      if desk.monitors != [] && token > 0 {
        ClearIfOver(now, desk);
        if lease.Some? && lease.value.token == token {
          reply := Answered(lease.value.(renewed := now));
        }
      }
      Did(Step.Poll(token, now, desk));
      EveryRunKeeps(trace);
    }

    method Answered(held: Lease) returns (reply: Reply)
      modifies this`lease, this`sent, this`asked
      ensures View() == Polled(old(View()), held)
      ensures reply == if held.exited.Some? && !held.delivered then Told(held.exited.value) else Waits
    {
      if held.exited.Some? && !held.delivered {
        sent := sent + [Answer(held.id, asked, held.exited.value)];
        lease := Some(held.(delivered := true));
        reply := Told(held.exited.value);
      } else {
        lease := Some(held.(exited := None, polls := held.polls + [asked]));
        reply := Waits;
      }
      asked := asked + 1;
    }

    method HoldOver(poll: nat)
      requires Valid()
      modifies this
      ensures Valid() && trace == old(trace) + [Step.HoldOver(poll)] && Keeps(View(), trace)
      ensures poll in Waiting(old(View())) ==>
        lease.Some? && sent == old(sent) + [Answer(lease.value.id, poll, Active)] && poll !in Waiting(View())
      ensures poll !in Waiting(old(View())) ==> View() == old(View())
    {
      EveryRunKeeps(trace);
      if lease.Some? && poll in lease.value.polls {
        DroppedIsTheRest(lease.value.polls, poll);
        sent := sent + [Answer(lease.value.id, poll, Active)];
        lease := Some(lease.value.(polls := Dropped(lease.value.polls, poll)));
      }
      Did(Step.HoldOver(poll));
      EveryRunKeeps(trace);
    }

    method Finish(token: int, now: int, desk: Desk)
      requires Valid()
      modifies this
      ensures Valid() && trace == old(trace) + [Step.Finish(token, now, desk)] && Keeps(View(), trace)
      ensures desk.monitors != [] && token > 0 ==> !Holds(View(), token)
    {
      if desk.monitors != [] && token > 0 {
        ClearIfOver(now, desk);
        if lease.Some? && lease.value.token == token {
          Clear(desk);
        }
      }
      Did(Step.Finish(token, now, desk));
      EveryRunKeeps(trace);
    }
  }
}
