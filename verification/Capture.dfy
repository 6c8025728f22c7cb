/**
 Merging what several devices hold into one stream of presses and releases
 (CaptureMerger in src/session.rs).
 */
module Capture {

  datatype Member = Key(usage: nat) | Button(button: nat)
  datatype KeyState = Pressed | Released | Repeat
  datatype Transition = Transition(member: Member, state: KeyState)
  datatype Frame = Frame(device: string, transitions: seq<Transition>)

  // ----- what one device holds, and what a stream of presses and releases leaves held

  function AfterTransition(held: set<Member>, t: Transition): set<Member> {
    match t.state
    case Pressed => held + {t.member}
    case Released => held - {t.member}
    case Repeat => held
  }

  function AfterTransitions(held: set<Member>, ts: seq<Transition>): set<Member> {
    if ts == [] then held else AfterTransition(AfterTransitions(held, ts[..|ts| - 1]), ts[|ts| - 1])
  }

  /** What `device` holds after its own frames, whatever the others did. */
  function DeviceHeld(frames: seq<Frame>, device: string): set<Member> {
    if frames == [] then {}
    else
      var (before, last) := (DeviceHeld(frames[..|frames| - 1], device), frames[|frames| - 1]);
      if last.device == device then AfterTransitions(before, last.transitions) else before
  }

  function Replay(held: set<Member>, out: seq<(Member, bool)>): set<Member> {
    if out == [] then held
    else
      var (before, last) := (Replay(held, out[..|out| - 1]), out[|out| - 1]);
      if last.1 then before + {last.0} else before - {last.0}
  }

  /** Every press is of something up and every release of something down. */
  predicate Strict(held: set<Member>, out: seq<(Member, bool)>) {
    out == [] ||
    var (before, last) := (out[..|out| - 1], out[|out| - 1]);
    Strict(held, before) && (last.1 <==> last.0 !in Replay(held, before))
  }

  function Count(out: seq<(Member, bool)>, member: Member): nat {
    if out == [] then 0
    else Count(out[..|out| - 1], member) + if out[|out| - 1].0 == member then 1 else 0
  }

  /** In a strict stream from nothing held, a member is held after an odd number of its outputs. */
  lemma {:induction false} HeldByParity(out: seq<(Member, bool)>, member: Member)
    requires Strict({}, out)
    ensures member in Replay({}, out) <==> Count(out, member) % 2 == 1
  {
    if out != [] {
      HeldByParity(out[..|out| - 1], member);
    }
  }

  lemma {:induction false} StrictPrefix(held: set<Member>, out: seq<(Member, bool)>, i: nat)
    requires Strict(held, out) && i <= |out|
    ensures Strict(held, out[..i])
    decreases |out|
  {
    if i == |out| {
      assert out[..i] == out;
    } else {
      assert out[..|out| - 1][..i] == out[..i];
      StrictPrefix(held, out[..|out| - 1], i);
    }
  }

  /** So each member's outputs alternate press and release, starting with a press. */
  lemma StrictAlternates(out: seq<(Member, bool)>, i: nat)
    requires Strict({}, out) && i < |out|
    ensures out[i].1 <==> Count(out[..i], out[i].0) % 2 == 0
  {
    StrictPrefix({}, out, i);
    StrictPrefix({}, out, i + 1);
    assert out[..i + 1][..i] == out[..i];
    HeldByParity(out[..i], out[i].0);
  }

  lemma {:induction false} ReplayAppend(held: set<Member>, a: seq<(Member, bool)>, b: seq<(Member, bool)>)
    ensures Replay(held, a + b) == Replay(Replay(held, a), b)
  {
    if b == [] {
      assert a + b == a;
    } else {
      ReplayAppend(held, a, b[..|b| - 1]);
      assert (a + b)[..|a + b| - 1] == a + b[..|b| - 1];
    }
  }

  lemma {:induction false} StrictAppend(held: set<Member>, a: seq<(Member, bool)>, b: seq<(Member, bool)>)
    requires Strict(held, a) && Strict(Replay(held, a), b)
    ensures Strict(held, a + b)
  {
    if b == [] {
      assert a + b == a;
    } else {
      StrictAppend(held, a, b[..|b| - 1]);
      ReplayAppend(held, a, b[..|b| - 1]);
      assert (a + b)[..|a + b| - 1] == a + b[..|b| - 1];
    }
  }

  // ----- the union of the devices

  function HeldOf(devices: map<string, set<Member>>, device: string): set<Member> {
    if device in devices then devices[device] else {}
  }

  predicate AnyHolds(devices: map<string, set<Member>>, member: Member) {
    exists d :: d in devices && member in devices[d]
  }

  function Union(devices: map<string, set<Member>>): (r: set<Member>)
    ensures forall m :: m in r <==> AnyHolds(devices, m)
  {
    set d, m | d in devices && m in devices[d] :: m
  }

  /** One device's press or release changes the union by that member or not at all. */
  lemma UnionStep(devices: map<string, set<Member>>, device: string, t: Transition)
    requires !t.state.Repeat?
    ensures var after := devices[device := AfterTransition(HeldOf(devices, device), t)];
      && AnyHolds(after, t.member) == (t.state.Pressed? || exists d :: d in devices && d != device && t.member in devices[d])
      && (forall m :: m != t.member ==> (AnyHolds(after, m) <==> AnyHolds(devices, m)))
  {
    var after := devices[device := AfterTransition(HeldOf(devices, device), t)];
    if t.state.Pressed? { assert t.member in after[device]; }
    forall d | d in devices && d != device ensures after[d] == devices[d] {}
    forall m | m != t.member ensures AnyHolds(after, m) <==> AnyHolds(devices, m) {
      if AnyHolds(after, m) {
        var d :| d in after && m in after[d];
        assert d in devices && m in devices[d];
      }
      if AnyHolds(devices, m) {
        var d :| d in devices && m in devices[d];
        assert m in after[d];
      }
    }
  }

  lemma UnionSays(devices: map<string, set<Member>>, device: string, t: Transition, before: bool, after: bool)
    requires !t.state.Repeat? && before == AnyHolds(devices, t.member)
    requires after == AnyHolds(devices[device := AfterTransition(HeldOf(devices, device), t)], t.member)
    ensures var next := devices[device := AfterTransition(HeldOf(devices, device), t)];
      && (before == after ==> Union(next) == Union(devices))
      && (before != after ==> after == t.state.Pressed?)
      && (before != after ==> Union(next) == if t.state.Pressed? then Union(devices) + {t.member} else Union(devices) - {t.member})
  {
    UnionStep(devices, device, t);
    if before != after && t.state.Released? {
      assert before;
    }
  }

  /** Dropping devices that hold nothing changes nothing. */
  lemma RetainHolders(devices: map<string, set<Member>>)
    ensures var kept := map d | d in devices && devices[d] != {} :: devices[d];
      Union(kept) == Union(devices) && forall d :: HeldOf(kept, d) == HeldOf(devices, d)
  {
    var kept := map d | d in devices && devices[d] != {} :: devices[d];
    forall m | AnyHolds(devices, m) ensures AnyHolds(kept, m) {
      var d :| d in devices && m in devices[d];
      assert m in kept[d];
    }
  }

  /** A press of what the device holds, or a release of what it does not, is no news. */
  lemma UnchangedSaysNothing(devices: map<string, set<Member>>, device: string, t: Transition)
    requires !t.state.Repeat? && (t.member in HeldOf(devices, device)) == t.state.Pressed?
    ensures AfterTransition(HeldOf(devices, device), t) == HeldOf(devices, device)
    ensures Union(devices[device := HeldOf(devices, device)]) == Union(devices)
  {
    var after := devices[device := HeldOf(devices, device)];
    forall m ensures AnyHolds(after, m) <==> AnyHolds(devices, m) {
      if AnyHolds(devices, m) {
        var d :| d in devices && m in devices[d];
        assert m in after[d];
      }
    }
  }

  lemma Emit(held: set<Member>, out: seq<(Member, bool)>, member: Member, pressed: bool)
    requires Strict(held, out) && (pressed <==> member !in Replay(held, out))
    ensures Strict(held, out + [(member, pressed)])
    ensures Replay(held, out + [(member, pressed)]) ==
      if pressed then Replay(held, out) + {member} else Replay(held, out) - {member}
  {
    assert (out + [(member, pressed)])[..|out|] == out;
  }

  /** One frame of one device: what it says replays to the union of all of them. */
  method MergeTransitions(devices: map<string, set<Member>>, device: string, transitions: seq<Transition>)
    returns (aggregate: seq<(Member, bool)>, after: map<string, set<Member>>)
    ensures Strict(Union(devices), aggregate) && Replay(Union(devices), aggregate) == Union(after)
    ensures HeldOf(after, device) == AfterTransitions(HeldOf(devices, device), transitions)
    ensures forall d :: d != device ==> HeldOf(after, d) == HeldOf(devices, d)
  {
    aggregate, after := [], devices;
    for i := 0 to |transitions|
      invariant Strict(Union(devices), aggregate) && Replay(Union(devices), aggregate) == Union(after)
      invariant HeldOf(after, device) == AfterTransitions(HeldOf(devices, device), transitions[..i])
      invariant forall d :: d != device ==> HeldOf(after, d) == HeldOf(devices, d)
    {
      var t := transitions[i];
      assert transitions[..i + 1][..i] == transitions[..i];
      if t.state.Repeat? {
        continue;
      }
      var held := HeldOf(after, device);
      if (t.member in held) == t.state.Pressed? {
        UnchangedSaysNothing(after, device, t);
        after := after[device := held];
        continue;
      }
      var heldBefore := AnyHolds(after, t.member);
      var next := after[device := AfterTransition(held, t)];
      var heldAfter := AnyHolds(next, t.member);
      UnionSays(after, device, t, heldBefore, heldAfter);
      if heldBefore != heldAfter {
        Emit(Union(devices), aggregate, t.member, t.state.Pressed?);
        aggregate := aggregate + [(t.member, t.state.Pressed?)];
      }
      after := next;
    }
    assert transitions[..|transitions|] == transitions;
  }

  /** Each device holds what its own frames say, and the stream so far holds their union. */
  ghost predicate Consistent(devices: map<string, set<Member>>, frames: seq<Frame>, emitted: seq<(Member, bool)>) {
    && (forall d :: HeldOf(devices, d) == DeviceHeld(frames, d))
    && Strict({}, emitted) && Replay({}, emitted) == Union(devices)
  }

  lemma ConsistentNext(devices: map<string, set<Member>>, frames: seq<Frame>, emitted: seq<(Member, bool)>,
                       frame: Frame, aggregate: seq<(Member, bool)>, after: map<string, set<Member>>)
    requires Consistent(devices, frames, emitted)
    requires Strict(Union(devices), aggregate) && Replay(Union(devices), aggregate) == Union(after)
    requires HeldOf(after, frame.device) == AfterTransitions(HeldOf(devices, frame.device), frame.transitions)
    requires forall d :: d != frame.device ==> HeldOf(after, d) == HeldOf(devices, d)
    ensures Consistent(after, frames + [frame], emitted + aggregate)
  {
    StrictAppend({}, emitted, aggregate);
    ReplayAppend({}, emitted, aggregate);
    assert (frames + [frame])[..|frames|] == frames;
    forall d ensures HeldOf(after, d) == DeviceHeld(frames + [frame], d) {
      assert HeldOf(devices, d) == DeviceHeld(frames, d);
    }
  }

  /** What the stream has left down is what some device holds. */
  lemma EmittedIsUnion(devices: map<string, set<Member>>, frames: seq<Frame>, emitted: seq<(Member, bool)>, member: Member)
    requires Consistent(devices, frames, emitted)
    ensures member in Replay({}, emitted) <==> exists d :: member in DeviceHeld(frames, d)
  {
    if AnyHolds(devices, member) {
      var d :| d in devices && member in devices[d];
      assert member in HeldOf(devices, d);
      assert member in DeviceHeld(frames, d);
    }
    if exists d :: member in DeviceHeld(frames, d) {
      var d :| member in DeviceHeld(frames, d);
      assert member in HeldOf(devices, d);
      assert d in devices && member in devices[d];
      assert member in Union(devices);
    }
  }

  /** `frames` and `emitted` are what it was given and gave since it was last cleared. */
  class CaptureMerger {
    var heldByDevice: map<string, set<Member>>
    ghost var frames: seq<Frame>
    ghost var emitted: seq<(Member, bool)>

    ghost predicate Valid()
      reads this
    {
      Consistent(heldByDevice, frames, emitted) && forall d :: d in heldByDevice ==> heldByDevice[d] != {}
    }

    constructor ()
      ensures Valid() && frames == [] && emitted == []
    {
      heldByDevice, frames, emitted := map[], [], [];
    }

    method Merge(frame: Frame) returns (aggregate: seq<(Member, bool)>)
      requires Valid()
      modifies this
      ensures Valid() && frames == old(frames) + [frame] && emitted == old(emitted) + aggregate
    {
      var after;
      aggregate, after := MergeTransitions(heldByDevice, frame.device, frame.transitions);
      ConsistentNext(heldByDevice, frames, emitted, frame, aggregate, after);
      RetainHolders(after);
      heldByDevice := map d | d in after && after[d] != {} :: after[d];
      frames, emitted := frames + [frame], emitted + aggregate;
    }

    method Clear()
      modifies this
      ensures Valid() && frames == [] && emitted == []
    {
      heldByDevice, frames, emitted := map[], [], [];
    }
  }
}
