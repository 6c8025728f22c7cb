/**
 The one-shot window in which a fresh install takes a computer by itself
 (PairingWindow in src/pairing_window.rs), with its file, restarts and saves
 that fail and leave either the old or the new text. How many computers are
 trusted is part of the state: the configuration outlives a restart too, and
 open looks at it (src/daemon/arrange.rs).
 */
module PairingWindow {
  import opened Wrappers
  import opened Neighbors

  const OPEN_FOR := 600_000
  const HOLD_OFF := 5_000

  datatype Reason = HadPeers | Accepted | Expired | Rival | Restarted | Failed

  datatype Phase = Never | Eligible | Open(until: int) | Closed(reason: Reason)

  /** What the state file says; `Unknown` is any text `load` does not know. */
  datatype Saved = Absent | SaysEligible | SaysOpen | SaysClosed(reason: Option<Reason>) | Unknown

  /** How a save ends: a failed one may have replaced the text all the same. */
  datatype Save = Done | FailedOld | FailedNew

  datatype Holding = Holding(stranger: Stranger, since: int)

  datatype State = State(disk: Saved, marked: bool, phase: Phase, holding: Option<Holding>, opens: nat, peers: nat)

  datatype Step =
    | MarkEligible(save: Save)                  // setup, once
    | Load(readable: bool, save: Save)          // a restart
    | OpenUp(now: int, save: Save)
    | Placed(rekeys: bool, save: Save)        // a computer was saved, or a saved one got a new key, and the window hears it
    | Trust                                     // a computer was saved, and the program stopped before the window heard
    | Forget
    | NotAdded(save: Save)
    | Tick(strangers: Strangers, now: int, save: Save)

  const START := State(Absent, false, Never, None, 0, 0)

  function Written(disk: Saved, text: Saved, save: Save): Saved {
    if save.FailedOld? then disk else text
  }

  /** A save that is done has replaced the text; a failed one may have. */
  predicate Saves(before: Saved, after: Saved, text: Saved, save: Save) {
    (save.Done? ==> after == text) && (after == before || after == text)
  }

  function ClosedAs(s: State, reason: Reason, save: Save): State {
    s.(phase := Closed(reason), holding := None, disk := Written(s.disk, SaysClosed(Some(reason)), save))
  }

  /** The window after reading its file: one left open closes. */
  function Loaded(s: State, readable: bool, save: Save): State {
    var loaded := s.(phase := Never, holding := None);
    match if readable then s.disk else Absent
    case SaysEligible => loaded.(phase := Eligible)
    case SaysOpen => ClosedAs(loaded, Restarted, save)
    case SaysClosed(reason) => loaded.(phase := Closed(if reason.Some? then reason.value else Restarted))
    case _ => loaded
  }

  function Opened(s: State, now: int, save: Save): State {
    if !s.phase.Eligible? then s
    else if s.peers > 0 then ClosedAs(s, HadPeers, save)
    else
      var written := s.(disk := Written(s.disk, SaysOpen, save));
      if !save.Done? then written.(phase := Never)
      else written.(phase := Open(now + OPEN_FOR), opens := s.opens + 1)
  }

  /** The window hears that a computer was placed. */
  function Heard(s: State, save: Save): State {
    if s.phase.Eligible? || s.phase.Open? then ClosedAs(s, Accepted, save) else s
  }

  /** The one stranger that could join: alone, identified, answered, heard lately, with a name of its own. */
  function Candidate(strangers: Strangers): Option<Stranger> {
    if |strangers.present| == 1 && strangers.unidentified == 0
       && strangers.present[0].answered && strangers.present[0].recent && !strangers.present[0].duplicateName
    then Some(strangers.present[0]) else None
  }

  predicate HasRival(strangers: Strangers) {
    |strangers.present| > 1 || strangers.turnedAway
  }

  function Held(holding: Option<Holding>, candidate: Option<Stranger>, now: int): Option<Holding> {
    if holding.Some? && Some(holding.value.stranger) == candidate then holding
    else if candidate.Some? then Some(Holding(candidate.value, now))
    else None
  }

  function Ticked(s: State, strangers: Strangers, now: int, save: Save): State {
    if !s.phase.Open? then s
    else if now >= s.phase.until then ClosedAs(s, Expired, save)
    else if HasRival(strangers) then ClosedAs(s, Rival, save)
    else s.(holding := Held(s.holding, Candidate(strangers), now))
  }

  /** The stranger to trust now. */
  function Joining(s: State, strangers: Strangers, now: int): Option<Stranger> {
    if !s.phase.Open? || now >= s.phase.until || HasRival(strangers) then None
    else
      var holding := Held(s.holding, Candidate(strangers), now);
      if holding.Some? && now - holding.value.since >= HOLD_OFF then Some(holding.value.stranger) else None
  }

  function Next(s: State, step: Step): State {
    match step
    case MarkEligible(save) => if s.marked then s else s.(disk := Written(s.disk, SaysEligible, save), marked := true)
    case Load(readable, save) => Loaded(s, readable, save)
    case OpenUp(now, save) => Opened(s, now, save)
    case Placed(rekeys, save) => Heard(s.(peers := if rekeys && s.peers > 0 then s.peers else s.peers + 1), save)
    case Trust => s.(peers := s.peers + 1)
    case Forget => s.(peers := if s.peers > 0 then s.peers - 1 else 0)
    case NotAdded(save) => if s.phase.Open? then ClosedAs(s, Failed, save) else s
    case Tick(strangers, now, save) => Ticked(s, strangers, now, save)
  }

  function Run(s: State, steps: seq<Step>): State {
    if steps == [] then s else Next(Run(s, steps[..|steps| - 1]), steps[|steps| - 1])
  }

  lemma RunThen(s: State, steps: seq<Step>, step: Step)
    ensures Run(s, steps + [step]) == Next(Run(s, steps), step)
  {
    assert (steps + [step])[..|steps|] == steps;
  }

  /** The window as the program keeps it, and the file that outlives it; `trace` is all that happened. */
  class Window {
    var disk: Saved
    var phase: Phase
    var holding: Option<Holding>
    ghost var marked: bool
    ghost var opens: nat
    ghost var peers: nat
    ghost var trace: seq<Step>

    ghost function View(): State
      reads this
    {
      State(disk, marked, phase, holding, opens, peers)
    }

    /** It is what the steps so far make of a fresh install, so whatever holds of every run holds of it. */
    ghost predicate Valid()
      reads this
    {
      View() == Run(START, trace)
    }

    constructor ()
      ensures Valid() && trace == []
    {
      disk, phase, holding, marked, opens, peers, trace := Absent, Never, None, false, 0, 0, [];
    }

    ghost method Did(step: Step)
      requires View() == Next(Run(START, trace), step)
      modifies this`trace
      ensures Valid() && trace == old(trace) + [step]
    {
      ghost var (now, all) := (View(), trace + [step]);
      assert now == Run(START, all) by { RunThen(START, trace, step); }
      trace := all;
      assert View() == now;
    }

    /** Setup, once. */
    method MarkEligible(save: Save)
      requires Valid() && !marked
      modifies this
      ensures Valid() && trace == old(trace) + [Step.MarkEligible(save)]
      ensures marked && Saves(old(disk), disk, SaysEligible, save) && phase == old(phase) && holding == old(holding)
    {
      disk, marked := Written(disk, SaysEligible, save), true;
      Did(Step.MarkEligible(save));
    }

    /** A computer is saved or forgotten elsewhere. */
    ghost method PeersChange(step: Step)
      requires Valid() && (step.Trust? || step.Forget?)
      modifies this`peers, this`trace
      ensures Valid() && trace == old(trace) + [step]
    {
      peers := Next(View(), step).peers;
      Did(step);
    }

    method Load(readable: bool, save: Save)
      requires Valid()
      modifies this
      ensures Valid() && trace == old(trace) + [Step.Load(readable, save)]
      ensures holding == None && phase ==
        if !readable then Never
        else match old(disk)
             case SaysEligible => Eligible
             case SaysOpen => Closed(Restarted)
             case SaysClosed(reason) => Closed(if reason.Some? then reason.value else Restarted)
             case _ => Never
      ensures if readable && old(disk) == SaysOpen then Saves(old(disk), disk, SaysClosed(Some(Restarted)), save) else disk == old(disk)
    {
      ReadFile(readable, save);
      Did(Step.Load(readable, save));
    }

    method ReadFile(readable: bool, save: Save)
      modifies this`phase, this`holding, this`disk
      ensures View() == Loaded(old(View()), readable, save)
    {
      phase, holding := Never, None;
      if readable {
        match disk
        case SaysEligible => phase := Eligible;
        case SaysOpen => Close(Restarted, save);
        case SaysClosed(reason) => phase := Closed(if reason.Some? then reason.value else Restarted);
        case _ =>
      }
    }

    method Close(reason: Reason, save: Save)
      modifies this`phase, this`holding, this`disk
      ensures View() == ClosedAs(old(View()), reason, save)
    {
      phase, holding := Closed(reason), None;
      disk := Written(disk, SaysClosed(Some(reason)), save);
    }

    /** The file says open before the window is, and it never opened before. */
    method Open(hasPeers: bool, now: int, save: Save)
      requires Valid() && (hasPeers <==> peers > 0)
      modifies this
      ensures Valid() && trace == old(trace) + [OpenUp(now, save)]
      ensures phase.Open? && !old(phase).Open? ==> opens == 1 && old(opens) == 0 && disk == SaysOpen
      ensures !old(phase).Eligible? ==> phase == old(phase) && disk == old(disk)
      ensures old(phase).Eligible? && hasPeers ==> phase == Closed(HadPeers) && Saves(old(disk), disk, SaysClosed(Some(HadPeers)), save)
      ensures old(phase).Eligible? && !hasPeers ==>
        Saves(old(disk), disk, SaysOpen, save) && phase == if save.Done? then Phase.Open(now + 600_000) else Never
    {
      OpensAtMostOnce(trace);
      OpenIfEligible(hasPeers, now, save);
      Did(OpenUp(now, save));
      OpensAtMostOnce(trace);
    }

    method OpenIfEligible(hasPeers: bool, now: int, save: Save)
      requires hasPeers <==> peers > 0
      modifies this`phase, this`holding, this`disk, this`opens
      ensures View() == Opened(old(View()), now, save)
    {
      if !phase.Eligible? {
        return;
      }
      if hasPeers {
        Close(HadPeers, save);
        return;
      }
      disk := Written(disk, SaysOpen, save);
      if !save.Done? {
        phase := Never;
        return;
      }
      phase := Phase.Open(now + OPEN_FOR);
      opens := opens + 1;
    }

    /** The computer is saved by now, unless one saved before was given its key. */
    method Placed(rekeys: bool, save: Save)
      requires Valid()
      modifies this
      ensures Valid() && trace == old(trace) + [Step.Placed(rekeys, save)]
      ensures peers > 0 && peers >= old(peers) && (!rekeys ==> peers == old(peers) + 1)
      ensures if old(phase).Open? || old(phase).Eligible?
              then phase == Closed(Accepted) && Saves(old(disk), disk, SaysClosed(Some(Accepted)), save)
              else phase == old(phase) && disk == old(disk)
    {
      peers := if rekeys && peers > 0 then peers else peers + 1;
      if phase.Eligible? || phase.Open? {
        Close(Accepted, save);
      }
      Did(Step.Placed(rekeys, save));
    }

    method NotAdded(save: Save)
      requires Valid()
      modifies this
      ensures Valid() && trace == old(trace) + [Step.NotAdded(save)]
      ensures if old(phase).Open? then phase == Closed(Failed) && Saves(old(disk), disk, SaysClosed(Some(Failed)), save)
              else phase == old(phase) && disk == old(disk)
    {
      if phase.Open? {
        Close(Failed, save);
      }
      Did(Step.NotAdded(save));
    }

    /** A stranger it answers has earned it. */
    method Tick(strangers: Strangers, now: int, save: Save) returns (joining: Option<Stranger>)
      requires Valid()
      modifies this
      ensures Valid() && trace == old(trace) + [Step.Tick(strangers, now, save)]
      ensures joining.Some? ==> HasEarned(trace, joining.value, now)
      ensures forall st: Stranger :: InOrder(trace) && HasEarned(trace, st, now) ==> joining == Some(st)
      ensures forall o: nat :: OpenedAt(old(trace), o) && now >= old(trace)[o].now + 600_000 ==> !phase.Open? && joining == None
    {
      joining := Weigh(strangers, now, save);
      TickResults(trace, strangers, now, save);
      Did(Step.Tick(strangers, now, save));
    }

    method Weigh(strangers: Strangers, now: int, save: Save) returns (joining: Option<Stranger>)
      modifies this`phase, this`holding, this`disk
      ensures View() == Ticked(old(View()), strangers, now, save)
      ensures joining == Joining(old(View()), strangers, now)
    {
      if !phase.Open? {
        return None;
      }
      if now >= phase.until {
        Close(Expired, save);
        return None;
      }
      if |strangers.present| > 1 || strangers.turnedAway {
        Close(Rival, save);
        return None;
      }
      var candidate := Candidate(strangers);
      if !(holding.Some? && Some(holding.value.stranger) == candidate) {
        holding := if candidate.Some? then Some(Holding(candidate.value, now)) else None;
      }
      if holding.None? || now - holding.value.since < HOLD_OFF {
        return None;
      }
      return Some(holding.value.stranger);
    }
  }

  // ----- it opens at most once

  /** Once it has opened, neither the file nor the program can make it eligible again. */
  predicate UsedUp(s: State) {
    && s.opens <= 1
    && (s.opens == 1 ==> s.marked && s.disk != SaysEligible && !s.phase.Eligible?)
    && (s.phase.Open? ==> s.opens == 1)
    && (s.phase.Eligible? || s.phase.Closed? || !(s.disk.Absent? || s.disk.Unknown?) ==> s.marked)
  }

  lemma UsedUpStays(s: State, step: Step)
    requires UsedUp(s)
    ensures UsedUp(Next(s, step)) && Next(s, step).opens >= s.opens
  {
  }

  /** Opens at most once per install, whatever restarts, read failures and failed saves there are. */
  lemma {:induction false} OpensAtMostOnce(steps: seq<Step>)
    ensures UsedUp(Run(START, steps)) && Run(START, steps).opens <= 1
  {
    if steps != [] {
      OpensAtMostOnce(steps[..|steps| - 1]);
      UsedUpStays(Run(START, steps[..|steps| - 1]), steps[|steps| - 1]);
    }
  }

  /** Without a restart, closed is for good. */
  lemma {:induction false} ClosedIsForGood(s: State, steps: seq<Step>)
    requires s.phase.Closed? && forall k :: 0 <= k < |steps| ==> !steps[k].Load?
    ensures Run(s, steps).phase == s.phase
  {
    if steps != [] {
      ClosedIsForGood(s, steps[..|steps| - 1]);
    }
  }

  // ----- closed stays closed until every computer is forgotten

  /** It is not open, and where it could be eligible a computer is trusted. */
  predicate ShutOut(s: State) {
    s.marked && !s.phase.Open? && (s.disk == SaysEligible || s.phase.Eligible? ==> s.peers > 0)
  }

  lemma ClosingShutsOut(s: State, step: Step)
    requires UsedUp(s) && !s.phase.Closed? && Next(s, step).phase.Closed?
    ensures ShutOut(Next(s, step))
  {
  }

  predicate NoForget(steps: seq<Step>) {
    forall k :: 0 <= k < |steps| ==> !steps[k].Forget?
  }

  lemma {:induction false} ShutOutStays(s: State, steps: seq<Step>)
    requires ShutOut(s) && NoForget(steps)
    ensures ShutOut(Run(s, steps))
  {
    if steps != [] {
      ShutOutStays(s, steps[..|steps| - 1]);
    }
  }

  lemma {:induction false} RunSplits(s: State, a: seq<Step>, b: seq<Step>)
    ensures Run(s, a + b) == Run(Run(s, a), b)
  {
    if b == [] {
      assert a + b == a;
    } else {
      RunSplits(s, a, b[..|b| - 1]);
      assert (a + b)[..|a + b| - 1] == a + b[..|b| - 1];
    }
  }

  /** Once closed, no restart, read failure or failed save opens the window again unless a computer is forgotten. */
  lemma ClosedNeverReopens(steps: seq<Step>, step: Step, later: seq<Step>)
    requires !Run(START, steps).phase.Closed? && Next(Run(START, steps), step).phase.Closed? && NoForget(later)
    ensures !Run(START, steps + [step] + later).phase.Open?
  {
    OpensAtMostOnce(steps);
    ClosingShutsOut(Run(START, steps), step);
    RunThen(START, steps, step);
    ShutOutStays(Run(START, steps + [step]), later);
    RunSplits(START, steps + [step], later);
  }

  ghost predicate CanReopen(s: State) {
    exists steps: seq<Step> :: NoForget(steps) && Run(s, steps).phase.Open?
  }

  lemma TwoSteps(s: State, a: Step, b: Step)
    ensures Run(s, [a, b]) == Next(Next(s, a), b)
  {
    assert [a, b] == [] + [a] + [b];
    RunThen(s, [], a);
    RunThen(s, [] + [a], b);
  }

  lemma Reopens(s: State)
    requires s.disk == SaysEligible && s.peers == 0
    ensures CanReopen(s)
  {
    var (load, open) := (Load(true, Done), OpenUp(0, Done));
    TwoSteps(s, load, open);
    assert NoForget([load, open]);
  }

  /**
   As it stands, a closed window opens in some later run exactly when its file
   still says eligible and no trusted computer is left.
   */
  lemma ReopensExactlyWhen(s: State)
    requires s.phase.Closed? && s.marked
    ensures CanReopen(s) <==> s.disk == SaysEligible && s.peers == 0
  {
    if s.disk == SaysEligible && s.peers == 0 {
      Reopens(s);
    } else {
      forall steps: seq<Step> | NoForget(steps) ensures !Run(s, steps).phase.Open? {
        ShutOutStays(s, steps);
      }
    }
  }

  /** It happens: a computer is placed before the window opened, that cannot be saved, and the computer is forgotten. */
  lemma ClosedCanReopen() returns (steps: seq<Step>)
    ensures steps == [MarkEligible(Done), Load(true, Done), Placed(false, FailedOld), Forget]
    ensures var s := Run(START, steps); s.phase == Closed(Accepted) && s.marked && CanReopen(s)
  {
    steps := [];
    RunThen(START, steps, MarkEligible(Done));
    steps := steps + [MarkEligible(Done)];
    RunThen(START, steps, Load(true, Done));
    steps := steps + [Load(true, Done)];
    RunThen(START, steps, Placed(false, FailedOld));
    steps := steps + [Placed(false, FailedOld)];
    RunThen(START, steps, Forget);
    steps := steps + [Forget];
    Reopens(Run(START, steps));
  }

  // ----- joining is earned

  /** This stranger is the only one around and every record is known; it answered, said hello lately and has its own name. */
  predicate Lone(strangers: Strangers, st: Stranger) {
    strangers.present == [st] && strangers.unidentified == 0 && st.answered && st.recent && !st.duplicateName
  }

  /** From step `k` on, every tick had just this stranger as candidate, and the first was at `since`. */
  ghost predicate CandidateSince(steps: seq<Step>, k: nat, st: Stranger, since: int) {
    && k < |steps| && steps[k].Tick? && steps[k].now == since
    && forall i :: k <= i < |steps| && steps[i].Tick? ==> Lone(steps[i].strangers, st)
  }

  /** Before step `k` and after every step from there on, the window was open. */
  ghost predicate OpenThrough(s: State, steps: seq<Step>, k: nat) {
    forall i :: k <= i <= |steps| ==> Run(s, steps[..i]).phase.Open?
  }

  /** A tick within OPEN_FOR that saw no two strangers and nothing turned away. */
  predicate CleanTick(step: Step, start: int) {
    step.Tick? ==> |step.strangers.present| <= 1 && !step.strangers.turnedAway && step.now < start + 600_000
  }

  /** The window opened at step `o` and is open since; every tick since then was in time and saw no two strangers. */
  ghost predicate CleanSince(s: State, steps: seq<Step>, o: nat) {
    && o < |steps| && steps[o].OpenUp? && Run(s, steps[..o]).phase.Eligible? && OpenThrough(s, steps, o + 1)
    && forall i :: o < i < |steps| ==> CleanTick(steps[i], steps[o].now)
  }

  /** `since` was the tick at `k`: the stranger is the candidate from there on, with the window open. */
  ghost predicate HeldSince(s: State, steps: seq<Step>, k: nat, st: Stranger, since: int) {
    CandidateSince(steps, k, st, since) && OpenThrough(s, steps, k)
  }

  ghost predicate Earned(s: State, steps: seq<Step>) {
    var t := Run(s, steps);
    && (t.phase.Open? ==> exists o: nat :: OpenFor(s, steps, o, t.phase.until))
    && (t.holding.Some? ==> t.phase.Open? && exists k: nat :: HeldSince(s, steps, k, t.holding.value.stranger, t.holding.value.since))
  }

  lemma OpenMore(s: State, steps: seq<Step>, step: Step, k: nat)
    requires k <= |steps| + 1 && (k <= |steps| ==> OpenThrough(s, steps, k)) && Next(Run(s, steps), step).phase.Open?
    ensures OpenThrough(s, steps + [step], k)
  {
    var all := steps + [step];
    RunThen(s, steps, step);
    forall i | k <= i <= |all| ensures Run(s, all[..i]).phase.Open? {
      if i <= |steps| { assert all[..i] == steps[..i]; } else { assert all[..i] == all; }
    }
  }

  lemma CleanMore(s: State, steps: seq<Step>, step: Step, o: nat)
    requires CleanSince(s, steps, o) && CleanTick(step, steps[o].now) && Next(Run(s, steps), step).phase.Open?
    ensures CleanSince(s, steps + [step], o)
  {
    OpenMore(s, steps, step, o + 1);
    assert (steps + [step])[..o] == steps[..o];
  }

  lemma CleanStart(s: State, steps: seq<Step>, step: Step)
    requires step.OpenUp? && Run(s, steps).phase.Eligible? && Next(Run(s, steps), step).phase.Open?
    ensures CleanSince(s, steps + [step], |steps|)
  {
    OpenMore(s, steps, step, |steps| + 1);
    assert (steps + [step])[..|steps|] == steps;
  }

  /** Open comes from open without a rival and in time, or from opening up. */
  lemma OpenFrom(t: State, step: Step)
    requires Next(t, step).phase.Open?
    ensures if t.phase.Open? then CleanTick(step, t.phase.until - 600_000) && Next(t, step).phase.until == t.phase.until
            else step.OpenUp? && t.phase.Eligible? && Next(t, step).phase.until == step.now + 600_000
  {
  }

  /** It opened at step `o`, and is to close OPEN_FOR later. */
  ghost predicate OpenFor(s: State, steps: seq<Step>, o: nat, until: int) {
    CleanSince(s, steps, o) && until == steps[o].now + 600_000
  }

  lemma EarnedOpen(s: State, steps: seq<Step>, step: Step)
    requires Earned(s, steps) && Next(Run(s, steps), step).phase.Open?
    ensures exists o: nat :: OpenFor(s, steps + [step], o, Next(Run(s, steps), step).phase.until)
  {
    OpenFrom(Run(s, steps), step);
    if Run(s, steps).phase.Open? {
      var o: nat :| OpenFor(s, steps, o, Run(s, steps).phase.until);
      CleanMore(s, steps, step, o);
      assert OpenFor(s, steps + [step], o, Next(Run(s, steps), step).phase.until);
    } else {
      CleanStart(s, steps, step);
      assert OpenFor(s, steps + [step], |steps|, Next(Run(s, steps), step).phase.until);
    }
  }

  lemma CandidateMore(steps: seq<Step>, step: Step, k: nat, st: Stranger, since: int)
    requires CandidateSince(steps, k, st, since) && (step.Tick? ==> Lone(step.strangers, st))
    ensures CandidateSince(steps + [step], k, st, since)
  {
  }

  lemma CandidateStart(steps: seq<Step>, step: Step, st: Stranger)
    requires step.Tick? && Lone(step.strangers, st)
    ensures CandidateSince(steps + [step], |steps|, st, step.now)
  {
  }

  /** What is held was held before, or starts with a tick that has it as candidate. */
  lemma HoldingFrom(t: State, step: Step)
    requires Next(t, step).holding.Some? && (t.holding.Some? ==> t.phase.Open?)
    ensures var h := Next(t, step).holding.value;
      && Next(t, step).phase.Open?
      && (step.Tick? ==> Lone(step.strangers, h.stranger))
      && (t.holding == Some(h) || (step.Tick? && h.since == step.now && t.phase.Open?))
  {
  }

  lemma EarnedHolding(s: State, steps: seq<Step>, step: Step)
    requires Earned(s, steps) && Next(Run(s, steps), step).holding.Some?
    ensures var h := Next(Run(s, steps), step).holding.value;
      Next(Run(s, steps), step).phase.Open? && exists k: nat :: HeldSince(s, steps + [step], k, h.stranger, h.since)
  {
    HoldingFrom(Run(s, steps), step);
    var h := Next(Run(s, steps), step).holding.value;
    if Run(s, steps).holding == Some(h) {
      var k: nat :| HeldSince(s, steps, k, h.stranger, h.since);
      CandidateMore(steps, step, k, h.stranger, h.since);
      OpenMore(s, steps, step, k);
      assert HeldSince(s, steps + [step], k, h.stranger, h.since);
    } else {
      CandidateStart(steps, step, h.stranger);
      assert steps[..|steps|] == steps;
      OpenMore(s, steps, step, |steps|);
      assert HeldSince(s, steps + [step], |steps|, h.stranger, h.since);
    }
  }

  lemma {:induction false} EarnedHolds(steps: seq<Step>)
    ensures Earned(START, steps)
  {
    if steps != [] {
      var (before, last) := (steps[..|steps| - 1], steps[|steps| - 1]);
      EarnedHolds(before);
      assert steps == before + [last];
      if Run(START, steps).phase.Open? { EarnedOpen(START, before, last); }
      if Run(START, steps).holding.Some? { EarnedHolding(START, before, last); }
    }
  }

  /**
   At the last tick, at `now`, the window that opened within OPEN_FOR before is
   still open and this stranger is alone; it was the candidate at every tick for
   at least HOLD_OFF with the window open, and no tick since the window opened
   saw a second one or anything turned away.
   */
  ghost predicate HasEarned(steps: seq<Step>, st: Stranger, now: int) {
    && steps != [] && steps[|steps| - 1].Tick? && steps[|steps| - 1].now == now && Lone(steps[|steps| - 1].strangers, st)
    && (exists k: nat, since: int :: HeldSince(START, steps, k, st, since) && now - since >= 5_000)
    && (exists o: nat :: CleanSince(START, steps, o) && now < steps[o].now + 600_000)
  }

  /** Joining is earned. */
  lemma JoiningIsEarned(steps: seq<Step>, strangers: Strangers, now: int, save: Save)
    requires Joining(Run(START, steps), strangers, now).Some?
    ensures HasEarned(steps + [Tick(strangers, now, save)], Joining(Run(START, steps), strangers, now).value, now)
  {
    var (st, step) := (Joining(Run(START, steps), strangers, now).value, Tick(strangers, now, save));
    EarnedHolds(steps);
    EarnedOpen(START, steps, step);
    EarnedHolding(START, steps, step);
    var (t, all) := (Next(Run(START, steps), step), steps + [step]);
    var h := t.holding.value;
    var o: nat :| OpenFor(START, all, o, t.phase.until);
    var k: nat :| HeldSince(START, all, k, h.stranger, h.since);
    assert HeldSince(START, steps + [step], k, st, h.since);
    assert CleanTick((steps + [step])[|steps|], (steps + [step])[o].now);
  }

  /** Ticks come in the order of their times. */
  predicate InOrder(steps: seq<Step>) {
    forall i, j :: 0 <= i < j < |steps| && steps[i].Tick? && steps[j].Tick? ==> steps[i].now <= steps[j].now
  }

  /** A stranger that is the candidate from tick `k` on, with the window open, is held since then or before. */
  lemma {:induction false} StaysHeld(steps: seq<Step>, k: nat, st: Stranger, since: int)
    requires HeldSince(START, steps, k, st, since) && InOrder(steps)
    ensures var h := Run(START, steps).holding; h.Some? && h.value.stranger == st && h.value.since <= since
  {
    var last := |steps| - 1;
    var (before, step) := (steps[..last], steps[last]);
    assert steps == before + [step] && steps[..|steps|] == steps;
    RunThen(START, before, step);
    assert Run(START, before).phase.Open? && Run(START, steps).phase.Open?;
    if k < last {
      assert HeldSince(START, before, k, st, since) by {
        forall i | k <= i <= |before| ensures Run(START, before[..i]).phase.Open? { assert before[..i] == steps[..i]; }
      }
      StaysHeld(before, k, st, since);
      HeldStays(Run(START, before), step, st);
    } else {
      EarnedHolds(before);
      HeldFromHere(Run(START, before), step, st);
      if Run(START, before).holding.Some? {
        var h := Run(START, before).holding.value;
        var j: nat :| HeldSince(START, before, j, h.stranger, h.since);
        assert steps[j] == before[j];
      }
    }
  }

  lemma HeldStays(t: State, step: Step, st: Stranger)
    requires t.phase.Open? && Next(t, step).phase.Open? && t.holding.Some? && t.holding.value.stranger == st
    requires step.Tick? ==> Lone(step.strangers, st)
    ensures Next(t, step).holding == t.holding
  {
  }

  lemma HeldFromHere(t: State, step: Step, st: Stranger)
    requires step.Tick? && Lone(step.strangers, st) && t.phase.Open? && Next(t, step).phase.Open?
    ensures var h := Next(t, step).holding;
      h.Some? && h.value.stranger == st && (h.value.since == step.now || t.holding == h)
  {
  }

  lemma EarningJoins(steps: seq<Step>, strangers: Strangers, now: int, save: Save, st: Stranger)
    requires var all := steps + [Tick(strangers, now, save)]; InOrder(all) && HasEarned(all, st, now)
    ensures Joining(Run(START, steps), strangers, now) == Some(st)
  {
    var (step, all) := (Tick(strangers, now, save), steps + [Tick(strangers, now, save)]);
    var k: nat, since: int :| HeldSince(START, all, k, st, since) && now - since >= 5_000;
    RunThen(START, steps, step);
    StaysHeld(all, k, st, since);
    assert all[..|all|] == all && all[..|steps|] == steps;
    assert Run(START, steps).phase.Open? && Run(START, all).phase.Open?;
  }

  /** A tick answers exactly the stranger that has earned it. */
  lemma JoinsExactlyWhen(steps: seq<Step>, strangers: Strangers, now: int, save: Save, st: Stranger)
    requires InOrder(steps + [Tick(strangers, now, save)])
    ensures Joining(Run(START, steps), strangers, now) == Some(st) <==> HasEarned(steps + [Tick(strangers, now, save)], st, now)
  {
    if Joining(Run(START, steps), strangers, now) == Some(st) {
      JoiningIsEarned(steps, strangers, now, save);
    } else if HasEarned(steps + [Tick(strangers, now, save)], st, now) {
      EarningJoins(steps, strangers, now, save, st);
    }
  }

  // ----- it expires

  /** The window opened at step `o`. */
  ghost predicate OpenedAt(steps: seq<Step>, o: nat) {
    o < |steps| && steps[o].OpenUp? && !Run(START, steps[..o]).phase.Open? && Run(START, steps[..o + 1]).phase.Open?
  }

  lemma {:induction false} OpensStay(steps: seq<Step>, n: nat)
    requires n <= |steps|
    ensures Run(START, steps[..n]).opens <= Run(START, steps).opens
    decreases |steps|
  {
    if n < |steps| {
      var before := steps[..|steps| - 1];
      assert before[..n] == steps[..n];
      OpensStay(before, n);
      OpensAtMostOnce(before);
      UsedUpStays(Run(START, before), steps[|steps| - 1]);
    } else {
      assert steps[..n] == steps;
    }
  }

  /** There is one step at which it opened. */
  lemma OpenedOnce(steps: seq<Step>, a: nat, b: nat)
    requires a < b && OpenedAt(steps, a)
    ensures !OpenedAt(steps, b)
  {
    if b < |steps| {
      assert steps[..b][..a + 1] == steps[..a + 1];
      OpensAtMostOnce(steps[..a + 1]);
      OpensAtMostOnce(steps[..b]);
      OpensStay(steps[..b], a + 1);
      assert steps[..b + 1] == steps[..b] + [steps[b]];
      RunThen(START, steps[..b], steps[b]);
      if steps[b].OpenUp? && !Run(START, steps[..b]).phase.Open? {
        NotEligible(Run(START, steps[..b]), steps[b]);
      }
    }
  }

  lemma NotEligible(s: State, step: Step)
    requires step.OpenUp? && !s.phase.Open? && !s.phase.Eligible?
    ensures !Next(s, step).phase.Open?
  {
  }

  /** While it is open, it is so until OPEN_FOR after the step at which it opened. */
  lemma OpenUntil(steps: seq<Step>, o: nat)
    requires OpenedAt(steps, o) && Run(START, steps).phase.Open?
    ensures Run(START, steps).phase.until == steps[o].now + 600_000
  {
    EarnedHolds(steps);
    var p: nat :| OpenFor(START, steps, p, Run(START, steps).phase.until);
    assert OpenedAt(steps, p);
    if p < o { OpenedOnce(steps, p, o); } else if o < p { OpenedOnce(steps, o, p); }
  }

  lemma LateTick(t: State, strangers: Strangers, now: int, save: Save)
    requires t.phase.Open? ==> now >= t.phase.until
    ensures Joining(t, strangers, now) == None
    ensures var u := Next(t, Tick(strangers, now, save)); !u.phase.Open? && (t.phase.Open? ==> u.phase == Closed(Expired))
  {
  }

  /** In every run, a tick OPEN_FOR or more after the window opened finds it not open or closes it, and answers nobody. */
  lemma ExpiresInTime(steps: seq<Step>, o: nat, strangers: Strangers, now: int, save: Save)
    requires OpenedAt(steps, o) && now >= steps[o].now + 600_000
    ensures Joining(Run(START, steps), strangers, now) == None
    ensures var t := Run(START, steps + [Tick(strangers, now, save)]);
      !t.phase.Open? && (Run(START, steps).phase.Open? ==> t.phase == Closed(Expired))
  {
    if Run(START, steps).phase.Open? { OpenUntil(steps, o); }
    LateTick(Run(START, steps), strangers, now, save);
    RunThen(START, steps, Tick(strangers, now, save));
  }

  lemma TickResults(steps: seq<Step>, strangers: Strangers, now: int, save: Save)
    ensures var (all, joining) := (steps + [Tick(strangers, now, save)], Joining(Run(START, steps), strangers, now));
      && (joining.Some? ==> HasEarned(all, joining.value, now))
      && (forall st: Stranger :: InOrder(all) && HasEarned(all, st, now) ==> joining == Some(st))
      && (forall o: nat :: OpenedAt(steps, o) && now >= steps[o].now + 600_000 ==> !Run(START, all).phase.Open? && joining == None)
  {
    var all := steps + [Tick(strangers, now, save)];
    if Joining(Run(START, steps), strangers, now).Some? { JoiningIsEarned(steps, strangers, now, save); }
    forall st: Stranger | InOrder(all) && HasEarned(all, st, now) ensures Joining(Run(START, steps), strangers, now) == Some(st) {
      EarningJoins(steps, strangers, now, save, st);
    }
    forall o: nat | OpenedAt(steps, o) && now >= steps[o].now + 600_000
      ensures !Run(START, all).phase.Open? && Joining(Run(START, steps), strangers, now) == None
    {
      ExpiresInTime(steps, o, strangers, now, save);
    }
  }

  // ----- and nobody else was heard

  /** What the table of neighbors had recorded when a tick looked around. */
  datatype Around = Around(heard: map<Key, int>, clock: int, trusts: Trusts)

  /** Every key not trusted whose hello was recorded within NEIGHBOR_TTL. */
  predicate HeardLately(around: Around, key: Key) {
    key in around.heard && around.clock - around.heard[key] < NEIGHBOR_TTL && key !in around.trusts.keys
  }

  /** The strangers a tick is given name each of them. */
  ghost predicate Shows(strangers: Strangers, around: Around) {
    forall key :: HeardLately(around, key) ==> Names(strangers.present, key)
  }

  /** What LookAround answers does. */
  lemma LookingAroundShows(t: Table, trusts: Trusts, strangers: Strangers, now: int)
    requires t.Valid() && Describes(strangers.present, Untrusted(t.neighbors, trusts), t.neighbors, trusts, Mapped(t.instances), now)
    ensures Shows(strangers, Around(t.heard, t.clock, trusts))
  {
    forall key | HeardLately(Around(t.heard, t.clock, trusts), key) ensures Names(strangers.present, key) {
      HeardIsPresent(t, trusts, strangers.present, Mapped(t.instances), now, key);
    }
  }

  /** Each tick of a run looked at the table as it was then. */
  ghost predicate AllShown(steps: seq<Step>, arounds: seq<Around>) {
    |arounds| == |steps| && forall i :: 0 <= i < |steps| && steps[i].Tick? ==> Shows(steps[i].strangers, arounds[i])
  }

  /** From the tick at `k` on, no key but this one was heard lately. */
  ghost predicate OnlyHeard(steps: seq<Step>, arounds: seq<Around>, k: nat, key: Key)
    requires |arounds| == |steps|
  {
    && k < |steps| && steps[k].Tick?
    && forall i, other :: k <= i < |steps| && steps[i].Tick? && HeardLately(arounds[i], other) ==> other == key
  }

  /** After step `o`, never two at one tick. */
  ghost predicate OneHeardAtOnce(steps: seq<Step>, arounds: seq<Around>, o: nat)
    requires |arounds| == |steps|
  {
    forall i, a, b :: o < i < |steps| && steps[i].Tick? && HeardLately(arounds[i], a) && HeardLately(arounds[i], b) ==> a == b
  }

  /**
   For all of the last HOLD_OFF, at every tick, no key but the one that joins
   was untrusted and heard within NEIGHBOR_TTL; and since the window opened
   never two at a tick.
   */
  lemma NobodyElseWasHeard(steps: seq<Step>, arounds: seq<Around>, st: Stranger, now: int)
    requires HasEarned(steps, st, now) && AllShown(steps, arounds)
    ensures exists k: nat :: OnlyHeard(steps, arounds, k, st.key) && now - steps[k].now >= 5_000
    ensures exists o: nat :: o < |steps| && steps[o].OpenUp? && OneHeardAtOnce(steps, arounds, o)
  {
    var k: nat, since: int :| HeldSince(START, steps, k, st, since) && now - since >= 5_000;
    forall i, key | k <= i < |steps| && steps[i].Tick? && HeardLately(arounds[i], key) ensures key == st.key {
      assert Lone(steps[i].strangers, st) && Shows(steps[i].strangers, arounds[i]) && Names(steps[i].strangers.present, key);
    }
    assert OnlyHeard(steps, arounds, k, st.key);
    var o: nat :| CleanSince(START, steps, o);
    forall i, a, b | o < i < |steps| && steps[i].Tick? && HeardLately(arounds[i], a) && HeardLately(arounds[i], b) ensures a == b {
      assert Shows(steps[i].strangers, arounds[i]);
      assert Names(steps[i].strangers.present, a) && Names(steps[i].strangers.present, b);
    }
  }
}
