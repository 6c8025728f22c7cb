/**
 The seat as the daemon judges it, and what that lets another computer do here
 (SeatGrace, admit and admitted_effects in src/daemon.rs). Instants are
 milliseconds that never go back.
 */
module Seat {
  import opened Wrappers
  import Trust

  const SEAT_UNKNOWN_GRACE := 1_000

  datatype SeatState = Unlocked(uid: nat) | Restricted(kind: nat) | Unknown(reason: string)

  datatype InjectionGate = Normal(uid: nat) | PreLogin | Denied

  function GateOf(state: SeatState): InjectionGate {
    match state
    case Unlocked(uid) => Normal(uid)
    case Restricted(_) => PreLogin
    case Unknown(_) => Denied
  }

  datatype SeatGate = SeatGate(gate: InjectionGate, held: bool)

  // ----- what a history of logind's answers means

  datatype Answer = Answer(state: SeatState, at: int)

  predicate Ordered(history: seq<Answer>) {
    forall i, j :: 0 <= i < j < |history| ==> history[i].at <= history[j].at
  }

  /** How many answers there were up to and including the last definite one. */
  function Definite(history: seq<Answer>): (n: nat)
    ensures n <= |history|
    ensures n > 0 ==> !history[n - 1].state.Unknown?
    ensures forall i :: n <= i < |history| ==> history[i].state.Unknown?
  {
    if history == [] || !history[|history| - 1].state.Unknown? then |history|
    else Definite(history[..|history| - 1])
  }

  /** When the answers became unknown, while they are. */
  function UnknownSince(history: seq<Answer>): Option<int> {
    if Definite(history) == |history| then None else Some(history[Definite(history)].at)
  }

  /**
   The last definite state, unless nothing definite was ever answered or the
   answers have been unknown for the whole grace: then the latest answer.
   */
  function Effective(history: seq<Answer>): SeatState
    requires history != []
  {
    var (n, last) := (Definite(history), history[|history| - 1]);
    if n == 0 || (n < |history| && last.at - history[n].at >= SEAT_UNKNOWN_GRACE) then last.state
    else history[n - 1].state
  }

  /** One answer more either is definite, starts or continues an unknown streak. */
  lemma AnswerAdds(history: seq<Answer>, answer: Answer)
    ensures Definite(history + [answer]) == if answer.state.Unknown? then Definite(history) else |history| + 1
  {
    assert (history + [answer])[..|history|] == history;
  }

  lemma OrderedAdds(history: seq<Answer>, answer: Answer)
    requires history != [] && Ordered(history) && answer.at >= history[|history| - 1].at
    ensures Ordered(history + [answer])
  {
  }

  /** What one more answer does to the seat. */
  lemma EffectiveAfter(history: seq<Answer>, answer: Answer)
    requires history != [] && Ordered(history) && answer.at >= history[|history| - 1].at
    ensures var since := if UnknownSince(history).Some? then UnknownSince(history).value else answer.at;
      && UnknownSince(history + [answer]) == (if answer.state.Unknown? then Some(since) else None)
      && Effective(history + [answer]) ==
         if answer.state.Unknown? && !Effective(history).Unknown? && answer.at - since < SEAT_UNKNOWN_GRACE
         then Effective(history) else answer.state
  {
    AnswerAdds(history, answer);
  }

  /** From answer `i` on, every one was unknown. */
  predicate UnknownFrom(history: seq<Answer>, i: nat) {
    i < |history| && forall k :: i <= k < |history| ==> history[k].state.Unknown?
  }

  lemma {:induction false} DefiniteBefore(history: seq<Answer>, i: nat)
    requires UnknownFrom(history, i)
    ensures Definite(history) <= i
    decreases |history|
  {
    if i < |history| - 1 {
      DefiniteBefore(history[..|history| - 1], i);
    }
  }

  /** And since then a whole grace went by. */
  predicate SpansGrace(history: seq<Answer>, i: nat) {
    UnknownFrom(history, i) && history[|history| - 1].at - history[i].at >= SEAT_UNKNOWN_GRACE
  }

  lemma SpanTakesOver(history: seq<Answer>, i: nat)
    requires history != [] && Ordered(history) && UnknownFrom(history, i) && (i == 0 || SpansGrace(history, i))
    ensures Effective(history).Unknown?
  {
    DefiniteBefore(history, i);
    assert Definite(history) < i ==> history[Definite(history)].at <= history[i].at;
  }

  lemma TakenOverBySpan(history: seq<Answer>)
    requires history != [] && Effective(history).Unknown?
    ensures UnknownFrom(history, 0) || SpansGrace(history, Definite(history))
  {
  }

  /**
   The seat is unknown exactly when all answers ever were, or there is a
   stretch of nothing but unknown answers up to now that spans the grace.
   */
  lemma UnknownTookOver(history: seq<Answer>)
    requires history != [] && Ordered(history)
    ensures Effective(history).Unknown? <==> UnknownFrom(history, 0) || exists i: nat :: SpansGrace(history, i)
  {
    if Effective(history).Unknown? {
      TakenOverBySpan(history);
    } else if UnknownFrom(history, 0) {
      SpanTakesOver(history, 0);
    } else if i: nat :| SpansGrace(history, i) {
      SpanTakesOver(history, i);
    }
  }

  /** Otherwise it is the last definite answer, and only unknown ones came after. */
  lemma DefiniteHolds(history: seq<Answer>)
    requires history != [] && !Effective(history).Unknown?
    ensures exists n: nat :: n < |history| && Effective(history) == history[n].state && (n + 1 == |history| || UnknownFrom(history, n + 1))
  {
    var n := Definite(history);
    assert n > 0 && Effective(history) == history[n - 1].state;
    assert n - 1 + 1 == |history| || UnknownFrom(history, n - 1 + 1);
  }

  /** `SeatGrace`; `history` is every answer it was given. */
  class SeatGrace {
    var state: SeatState
    var unknownSince: Option<int>
    ghost var history: seq<Answer>

    ghost predicate Valid()
      reads this
    {
      history != [] && Ordered(history) && state == Effective(history) && unknownSince == UnknownSince(history)
    }

    constructor (current: SeatState, now: int)
      ensures Valid() && history == [Answer(current, now)]
    {
      state, unknownSince, history := current, if current.Unknown? then Some(now) else None, [Answer(current, now)];
    }

    method Observe(next: SeatState, now: int)
      requires Valid() && now >= history[|history| - 1].at
      modifies this
      ensures Valid() && history == old(history) + [Answer(next, now)]
    {
      EffectiveAfter(history, Answer(next, now));
      OrderedAdds(history, Answer(next, now));
      if !next.Unknown? {
        state, unknownSince := next, None;
      } else {
        var since := if unknownSince.Some? then unknownSince.value else now;
        unknownSince := Some(since);
        if state.Unknown? || now - since >= SEAT_UNKNOWN_GRACE {
          state := next;
        }
      }
      history := history + [Answer(next, now)];
    }

    /** When a short unknown runs out: asking again before then changes nothing, from then on it does. */
    method Deadline() returns (r: Option<int>)
      requires Valid()
      ensures r.Some? <==> history[|history| - 1].state.Unknown? && !Effective(history).Unknown?
      ensures r.Some? ==> forall answer: Answer :: answer.state.Unknown? ==>
        (Effective(history + [answer]) == answer.state <==> answer.at >= r.value)
    {
      if state.Unknown? || unknownSince.None? {
        return None;
      }
      forall answer: Answer | answer.state.Unknown?
        ensures Effective(history + [answer]) == answer.state <==> answer.at >= unknownSince.value + SEAT_UNKNOWN_GRACE
      {
        AnswerAdds(history, answer);
      }
      return Some(unknownSince.value + SEAT_UNKNOWN_GRACE);
    }

    function Gate(): (r: SeatGate)
      requires Valid()
      reads this
      ensures r == GateAfter(history)
    {
      SeatGate(GateOf(state), unknownSince.Some?)
    }
  }

  function GateAfter(history: seq<Answer>): SeatGate
    requires history != []
  {
    SeatGate(GateOf(Effective(history)), history[|history| - 1].state.Unknown?)
  }

  // ----- who may inject

  datatype Config = Config(sharing: bool, allowPreloginInput: bool, peers: map<string, Trust.Permissions>)

  datatype Admission = Inject | Hold | Refuse

  predicate ReceiverAuthorized(config: Config, peer: string, gate: InjectionGate) {
    && config.sharing && peer in config.peers
    && config.peers[peer].connect && config.peers[peer].sendNormal
    && match gate
       case Normal(_) => true
       case PreLogin => config.allowPreloginInput && config.peers[peer].injectPrelogin
       case Denied => false
  }

  function Admit(config: Config, peer: string, seat: SeatGate): Admission {
    if !ReceiverAuthorized(config, peer, seat.gate) then Refuse
    else if seat.held then Hold
    else Inject
  }

  /** Whatever came before, nobody injects while logind's latest answer is unknown. */
  lemma UnknownNeverInjects(history: seq<Answer>, config: Config, peer: string)
    requires history != [] && history[|history| - 1].state.Unknown?
    ensures Admit(config, peer, GateAfter(history)) != Inject
    ensures Effective(history).Unknown? ==> Admit(config, peer, GateAfter(history)) == Refuse
  {
  }

  /** What a peer needs to send input while the seat is in a definite state. */
  predicate MaySend(config: Config, peer: string, state: SeatState) {
    && config.sharing && peer in config.peers && config.peers[peer].connect && config.peers[peer].sendNormal
    && match state
       case Unlocked(_) => true
       case Restricted(_) => config.allowPreloginInput && config.peers[peer].injectPrelogin
       case Unknown(_) => false
  }

  /** A peer injects exactly when the latest answer is definite and lets it: at a restricted seat only with both pre-login switches. */
  lemma InjectsExactlyWhen(history: seq<Answer>, config: Config, peer: string)
    requires history != []
    ensures Admit(config, peer, GateAfter(history)) == Inject <==> MaySend(config, peer, history[|history| - 1].state)
  {
  }

  /** It is held exactly when the latest answer is unknown and the definite state that still counts lets it. */
  lemma HoldsExactlyWhen(history: seq<Answer>, config: Config, peer: string)
    requires history != []
    ensures Admit(config, peer, GateAfter(history)) == Hold <==>
      history[|history| - 1].state.Unknown? && MaySend(config, peer, Effective(history))
  {
  }

  // ----- what reaches the backend

  datatype Effect =
    | Key(key: nat, pressed: bool, synthetic: bool)
    | Button(button: nat, pressed: bool, synthetic: bool)
    | TouchReplaced(contacts: set<nat>, synthetic: bool)
    | Motion(dx: int, dy: int)
    | ActivationOpened
    | ActivationClosed
    | Message(text: string)  // acknowledgements and rejections

  predicate IsInjection(e: Effect) { e.Key? || e.Button? || e.TouchReplaced? || e.Motion? }

  predicate IsRelease(e: Effect) {
    match e
    case Key(_, pressed, _) => !pressed
    case Button(_, pressed, _) => !pressed
    case TouchReplaced(contacts, _) => contacts == {}
    case ActivationClosed => true
    case _ => false
  }

  predicate IsSafetyRelease(e: Effect) {
    match e
    case Key(_, pressed, synthetic) => !pressed && synthetic
    case Button(_, pressed, synthetic) => !pressed && synthetic
    case TouchReplaced(contacts, synthetic) => synthetic && contacts == {}
    case ActivationClosed => true
    case _ => false
  }

  predicate Admitted(e: Effect, admission: Admission) {
    !IsInjection(e) || match admission
                       case Inject => true
                       case Hold => IsRelease(e)
                       case Refuse => IsSafetyRelease(e)
  }

  /** The effects an admission lets through, in order. */
  function Delivered(effects: seq<Effect>, admission: Admission): seq<Effect> {
    if effects == [] then []
    else
      var rest := Delivered(effects[..|effects| - 1], admission);
      var last := effects[|effects| - 1];
      if Admitted(last, admission) then rest + [last] else rest
  }

  method AdmittedEffects(effects: seq<Effect>, admission: Admission) returns (deliver: seq<Effect>, refused: bool)
    ensures deliver == Delivered(effects, admission)
    ensures refused <==> admission.Refuse? && deliver != effects
  {
    deliver, refused := [], false;
    for i := 0 to |effects|
      invariant deliver == Delivered(effects[..i], admission)
      invariant refused ==> admission.Refuse?
      invariant |deliver| <= i && (admission.Refuse? ==> (refused <==> |deliver| < i))
      invariant |deliver| == i ==> deliver == effects[..i]
    {
      assert effects[..i + 1][..i] == effects[..i];
      if Admitted(effects[i], admission) {
        deliver := deliver + [effects[i]];
      } else {
        refused := refused || admission.Refuse?;
      }
    }
    assert effects[..|effects|] == effects;
  }

  /** The places of the admitted effects, in order. */
  function Picks(effects: seq<Effect>, admission: Admission): (r: seq<nat>)
    ensures |r| == |Delivered(effects, admission)|
  {
    if effects == [] then []
    else
      var n := |effects| - 1;
      if Admitted(effects[n], admission) then Picks(effects[..n], admission) + [n] else Picks(effects[..n], admission)
  }

  lemma {:induction false} PickIsDelivered(effects: seq<Effect>, admission: Admission, i: nat)
    requires i < |Picks(effects, admission)|
    ensures Picks(effects, admission)[i] < |effects|
    ensures effects[Picks(effects, admission)[i]] == Delivered(effects, admission)[i]
  {
    var n := |effects| - 1;
    if i < |Picks(effects[..n], admission)| {
      PickIsDelivered(effects[..n], admission, i);
    }
  }

  lemma {:induction false} PicksGoUp(effects: seq<Effect>, admission: Admission, i: nat, j: nat)
    requires i < j < |Picks(effects, admission)|
    ensures Picks(effects, admission)[i] < Picks(effects, admission)[j]
  {
    var n := |effects| - 1;
    if j < |Picks(effects[..n], admission)| {
      PicksGoUp(effects[..n], admission, i, j);
    } else {
      PickIsDelivered(effects[..n], admission, i);
    }
  }

  lemma {:induction false} PickedExactly(effects: seq<Effect>, admission: Admission, k: nat)
    requires k < |effects|
    ensures k in Picks(effects, admission) <==> Admitted(effects[k], admission)
  {
    var n := |effects| - 1;
    var before := Picks(effects[..n], admission);
    if k < n {
      PickedExactly(effects[..n], admission, k);
    } else if k in before {
      var i :| 0 <= i < |before| && before[i] == k;
      PickIsDelivered(effects[..n], admission, i);
    }
  }

  /** What is delivered are the admitted effects, each once and in the order they came. */
  lemma DeliveredInOrder(effects: seq<Effect>, admission: Admission)
    ensures var (picks, delivered) := (Picks(effects, admission), Delivered(effects, admission));
      && |picks| == |delivered|
      && (forall i, j :: 0 <= i < j < |picks| ==> picks[i] < picks[j])
      && (forall i :: 0 <= i < |picks| ==> picks[i] < |effects| && effects[picks[i]] == delivered[i])
      && (forall k :: 0 <= k < |effects| ==> (k in picks <==> Admitted(effects[k], admission)))
  {
    var picks := Picks(effects, admission);
    forall i, j | 0 <= i < j < |picks| ensures picks[i] < picks[j] { PicksGoUp(effects, admission, i, j); }
    forall i | 0 <= i < |picks| ensures picks[i] < |effects| && effects[picks[i]] == Delivered(effects, admission)[i] {
      PickIsDelivered(effects, admission, i);
    }
    forall k | 0 <= k < |effects| ensures k in picks <==> Admitted(effects[k], admission) {
      PickedExactly(effects, admission, k);
    }
  }

  /** What the backend holds down. */
  datatype Held = Held(keys: set<nat>, buttons: set<nat>, contacts: set<nat>) {
    predicate Within(other: Held) {
      keys <= other.keys && buttons <= other.buttons && contacts <= other.contacts
    }
  }

  function Applied(held: Held, e: Effect): Held {
    match e
    case Key(k, pressed, _) => held.(keys := if pressed then held.keys + {k} else held.keys - {k})
    case Button(b, pressed, _) => held.(buttons := if pressed then held.buttons + {b} else held.buttons - {b})
    case TouchReplaced(contacts, _) => held.(contacts := contacts)
    case _ => held
  }

  function Replay(held: Held, effects: seq<Effect>): Held {
    if effects == [] then held else Applied(Replay(held, effects[..|effects| - 1]), effects[|effects| - 1])
  }

  /** Unless it may inject, a batch never leaves more held than before it. */
  lemma {:induction false} NothingIsAdded(held: Held, effects: seq<Effect>, admission: Admission)
    requires !admission.Inject?
    ensures Replay(held, Delivered(effects, admission)).Within(held)
  {
    if effects != [] {
      var before := Delivered(effects[..|effects| - 1], admission);
      NothingIsAdded(held, effects[..|effects| - 1], admission);
      assert (before + [effects[|effects| - 1]])[..|before|] == before;
    }
  }

  /** While held, every key and button the whole batch would leave up is up. */
  lemma {:induction false} HeldStillReleases(held: Held, effects: seq<Effect>)
    ensures Replay(held, Delivered(effects, Hold)).keys <= Replay(held, effects).keys
    ensures Replay(held, Delivered(effects, Hold)).buttons <= Replay(held, effects).buttons
    ensures Replay(held, effects).contacts == {} && (exists e :: e in effects && e.TouchReplaced?) ==>
      Replay(held, Delivered(effects, Hold)).contacts == {}
  {
    if effects != [] {
      var (head, last) := (effects[..|effects| - 1], effects[|effects| - 1]);
      var before := Delivered(head, Hold);
      HeldStillReleases(held, head);
      assert (before + [last])[..|before|] == before;
      assert effects == head + [last];
    }
  }

  /** Of a peer that may not inject, exactly the releases this computer made itself go through. */
  lemma {:induction false} RefusedExceptSafety(effects: seq<Effect>, e: Effect)
    requires IsInjection(e)
    ensures e in Delivered(effects, Refuse) <==>
      e in effects && (match e
                       case Key(_, pressed, synthetic) => !pressed && synthetic
                       case Button(_, pressed, synthetic) => !pressed && synthetic
                       case TouchReplaced(contacts, synthetic) => contacts == {} && synthetic
                       case _ => false)
  {
    if effects != [] {
      var (head, last) := (effects[..|effects| - 1], effects[|effects| - 1]);
      assert effects == head + [last];
      RefusedExceptSafety(head, e);
    }
  }

  /** What is let through is all of it, in order, for a peer that may inject. */
  lemma {:induction false} InjectDeliversAll(effects: seq<Effect>)
    ensures Delivered(effects, Inject) == effects
  {
    if effects != [] {
      InjectDeliversAll(effects[..|effects| - 1]);
    }
  }
}
