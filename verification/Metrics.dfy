/**
 Counting lost motion within a bounded window (begin_activation and
 observe_motion_sequence of SessionMetrics in src/metrics.rs).
 */
module Metrics {
  import opened Basics

  const WINDOW := 4_096
  const MAX_U64 := 0xFFFF_FFFF_FFFF_FFFF

  function SaturatingSub(a: nat, b: nat): nat { if a >= b then a - b else 0 }
  function SaturatingAdd(a: nat, b: nat): nat { if a + b <= MAX_U64 then a + b else MAX_U64 }

  /** The oldest sequence still tracked. */
  function Floor(highest: nat): nat { SaturatingSub(highest, WINDOW - 1) }

  // ----- what a history of sequence numbers means

  function Highest(history: seq<nat>): (r: nat)
    ensures forall n :: n in history ==> n <= r
    ensures r == 0 || r in history
  {
    if history == [] then 0
    else
      var (rest, last) := (Highest(history[..|history| - 1]), history[|history| - 1]);
      assert history == history[..|history| - 1] + [last];
      if last > rest then last else rest
  }

  /** A sequence counts the first time it comes, unless it comes too late to tell from a repeat. */
  predicate Fresh(accepted: set<nat>, highest: nat, sequence: nat) {
    sequence > 0 && sequence !in accepted && sequence >= Floor(highest)
  }

  function Accepted(history: seq<nat>): set<nat> {
    if history == [] then {}
    else
      var (before, last) := (history[..|history| - 1], history[|history| - 1]);
      if Fresh(Accepted(before), Highest(before), last) then Accepted(before) + {last} else Accepted(before)
  }

  lemma {:induction false} AcceptedBounds(history: seq<nat>)
    ensures forall n :: n in Accepted(history) ==> 1 <= n <= Highest(history) && n in history
    ensures Highest(history) > 0 ==> Highest(history) in Accepted(history)
  {
    if history != [] {
      var (before, last) := (history[..|history| - 1], history[|history| - 1]);
      AcceptedBounds(before);
      assert history == before + [last];
    }
  }

  function UpTo(n: nat): (r: set<nat>)
    ensures forall k :: k in r <==> 1 <= k <= n
    ensures |r| == n
  {
    if n == 0 then {} else UpTo(n - 1) + {n}
  }

  /** Gaps: how many sequences up to the highest never counted. */
  lemma GapsAreUncounted(history: seq<nat>)
    ensures Accepted(history) <= UpTo(Highest(history))
    ensures |Accepted(history)| <= Highest(history)
    ensures |UpTo(Highest(history)) - Accepted(history)| == Highest(history) - |Accepted(history)|
  {
    AcceptedBounds(history);
    SubsetSize(Accepted(history), UpTo(Highest(history)));
    assert UpTo(Highest(history)) == Accepted(history) + (UpTo(Highest(history)) - Accepted(history));
  }

  /** The tracked part of what was accepted. */
  function Recent(history: seq<nat>): set<nat> {
    set n | n in Accepted(history) && n >= Floor(Highest(history))
  }

  /** The window is the last 4096 sequences up to the highest. */
  lemma RecentExactly(history: seq<nat>, n: nat)
    ensures n in Recent(history) <==> n in Accepted(history) && n + 4_096 > Highest(history)
  {
    AcceptedBounds(history);
  }

  lemma ObservedNext(history: seq<nat>, sequence: nat)
    ensures var next := history + [sequence];
      && Highest(next) == (if sequence > Highest(history) then sequence else Highest(history))
      && Accepted(next) == (if Fresh(Accepted(history), Highest(history), sequence) then Accepted(history) + {sequence} else Accepted(history))
      && |Accepted(next)| == |Accepted(history)| + (if Fresh(Accepted(history), Highest(history), sequence) then 1 else 0)
    ensures sequence > Highest(history) ==> Fresh(Accepted(history), Highest(history), sequence)
  {
    assert (history + [sequence])[..|history|] == history;
    AcceptedBounds(history);
  }

  /** A new highest sequence moves the window up over it. */
  lemma RecentAfterHighest(history: seq<nat>, sequence: nat)
    requires sequence > Highest(history)
    ensures Recent(history + [sequence]) == set n | n in Recent(history) + {sequence} && n >= Floor(sequence)
  {
    ObservedNext(history, sequence);
  }

  /** A late one joins the window if it is in it and new. */
  lemma RecentAfterLate(history: seq<nat>, sequence: nat)
    requires 0 < sequence <= Highest(history)
    ensures sequence >= Floor(Highest(history)) ==>
      (Fresh(Accepted(history), Highest(history), sequence) <==> sequence !in Recent(history))
    ensures Recent(history + [sequence]) ==
      if Fresh(Accepted(history), Highest(history), sequence) then Recent(history) + {sequence} else Recent(history)
    ensures Fresh(Accepted(history), Highest(history), sequence) ==> |Accepted(history)| < Highest(history)
  {
    ObservedNext(history, sequence);
    if Fresh(Accepted(history), Highest(history), sequence) {
      GapsAreUncounted(history);
      assert sequence in UpTo(Highest(history)) - Accepted(history);
    }
  }

  /** Loss is exactly the gaps since the start, unless they would pass the counter's maximum: then at most those. */
  predicate Counts(loss: nat, start: nat, highest: nat, accepted: nat) {
    && loss <= start + highest - accepted && loss <= MAX_U64
    && (start + highest <= MAX_U64 ==> loss == start + highest - accepted)
  }

  lemma CountsGap(loss: nat, start: nat, highest: nat, accepted: nat, sequence: nat)
    requires Counts(loss, start, highest, accepted) && sequence > highest
    ensures Counts(SaturatingAdd(loss, SaturatingSub(SaturatingSub(sequence, highest), 1)), start, sequence, accepted + 1)
  {
  }

  /** While the counter is exact, a late arrival always finds a loss to take back. */
  lemma CountsLate(loss: nat, start: nat, highest: nat, accepted: nat)
    requires Counts(loss, start, highest, accepted) && accepted < highest
    ensures Counts(SaturatingSub(loss, 1), start, highest, accepted + 1)
    ensures start + highest <= MAX_U64 ==> loss > 0
  {
  }

  /** The counters of one session; `history` is what this activation was given, `start` the loss before it. */
  class SessionMetrics {
    var loss: nat
    var reordered: nat
    var duplicates: nat
    var highest: nat
    var recent: set<nat>
    ghost var history: seq<nat>
    ghost var start: nat

    ghost predicate Valid()
      reads this
    {
      && highest == Highest(history)
      && recent == Recent(history)
      && |Accepted(history)| <= highest
      && Counts(loss, start, highest, |Accepted(history)|)
    }

    constructor ()
      ensures Valid() && history == [] && loss == 0 && start == 0
    {
      loss, reordered, duplicates, highest, recent := 0, 0, 0, 0, {};
      history, start := [], 0;
    }

    method BeginActivation()
      requires Valid()
      modifies this
      ensures Valid() && history == [] && loss == old(loss) && start == loss
      ensures reordered == old(reordered) && duplicates == old(duplicates)
    {
      highest, recent := 0, {};
      history, start := [], loss;
    }

    method ObserveMotionSequence(sequence: nat)
      requires Valid() && sequence <= MAX_U64
      modifies this
      ensures Valid() && history == old(history) + [sequence] && start == old(start)
      ensures sequence > old(highest) ==> reordered == old(reordered) && duplicates == old(duplicates)
      ensures 0 < sequence <= old(highest) && Fresh(Accepted(old(history)), old(highest), sequence) ==>
        loss == SaturatingSub(old(loss), 1) && (start + highest <= MAX_U64 ==> old(loss) > 0) && reordered == SaturatingAdd(old(reordered), 1) && duplicates == old(duplicates)
      ensures 0 < sequence <= old(highest) && sequence in old(recent) ==>
        loss == old(loss) && duplicates == SaturatingAdd(old(duplicates), 1) && reordered == old(reordered)
      ensures sequence == 0 || sequence < Floor(old(highest)) ==>
        loss == old(loss) && reordered == old(reordered) && duplicates == old(duplicates)
    {
      ghost var before := history;
      history := history + [sequence];
      ObservedNext(before, sequence);
      if sequence == 0 {
        assert recent == Recent(history);
        return;
      }
      if sequence > highest {
        RecentAfterHighest(before, sequence);
        CountsGap(loss, start, highest, |Accepted(before)|, sequence);
        loss := SaturatingAdd(loss, SaturatingSub(SaturatingSub(sequence, highest), 1));
        highest := sequence;
        recent := recent + {sequence};
        var floor := Floor(sequence);
        recent := set n | n in recent && n >= floor;
        return;
      }
      RecentAfterLate(before, sequence);
      if sequence < Floor(highest) {
        return;
      }
      if sequence !in recent {
        CountsLate(loss, start, highest, |Accepted(before)|);
        recent := recent + {sequence};
        reordered := SaturatingAdd(reordered, 1);
        loss := SaturatingSub(loss, 1);
      } else {
        duplicates := SaturatingAdd(duplicates, 1);
      }
    }
  }

  // ----- whole activations

  /** No sequence comes for the first time below the window. */
  predicate InTime(history: seq<nat>) {
    history == [] ||
    var (before, last) := (history[..|history| - 1], history[|history| - 1]);
    InTime(before) && (last in before || last >= Floor(Highest(before)))
  }

  /** Every sequence up to `n` comes, none later than the window allows, in any order and with any repeats. */
  predicate ArrivesInTime(history: seq<nat>, n: nat) {
    && InTime(history)
    && (forall k: nat :: 1 <= k <= n ==> k in history)
    && (forall i :: 0 <= i < |history| ==> history[i] <= n)
  }

  /** A sequence that came in time once has counted. */
  lemma {:induction false} InTimeIsAccepted(history: seq<nat>, k: nat)
    requires k > 0 && k in history && InTime(history)
    ensures k in Accepted(history)
  {
    var (before, last) := (history[..|history| - 1], history[|history| - 1]);
    assert history == before + [last];
    ObservedNext(before, last);
    AcceptedBounds(before);
    if k in before {
      InTimeIsAccepted(before, k);
    }
  }

  /** So a full set in any order within the window loses nothing. */
  lemma FullSetLosesNothing(history: seq<nat>, n: nat)
    requires ArrivesInTime(history, n)
    ensures Highest(history) == n && Accepted(history) == UpTo(n) && Highest(history) - |Accepted(history)| == 0
  {
    AcceptedBounds(history);
    forall k: nat | 1 <= k <= n ensures k in Accepted(history) {
      InTimeIsAccepted(history, k);
    }
    if n > 0 { assert n in history; }
  }

  /** So an activation that got everything in time ends with the loss it began with. */
  lemma InTimeLosesNothing(m: SessionMetrics, n: nat)
    requires m.Valid() && ArrivesInTime(m.history, n)
    ensures m.loss <= m.start && (m.start + n <= MAX_U64 ==> m.loss == m.start)
  {
    FullSetLosesNothing(m.history, n);
  }
}
