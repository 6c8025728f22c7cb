/**
 Giving one tile a new size (SharedLayout::with_display_size): candidates that
 push only what is in the way, slide everything past the side that moved, or
 place the tile somewhere else, and the best of them that keeps tiles apart.
 */
module Resize {
  import opened Wrappers
  import opened Tiles

  /** The tile at `index` of `before` is to become `width` by `height`. */
  datatype Job = Job(before: seq<Tile>, index: nat, width: nat, height: nat) {
    predicate Ok() {
      index < |before|
    }

    function Old(): Tile
      requires Ok()
    {
      before[index]
    }

    predicate Grows()
      requires Ok()
    {
      width >= Old().width && height >= Old().height
    }
  }

  // ----- where tiles go when the resized tile's corner goes to (x, y)

  /** Along one axis: how far a span past either end of [from, to) goes when that becomes [at, at + size). */
  function Along(low: int, high: int, from: int, to: int, at: int, size: nat): int {
    if low >= to then at + size - to
    else if high <= from then at - from
    else 0
  }

  /** How far `other` slides to stay against the side of the resized tile it is past. */
  function Slide(job: Job, x: int, y: int, other: Tile): (int, int)
    requires job.Ok()
  {
    var was := job.Old();
    (Along(other.x, other.RightEnd(), was.x, was.RightEnd(), x, job.width),
     Along(other.y, other.BottomEnd(), was.y, was.BottomEnd(), y, job.height))
  }

  /** Tile `i` once it has moved: the resized one at (x, y), any other slid. */
  function Target(job: Job, x: int, y: int, i: nat): Tile
    requires job.Ok() && i < |job.before|
  {
    if i == job.index then job.Old().(x := x, y := y, width := job.width, height := job.height)
    else
      var (dx, dy) := Slide(job, x, y, job.before[i]);
      job.before[i].(x := job.before[i].x + dx, y := job.before[i].y + dy)
  }

  /** The tiles when exactly those in `moved` have moved. */
  function Arranged(job: Job, x: int, y: int, moved: set<nat>): (r: seq<Tile>)
    requires job.Ok()
    ensures |r| == |job.before|
  {
    seq(|job.before|, i requires 0 <= i < |job.before| =>
      if i in moved then Target(job, x, y, i) else job.before[i])
  }

  predicate AllOnCanvas(job: Job, x: int, y: int, moved: set<nat>)
    requires job.Ok()
  {
    forall i :: i in moved && i < |job.before| ==> OnCanvas(Target(job, x, y, i))
  }

  function Moving(job: Job, x: int, y: int, moved: set<nat>): (r: Option<seq<Tile>>)
    requires job.Ok()
    ensures r.Some? ==> |r.value| == |job.before|
  {
    if AllOnCanvas(job, x, y, moved) then Some(Arranged(job, x, y, moved)) else None
  }

  predicate IsTile(job: Job, i: nat) {
    i < |job.before|
  }

  function Everything(job: Job): set<nat> {
    set i: nat | i < |job.before| && IsTile(job, i)
  }

  // ----- pushing: only the tiles in the way move

  /** A set of tiles holding the resized one that, once moved, hits no tile outside it. */
  ghost predicate Settles(job: Job, x: int, y: int, moved: set<nat>)
    requires job.Ok()
  {
    && job.index in moved
    && forall i: nat, j: nat :: i < |job.before| && j < |job.before| && i in moved && j !in moved ==>
         !Overlaps(Target(job, x, y, i), job.before[j])
  }

  ghost predicate MustMove(job: Job, x: int, y: int, j: nat)
    requires job.Ok()
  {
    forall moved: set<nat> :: Settles(job, x, y, moved) ==> j in moved
  }

  /** The tiles every settled set has to move. */
  ghost function Shoved(job: Job, x: int, y: int): set<nat>
    requires job.Ok()
  {
    set j: nat | j < |job.before| && MustMove(job, x, y, j)
  }

  ghost function Pushed(job: Job, x: int, y: int): Option<seq<Tile>>
    requires job.Ok()
  {
    Moving(job, x, y, Shoved(job, x, y))
  }

  /** The first unmoved tile from `j` on that a moved one overlaps. */
  function FirstHit(tiles: seq<Tile>, moved: seq<bool>, j: nat): (r: Option<nat>)
    requires |moved| == |tiles| && j <= |tiles|
    ensures r.Some? ==> r.value < |tiles| && !moved[r.value]
    ensures r.Some? ==> exists i :: 0 <= i < |tiles| && moved[i] && Overlaps(tiles[i], tiles[r.value])
    ensures r.None? ==> forall i, k :: 0 <= i < |tiles| && j <= k < |tiles| && moved[i] && !moved[k] ==>
      !Overlaps(tiles[i], tiles[k])
    decreases |tiles| - j
  {
    if j == |tiles| then None
    else if !moved[j] && exists i :: 0 <= i < |tiles| && moved[i] && Overlaps(tiles[i], tiles[j]) then Some(j)
    else FirstHit(tiles, moved, j + 1)
  }

  /** What the push loop knows: `marked` moved, all of them had to, the rest did not move. */
  ghost predicate Pushing(job: Job, x: int, y: int, tiles: seq<Tile>, moved: seq<bool>, marked: set<nat>)
    requires job.Ok()
  {
    && |tiles| == |job.before| == |moved|
    && job.index in marked
    && (forall i: nat :: i in marked ==> i < |tiles| && OnCanvas(Target(job, x, y, i)) && MustMove(job, x, y, i))
    && (forall i: nat :: i < |tiles| ==> (moved[i] <==> i in marked))
    && (forall i: nat :: i < |tiles| ==> tiles[i] == if i in marked then Target(job, x, y, i) else job.before[i])
  }

  lemma HitMustMove(job: Job, x: int, y: int, tiles: seq<Tile>, moved: seq<bool>, marked: set<nat>, hit: nat)
    requires job.Ok() && Pushing(job, x, y, tiles, moved, marked)
    requires FirstHit(tiles, moved, 0) == Some(hit)
    ensures MustMove(job, x, y, hit) && hit < |tiles| && hit !in marked
  {
    var i: nat :| i < |tiles| && moved[i] && Overlaps(tiles[i], tiles[hit]);
    forall settled: set<nat> | Settles(job, x, y, settled) ensures hit in settled {
      assert MustMove(job, x, y, i);
    }
  }

  lemma PushStep(job: Job, x: int, y: int, tiles: seq<Tile>, moved: seq<bool>, marked: set<nat>, hit: nat)
    requires job.Ok() && Pushing(job, x, y, tiles, moved, marked)
    requires hit < |tiles| && hit !in marked && MustMove(job, x, y, hit)
    requires OnCanvas(Target(job, x, y, hit))
    ensures Pushing(job, x, y, tiles[hit := Target(job, x, y, hit)], moved[hit := true], marked + {hit})
    ensures Everything(job) - (marked + {hit}) < Everything(job) - marked
  {
    assert IsTile(job, hit);
    assert hit in Everything(job) - marked;
  }

  lemma OffCanvas(job: Job, x: int, y: int, i: nat)
    requires job.Ok() && i < |job.before| && MustMove(job, x, y, i) && !OnCanvas(Target(job, x, y, i))
    ensures Pushed(job, x, y) == None
  {
    assert i in Shoved(job, x, y);
  }

  lemma PushDone(job: Job, x: int, y: int, tiles: seq<Tile>, moved: seq<bool>, marked: set<nat>)
    requires job.Ok() && Pushing(job, x, y, tiles, moved, marked)
    requires FirstHit(tiles, moved, 0).None?
    ensures Pushed(job, x, y) == Some(tiles)
  {
    assert Settles(job, x, y, marked);
    assert Shoved(job, x, y) == marked;
    assert tiles == Arranged(job, x, y, marked);
  }

  /**
   The push loop: while a moved tile hits an unmoved one, slide that one too.
   It moves each tile at most once, stops with no unmoved tile hit, and moves
   exactly the tiles that any way of settling has to move.
   */
  method Push(job: Job, x: int, y: int) returns (r: Option<seq<Tile>>)
    requires job.Ok()
    ensures r == Pushed(job, x, y)
  {
    assert MustMove(job, x, y, job.index);
    if !OnCanvas(Target(job, x, y, job.index)) {
      OffCanvas(job, x, y, job.index);
      return None;
    }
    var tiles := job.before[job.index := Target(job, x, y, job.index)];
    var moved := seq(|job.before|, i => i == job.index);
    ghost var marked: set<nat> := {job.index};
    while FirstHit(tiles, moved, 0).Some?
      invariant Pushing(job, x, y, tiles, moved, marked)
      decreases Everything(job) - marked
    {
      var hit := FirstHit(tiles, moved, 0).value;
      HitMustMove(job, x, y, tiles, moved, marked, hit);
      var (dx, dy) := Slide(job, x, y, job.before[hit]);
      var slid := Shifted(tiles[hit], dx, dy);
      if slid.None? {
        OffCanvas(job, x, y, hit);
        return None;
      }
      PushStep(job, x, y, tiles, moved, marked, hit);
      tiles, moved, marked := tiles[hit := slid.value], moved[hit := true], marked + {hit};
    }
    PushDone(job, x, y, tiles, moved, marked);
    return Some(tiles);
  }

  /** The pushed tiles settle, and no settled set moves fewer. */
  lemma ShovedSettles(job: Job, x: int, y: int)
    requires job.Ok()
    ensures Settles(job, x, y, Shoved(job, x, y))
    ensures forall moved: set<nat> :: Settles(job, x, y, moved) ==> Shoved(job, x, y) <= moved
  {
    var shoved := Shoved(job, x, y);
    assert MustMove(job, x, y, job.index);
    forall i: nat, j: nat | i < |job.before| && j < |job.before| && i in shoved && j !in shoved
      ensures !Overlaps(Target(job, x, y, i), job.before[j])
    {
      assert !MustMove(job, x, y, j);
      var moved: set<nat> :| Settles(job, x, y, moved) && j !in moved;
      assert MustMove(job, x, y, i);
    }
  }

  // ----- sliding: every tile past a side that moved goes with it

  function Slid(job: Job, x: int, y: int): (r: Option<seq<Tile>>)
    requires job.Ok()
    ensures r.Some? ==> |r.value| == |job.before|
  {
    Moving(job, x, y, Everything(job))
  }

  method SlideAll(job: Job, x: int, y: int) returns (r: Option<seq<Tile>>)
    requires job.Ok()
    ensures r == Slid(job, x, y)
  {
    assert forall i: nat :: i in Everything(job) <==> IsTile(job, i);
    if !OnCanvas(Target(job, x, y, job.index)) {
      return None;
    }
    var tiles := job.before[job.index := Target(job, x, y, job.index)];
    for k := 0 to |tiles|
      invariant |tiles| == |job.before|
      invariant forall i: nat :: i < |tiles| ==>
        tiles[i] == if i < k || i == job.index then Target(job, x, y, i) else job.before[i]
      invariant forall i: nat :: i < k ==> OnCanvas(Target(job, x, y, i))
    {
      if k != job.index {
        var (dx, dy) := Slide(job, x, y, job.before[k]);
        var slid := Shifted(tiles[k], dx, dy);
        if slid.None? {
          assert IsTile(job, k) && !OnCanvas(Target(job, x, y, k));
          return None;
        }
        tiles := tiles[k := slid.value];
      }
    }
    assert tiles == Arranged(job, x, y, Everything(job));
    return Some(tiles);
  }

  // ----- placing: only the resized tile moves, beside another one or past all

  function Placed(job: Job, spot: (int, int)): (r: Option<seq<Tile>>)
    requires job.Ok()
    ensures r.Some? ==> |r.value| == |job.before|
  {
    Moving(job, spot.0, spot.1, {job.index})
  }

  function Others(job: Job): seq<Tile>
    requires job.Ok()
  {
    job.before[..job.index] + job.before[job.index + 1..]
  }

  function BesideEach(others: seq<Tile>, w: nat, h: nat): seq<(int, int)> {
    if others == [] then [] else Beside(others[0], w, h) + BesideEach(others[1..], w, h)
  }

  function PastAll(job: Job): int
    requires job.Ok()
  {
    MaxOr0(RightEnds(Others(job)))
  }

  function Spots(job: Job): seq<(int, int)>
    requires job.Ok()
  {
    BesideEach(Others(job), job.width, job.height) + [(PastAll(job), job.Old().y)]
  }

  function Corners(job: Job): (r: seq<(int, int)>)
    requires job.Ok()
    ensures |r| == 4
  {
    var was := job.Old();
    var (right, bottom) := (was.RightEnd() - job.width, was.BottomEnd() - job.height);
    [(was.x, was.y), (right, was.y), (was.x, bottom), (right, bottom)]
  }

  // ----- scoring a candidate

  datatype Kind = Same | Any | Rest

  /** Whether the contact between tiles i and j counts for `kind` in `tiles`. */
  predicate Tallied(job: Job, tiles: seq<Tile>, kind: Kind, i: nat, j: nat) {
    i < |tiles| && j < |tiles| && |tiles| == |job.before| &&
    var was := Touching(job.before[i], job.before[j]);
    var now := Touching(tiles[i], tiles[j]);
    var own := i == job.index || j == job.index;
    was.Some? && match kind
                 case Same => own && now == was
                 case Any => own && now.Some?
                 case Rest => !own && now == was
  }

  predicate IsPair(i: nat, j: nat) {
    i < j
  }

  /** The pairs i < j of the `n` tiles that the scoring loops reach before (row, column). */
  function Reached(n: nat, row: nat, column: nat): set<(nat, nat)> {
    set i: nat, j: nat | i < n && j < n && IsPair(i, j) && (i < row || (i == row && j < column)) :: (i, j)
  }

  /** The tallied pairs among those reached before (row, column). */
  function Tally(job: Job, tiles: seq<Tile>, kind: Kind, row: nat, column: nat): set<(nat, nat)> {
    Chosen(Reached(|tiles|, row, column), (i: nat, j: nat) => Tallied(job, tiles, kind, i, j))
  }

  function Chosen(pairs: set<(nat, nat)>, f: (nat, nat) -> bool): set<(nat, nat)> {
    set p | p in pairs && f(p.0, p.1)
  }

  lemma ChosenStep(pairs: set<(nat, nat)>, p: (nat, nat), f: (nat, nat) -> bool)
    requires p !in pairs
    ensures |Chosen(pairs + {p}, f)| == |Chosen(pairs, f)| + if f(p.0, p.1) then 1 else 0
  {
    assert Chosen(pairs + {p}, f) == Chosen(pairs, f) + if f(p.0, p.1) then {p} else {};
  }

  function Count(job: Job, tiles: seq<Tile>, kind: Kind): nat {
    |Tally(job, tiles, kind, |tiles|, 0)|
  }

  function Displaced(job: Job, tiles: seq<Tile>): set<nat>
    requires |tiles| == |job.before|
  {
    set i: nat | i < |tiles| && i != job.index && (tiles[i].x, tiles[i].y) != (job.before[i].x, job.before[i].y)
  }

  predicate TouchesAny(tiles: seq<Tile>, index: nat)
    requires index < |tiles|
  {
    exists j :: 0 <= j < |tiles| && j != index && Touching(tiles[index], tiles[j]).Some?
  }

  predicate KeepsCorner(job: Job, tile: Tile)
    requires job.Ok()
  {
    var was := job.Old();
    && (tile.x == was.x || tile.x + job.width == was.RightEnd())
    && (tile.y == was.y || tile.y + job.height == was.BottomEnd())
  }

  /** Contacts kept on the same side, on any side, whether any, others' contacts kept, tiles moved. */
  datatype Score = Score(same: nat, any: nat, touches: bool, rest: nat, moved: nat) {
    predicate BetterThan(other: Score) {
      same > other.same || (same == other.same &&
      (any > other.any || (any == other.any &&
      ((touches && !other.touches) || (touches == other.touches &&
      (rest > other.rest || (rest == other.rest && moved < other.moved)))))))
    }
  }

  function Scored(job: Job, tiles: seq<Tile>): Score
    requires job.Ok() && |tiles| == |job.before|
  {
    Score(Count(job, tiles, Same), Count(job, tiles, Any),
          TouchesAny(job.before, job.index) && TouchesAny(tiles, job.index),
          Count(job, tiles, Rest),
          (if KeepsCorner(job, tiles[job.index]) then 0 else 1) + |Displaced(job, tiles)|)
  }

  lemma ReachedStep(n: nat, row: nat, column: nat)
    requires row < column < n
    ensures Reached(n, row, column + 1) == Reached(n, row, column) + {(row, column)}
    ensures (row, column) !in Reached(n, row, column)
  {
    assert IsPair(row, column);
  }

  lemma ReachedRow(n: nat, row: nat)
    requires row < n
    ensures Reached(n, row, row + 1) == Reached(n, row, 0)
    ensures Reached(n, row, n) == Reached(n, row + 1, 0)
  {
  }

  lemma TallyStep(job: Job, tiles: seq<Tile>, kind: Kind, row: nat, column: nat)
    requires |tiles| == |job.before| && row < column < |tiles|
    ensures |Tally(job, tiles, kind, row, column + 1)| ==
            |Tally(job, tiles, kind, row, column)| + Weight(job, tiles, kind, row, column)
  {
    ReachedStep(|tiles|, row, column);
    ChosenStep(Reached(|tiles|, row, column), (row, column), (i: nat, j: nat) => Tallied(job, tiles, kind, i, j));
  }

  function Weight(job: Job, tiles: seq<Tile>, kind: Kind, i: nat, j: nat): nat {
    if Tallied(job, tiles, kind, i, j) then 1 else 0
  }

  /** What one pair of tiles adds to each of the three counters. */
  method PairScore(job: Job, tiles: seq<Tile>, i: nat, j: nat) returns (same: nat, any: nat, rest: nat)
    requires |tiles| == |job.before| && i < j < |tiles|
    ensures same == Weight(job, tiles, Same, i, j)
    ensures any == Weight(job, tiles, Any, i, j)
    ensures rest == Weight(job, tiles, Rest, i, j)
  {
    same, any, rest := 0, 0, 0;
    var side := Touching(job.before[i], job.before[j]);
    if side.None? {
      return;
    }
    var now := Touching(tiles[i], tiles[j]);
    if i == job.index || j == job.index {
      same := if now == side then 1 else 0;
      any := if now.Some? then 1 else 0;
    } else {
      rest := if now == side then 1 else 0;
    }
  }

  ghost predicate Counted(job: Job, tiles: seq<Tile>, i: nat, j: nat, same: nat, any: nat, rest: nat) {
    && same == |Tally(job, tiles, Same, i, j)|
    && any == |Tally(job, tiles, Any, i, j)|
    && rest == |Tally(job, tiles, Rest, i, j)|
  }

  lemma CountedStep(job: Job, tiles: seq<Tile>, i: nat, j: nat, same: nat, any: nat, rest: nat)
    requires |tiles| == |job.before| && i < j < |tiles|
    requires Counted(job, tiles, i, j, same, any, rest)
    ensures Counted(job, tiles, i, j + 1, same + Weight(job, tiles, Same, i, j),
                    any + Weight(job, tiles, Any, i, j), rest + Weight(job, tiles, Rest, i, j))
  {
    TallyStep(job, tiles, Same, i, j);
    TallyStep(job, tiles, Any, i, j);
    TallyStep(job, tiles, Rest, i, j);
  }

  lemma CountedRow(job: Job, tiles: seq<Tile>, i: nat, same: nat, any: nat, rest: nat)
    requires |tiles| == |job.before| && i < |tiles|
    ensures Counted(job, tiles, i, 0, same, any, rest) <==> Counted(job, tiles, i, i + 1, same, any, rest)
    ensures Counted(job, tiles, i, |tiles|, same, any, rest) <==> Counted(job, tiles, i + 1, 0, same, any, rest)
  {
    ReachedRow(|tiles|, i);
  }

  method CountPair(job: Job, tiles: seq<Tile>, i: nat, j: nat, same0: nat, any0: nat, rest0: nat)
      returns (same: nat, any: nat, rest: nat)
    requires |tiles| == |job.before| && i < j < |tiles| && Counted(job, tiles, i, j, same0, any0, rest0)
    ensures Counted(job, tiles, i, j + 1, same, any, rest)
  {
    var s, a, r := PairScore(job, tiles, i, j);
    CountedStep(job, tiles, i, j, same0, any0, rest0);
    return same0 + s, any0 + a, rest0 + r;
  }

  method CountRow(job: Job, tiles: seq<Tile>, i: nat, same0: nat, any0: nat, rest0: nat) returns (same: nat, any: nat, rest: nat)
    requires |tiles| == |job.before| && i < |tiles| && Counted(job, tiles, i, i + 1, same0, any0, rest0)
    ensures Counted(job, tiles, i, |tiles|, same, any, rest)
  {
    same, any, rest := same0, any0, rest0;
    for j := i + 1 to |tiles|
      invariant Counted(job, tiles, i, j, same, any, rest)
    {
      same, any, rest := CountPair(job, tiles, i, j, same, any, rest);
    }
  }

  /** The scoring loops over pairs of tiles count exactly the pairs of each kind. */
  method CountPairs(job: Job, tiles: seq<Tile>) returns (same: nat, any: nat, rest: nat)
    requires |tiles| == |job.before|
    ensures Counted(job, tiles, |tiles|, 0, same, any, rest)
  {
    same, any, rest := 0, 0, 0;
    for i := 0 to |tiles|
      invariant Counted(job, tiles, i, 0, same, any, rest)
    {
      CountedRow(job, tiles, i, same, any, rest);
      same, any, rest := CountRow(job, tiles, i, same, any, rest);
      CountedRow(job, tiles, i, same, any, rest);
    }
  }

  method ScoreTiles(job: Job, tiles: seq<Tile>) returns (score: Score)
    requires job.Ok() && |tiles| == |job.before|
    ensures score == Scored(job, tiles)
  {
    var same, any, rest := CountPairs(job, tiles);
    var touches := TouchesAny(job.before, job.index) && TouchesAny(tiles, job.index);
    var moved := (if KeepsCorner(job, tiles[job.index]) then 0 else 1) + |Displaced(job, tiles)|;
    return Score(same, any, touches, rest, moved);
  }

  // ----- choosing

  /** No pair that changed overlaps. Pairs that did not change keep whatever they had. */
  predicate KeepsApart(before: seq<Tile>, tiles: seq<Tile>) {
    && |tiles| == |before|
    && forall i, j :: 0 <= i < j < |tiles| ==>
         (tiles[i] == before[i] && tiles[j] == before[j]) || !Overlaps(tiles[i], tiles[j])
  }

  /** The candidates that are on the canvas and keep tiles apart, in order. */
  function Fitting(job: Job, candidates: seq<Option<seq<Tile>>>): (r: seq<seq<Tile>>)
    ensures forall tiles :: tiles in r <==> Some(tiles) in candidates && KeepsApart(job.before, tiles)
    ensures forall k :: 0 <= k < |r| ==> |r[k]| == |job.before|
  {
    if candidates == [] then []
    else
      var rest := Fitting(job, candidates[..|candidates| - 1]);
      var last := candidates[|candidates| - 1];
      assert candidates == candidates[..|candidates| - 1] + [last];
      if last.Some? && KeepsApart(job.before, last.value) then rest + [last.value] else rest
  }

  /** The first of the best: nothing is better, and all before it are worse. */
  function BestIndex(scores: seq<Score>): (k: nat)
    requires scores != []
    ensures k < |scores|
    ensures forall i :: 0 <= i < |scores| ==> !scores[i].BetterThan(scores[k])
    ensures forall i :: 0 <= i < k ==> scores[k].BetterThan(scores[i])
  {
    var last := |scores| - 1;
    if last == 0 then 0
    else
      var k := BestIndex(scores[..last]);
      if scores[last].BetterThan(scores[k]) then last else k
  }

  function Best(job: Job, fitting: seq<seq<Tile>>): (r: Option<seq<Tile>>)
    requires job.Ok() && forall k :: 0 <= k < |fitting| ==> |fitting[k]| == |job.before|
  {
    if fitting == [] then None
    else
      Some(fitting[BestIndex(Scores(job, fitting))])
  }

  /** Every candidate in the order they are weighed: pushed, slid, placed. */
  ghost function Candidates(job: Job): (r: seq<Option<seq<Tile>>>)
    requires job.Ok()
  {
    seq(4, k requires 0 <= k < 4 => Pushed(job, Corners(job)[k].0, Corners(job)[k].1)) +
    seq(4, k requires 0 <= k < 4 => Slid(job, Corners(job)[k].0, Corners(job)[k].1)) +
    seq(|Spots(job)|, k requires 0 <= k < |Spots(job)| => Placed(job, Spots(job)[k]))
  }

  ghost function Choice(job: Job): Option<seq<Tile>>
    requires job.Ok()
  {
    Best(job, Fitting(job, Candidates(job)))
  }

  method PushCorners(job: Job) returns (pushed: seq<Option<seq<Tile>>>)
    requires job.Ok()
    ensures pushed == seq(4, k requires 0 <= k < 4 => Pushed(job, Corners(job)[k].0, Corners(job)[k].1))
  {
    pushed := [];
    for k := 0 to 4
      invariant |pushed| == k
      invariant forall i :: 0 <= i < k ==> pushed[i] == Pushed(job, Corners(job)[i].0, Corners(job)[i].1)
    {
      var p := Push(job, Corners(job)[k].0, Corners(job)[k].1);
      pushed := pushed + [p];
    }
  }

  method SlideCorners(job: Job) returns (slid: seq<Option<seq<Tile>>>)
    requires job.Ok()
    ensures slid == seq(4, k requires 0 <= k < 4 => Slid(job, Corners(job)[k].0, Corners(job)[k].1))
  {
    slid := [];
    for k := 0 to 4
      invariant |slid| == k
      invariant forall i :: 0 <= i < k ==> slid[i] == Slid(job, Corners(job)[i].0, Corners(job)[i].1)
    {
      var s := SlideAll(job, Corners(job)[k].0, Corners(job)[k].1);
      slid := slid + [s];
    }
  }

  method Gather(job: Job) returns (candidates: seq<Option<seq<Tile>>>)
    requires job.Ok()
    ensures candidates == Candidates(job)
  {
    var pushed := PushCorners(job);
    var slid := SlideCorners(job);
    var spots := Spots(job);
    return pushed + slid + seq(|spots|, k requires 0 <= k < |spots| => Placed(job, spots[k]));
  }

  function Scores(job: Job, fitting: seq<seq<Tile>>): seq<Score>
    requires job.Ok() && forall k :: 0 <= k < |fitting| ==> |fitting[k]| == |job.before|
  {
    seq(|fitting|, k requires 0 <= k < |fitting| => Scored(job, fitting[k]))
  }

  method ScoreAll(job: Job, fitting: seq<seq<Tile>>) returns (scores: seq<Score>)
    requires job.Ok() && forall k :: 0 <= k < |fitting| ==> |fitting[k]| == |job.before|
    ensures scores == Scores(job, fitting)
  {
    scores := [];
    for k := 0 to |fitting|
      invariant |scores| == k
      invariant forall i :: 0 <= i < k ==> scores[i] == Scored(job, fitting[i])
    {
      var score := ScoreTiles(job, fitting[k]);
      scores := scores + [score];
    }
  }

  method Choose(job: Job) returns (r: Option<seq<Tile>>)
    requires job.Ok()
    ensures r == Choice(job)
  {
    var candidates := Gather(job);
    var fitting := Fitting(job, candidates);
    if fitting == [] {
      return None;
    }
    var scores := ScoreAll(job, fitting);
    return Some(fitting[BestIndex(scores)]);
  }

  // ----- the edit

  /** checked_add(1) on a u64 version. */
  function Bumped(version: nat): Option<nat> {
    if version < MAX_U64 then Some(version + 1) else None
  }

  /** `tiles` as the next version of `layout` by `editor`, if that is a layout at all. */
  function Edited(layout: SharedLayout, editor: string, tiles: seq<Tile>): (r: Option<SharedLayout>)
    ensures r.Some? ==> Valid(r.value) && r.value == SharedLayout(layout.version + 1, editor, tiles)
    ensures r.Some? ==> r.value.IsNewerThan(layout)
  {
    var next := SharedLayout(layout.version + 1, editor, tiles);
    if Bumped(layout.version).Some? && Valid(next) then Some(next) else None
  }

  /** The first tile of the computer `key` for the monitor `id`, if it has one. */
  function Find(tiles: seq<Tile>, key: string, id: Option<string>): (r: Option<nat>)
    ensures r.Some? ==> r.value < |tiles| && tiles[r.value].Name() == (key, id)
    ensures r.None? ==> forall i :: 0 <= i < |tiles| ==> tiles[i].Name() != (key, id)
  {
    if tiles == [] then None
    else if tiles[0].Name() == (key, id) then Some(0)
    else
      var r := Find(tiles[1..], key, id);
      if r.Some? then Some(r.value + 1) else None
  }

  function First(tiles: seq<Tile>): Option<Tile> {
    if tiles == [] then None else Some(tiles[0])
  }

  ghost function Resized(layout: SharedLayout, key: string, id: Option<string>, width: nat, height: nat): Option<SharedLayout>
  {
    var at := Find(layout.tiles, key, id);
    if at.None? then
      var spot := FreeSpot(layout.tiles, First(layout.tiles), key, width, height);
      if |layout.tiles| >= MAX_SHARED_TILES || spot.None? then None
      else Edited(layout, key, layout.tiles + [spot.value])
    else if (layout.tiles[at.value].width, layout.tiles[at.value].height) == (width, height) then None
    else
      var choice := Choice(Job(layout.tiles, at.value, width, height));
      if choice.None? then None else Edited(layout, key, choice.value)
  }

  method MakeEdit(layout: SharedLayout, editor: string, tiles: seq<Tile>) returns (r: Option<SharedLayout>)
    ensures r == Edited(layout, editor, tiles)
  {
    var version := Bumped(layout.version);
    if version.None? {
      return None;
    }
    var next := SharedLayout(version.value, editor, tiles);
    var ok := Validate(next);
    return if ok then Some(next) else None;
  }

  method WithDisplaySize(layout: SharedLayout, key: string, id: Option<string>, width: nat, height: nat)
    returns (r: Option<SharedLayout>)
    ensures r == Resized(layout, key, id, width, height)
  {
    var at := Find(layout.tiles, key, id);
    if at.None? {
      var spot := FreeSpot(layout.tiles, First(layout.tiles), key, width, height);
      if |layout.tiles| >= MAX_SHARED_TILES || spot.None? {
        return None;
      }
      r := MakeEdit(layout, key, layout.tiles + [spot.value]);
    } else if (layout.tiles[at.value].width, layout.tiles[at.value].height) == (width, height) {
      r := None;
    } else {
      var choice := Choose(Job(layout.tiles, at.value, width, height));
      if choice.None? {
        return None;
      }
      r := MakeEdit(layout, key, choice.value);
    }
  }
}
