/** What a resize promises, for every layout: it fits, keeps tiles apart, and keeps crossings. */
module ResizeProofs {
  import opened Wrappers
  import opened Basics
  import opened Tiles
  import opened Resize

  // ----- every candidate only moves tiles and gives one its size

  /** `tiles` is `before` with other positions, and the new size for the tile at `index`. */
  predicate OnlyMoved(job: Job, tiles: seq<Tile>)
    requires job.Ok()
  {
    && |tiles| == |job.before|
    && forall i :: 0 <= i < |tiles| ==>
         && tiles[i] == job.before[i].(x := tiles[i].x, y := tiles[i].y, width := tiles[i].width, height := tiles[i].height)
         && (i == job.index ==> (tiles[i].width, tiles[i].height) == (job.width, job.height))
         && (i != job.index ==> (tiles[i].width, tiles[i].height) == (job.before[i].width, job.before[i].height))
         && (tiles[i] == job.before[i] || OnCanvas(tiles[i]))
  }

  lemma MovingOnlyMoves(job: Job, x: int, y: int, moved: set<nat>)
    requires job.Ok() && job.index in moved && Moving(job, x, y, moved).Some?
    ensures OnlyMoved(job, Moving(job, x, y, moved).value)
  {
  }

  lemma PushedOnlyMoves(job: Job, x: int, y: int)
    requires job.Ok() && Pushed(job, x, y).Some?
    ensures OnlyMoved(job, Pushed(job, x, y).value)
  {
    ShovedSettles(job, x, y);
    MovingOnlyMoves(job, x, y, Shoved(job, x, y));
  }

  lemma SlidOnlyMoves(job: Job, x: int, y: int)
    requires job.Ok() && Slid(job, x, y).Some?
    ensures OnlyMoved(job, Slid(job, x, y).value)
  {
    assert IsTile(job, job.index);
    MovingOnlyMoves(job, x, y, Everything(job));
  }

  lemma PlacedOnlyMoves(job: Job, spot: (int, int))
    requires job.Ok() && Placed(job, spot).Some?
    ensures OnlyMoved(job, Placed(job, spot).value)
  {
    MovingOnlyMoves(job, spot.0, spot.1, {job.index});
  }

  lemma CandidatesOnlyMove(job: Job, k: nat)
    requires job.Ok() && k < |Candidates(job)| && Candidates(job)[k].Some?
    ensures OnlyMoved(job, Candidates(job)[k].value)
  {
    if k < 4 {
      PushedOnlyMoves(job, Corners(job)[k].0, Corners(job)[k].1);
    } else if k < 8 {
      SlidOnlyMoves(job, Corners(job)[k - 4].0, Corners(job)[k - 4].1);
    } else {
      PlacedOnlyMoves(job, Spots(job)[k - 8]);
    }
  }

  /** The choice is a candidate that keeps tiles apart, and no such candidate scores better. */
  lemma ChoiceIsBest(job: Job)
    requires job.Ok()
    ensures Choice(job).None? <==> forall tiles :: Some(tiles) in Candidates(job) ==> !KeepsApart(job.before, tiles)
    ensures Choice(job).Some? ==>
      && Some(Choice(job).value) in Candidates(job)
      && OnlyMoved(job, Choice(job).value)
      && KeepsApart(job.before, Choice(job).value)
      && forall tiles :: Some(tiles) in Candidates(job) && KeepsApart(job.before, tiles) ==>
           !Scored(job, tiles).BetterThan(Scored(job, Choice(job).value))
  {
    var fitting := Fitting(job, Candidates(job));
    if fitting == [] {
      forall tiles | Some(tiles) in Candidates(job) ensures !KeepsApart(job.before, tiles) {
        assert tiles !in fitting;
      }
    } else {
      var scores := seq(|fitting|, k requires 0 <= k < |fitting| => Scored(job, fitting[k]));
      var choice := fitting[BestIndex(scores)];
      assert choice in fitting;
      var k :| 0 <= k < |Candidates(job)| && Candidates(job)[k] == Some(choice);
      CandidatesOnlyMove(job, k);
      forall tiles | Some(tiles) in Candidates(job) && KeepsApart(job.before, tiles)
        ensures !Scored(job, tiles).BetterThan(Scored(job, choice))
      {
        assert tiles in fitting;
        var i :| 0 <= i < |fitting| && fitting[i] == tiles;
        assert !scores[i].BetterThan(scores[BestIndex(scores)]);
      }
    }
  }

  /**
   In this order: contacts kept on the same side, then on any side, then
   touching anything, then the others' contacts, and the fewest tiles moved.
   */
  lemma ChoiceRanksFirst(job: Job, tiles: seq<Tile>)
    requires job.Ok() && Some(tiles) in Candidates(job) && KeepsApart(job.before, tiles)
    ensures Choice(job).Some?
    ensures var (c, t) := (Scored(job, Choice(job).value), Scored(job, tiles));
      && t.same <= c.same
      && (t.same == c.same ==> t.any <= c.any)
      && ((t.same, t.any) == (c.same, c.any) ==> (t.touches ==> c.touches))
      && ((t.same, t.any, t.touches) == (c.same, c.any, c.touches) ==> t.rest <= c.rest)
      && ((t.same, t.any, t.touches, t.rest) == (c.same, c.any, c.touches, c.rest) ==> c.moved <= t.moved)
  {
    ChoiceIsBest(job);
  }

  // ----- the spot past all the others always fits

  lemma OthersHold(job: Job, j: nat)
    requires job.Ok() && j < |job.before| && j != job.index
    ensures job.before[j].RightEnd() <= PastAll(job)
  {
    var k := if j < job.index then j else j - 1;
    assert Others(job)[k] == job.before[j];
    assert RightEnds(Others(job))[k] in RightEnds(Others(job));
  }

  lemma PastAllFits(job: Job)
    requires job.Ok() && -MAX_COORDINATE <= PastAll(job) <= MAX_COORDINATE
    requires -MAX_COORDINATE <= job.Old().y <= MAX_COORDINATE
    ensures Choice(job).Some?
  {
    var spot := (PastAll(job), job.Old().y);
    var tiles := Arranged(job, spot.0, spot.1, {job.index});
    var last := |Candidates(job)| - 1;
    assert Spots(job)[|Spots(job)| - 1] == spot;
    assert Candidates(job)[last] == Some(tiles);
    forall i, j | 0 <= i < j < |tiles|
      ensures (tiles[i] == job.before[i] && tiles[j] == job.before[j]) || !Overlaps(tiles[i], tiles[j])
    {
      if i == job.index { OthersHold(job, j); }
      if j == job.index { OthersHold(job, i); }
    }
    assert KeepsApart(job.before, tiles);
    ChoiceIsBest(job);
  }

  // ----- a slide that grows keeps tiles apart and contacts in place

  predicate GrowsFrom(low: int, high: int, at: int, size: nat) {
    at == low || at + size == high
  }

  lemma CornerGrows(job: Job, k: nat)
    requires job.Ok() && k < 4
    ensures GrowsFrom(job.Old().x, job.Old().RightEnd(), Corners(job)[k].0, job.width)
    ensures GrowsFrom(job.Old().y, job.Old().BottomEnd(), Corners(job)[k].1, job.height)
  {
  }

  lemma TargetsApart(job: Job, x: int, y: int, i: nat, j: nat)
    requires job.Ok() && job.Grows() && i < |job.before| && j < |job.before| && i != j
    requires GrowsFrom(job.Old().x, job.Old().RightEnd(), x, job.width)
    requires GrowsFrom(job.Old().y, job.Old().BottomEnd(), y, job.height)
    requires HasArea(job.Old()) && HasArea(job.before[i]) && HasArea(job.before[j])
    requires !Overlaps(job.before[i], job.before[j])
    ensures !Overlaps(Target(job, x, y, i), Target(job, x, y, j))
  {
  }

  lemma TargetKeepsContact(job: Job, x: int, y: int, i: nat, j: nat)
    requires job.Ok() && job.Grows() && i < |job.before| && j < |job.before| && i != j
    requires i == job.index || j == job.index
    requires GrowsFrom(job.Old().x, job.Old().RightEnd(), x, job.width)
    requires GrowsFrom(job.Old().y, job.Old().BottomEnd(), y, job.height)
    requires HasArea(job.before[i]) && HasArea(job.before[j])
    requires Touching(job.before[i], job.before[j]).Some?
    ensures Touching(Target(job, x, y, i), Target(job, x, y, j)) == Touching(job.before[i], job.before[j])
  {
  }

  /** Slid from any corner, growing tiles stay apart and lose none of the resized tile's contacts. */
  lemma SlidFits(job: Job, k: nat)
    requires job.Ok() && job.Grows() && AllHaveArea(job.before) && Apart(job.before) && k < 4
    requires Slid(job, Corners(job)[k].0, Corners(job)[k].1).Some?
    ensures var tiles := Slid(job, Corners(job)[k].0, Corners(job)[k].1).value;
      Apart(tiles) && Count(job, tiles, Same) == Count(job, job.before, Same)
  {
    CornerGrows(job, k);
    var (x, y) := Corners(job)[k];
    var tiles := Slid(job, x, y).value;
    forall i: nat | i < |tiles| ensures tiles[i] == Target(job, x, y, i) {
      assert IsTile(job, i);
    }
    forall i, j | 0 <= i < j < |tiles| ensures !Overlaps(tiles[i], tiles[j]) {
      TargetsApart(job, x, y, i, j);
    }
    var n := |tiles|;
    forall p | p in Reached(n, n, 0)
      ensures Tallied(job, tiles, Same, p.0, p.1) <==> Tallied(job, job.before, Same, p.0, p.1)
    {
      if Tallied(job, job.before, Same, p.0, p.1) {
        TargetKeepsContact(job, x, y, p.0, p.1);
      }
    }
    assert Tally(job, tiles, Same, n, 0) == Tally(job, job.before, Same, n, 0);
  }

  /** The resized tile has kept every contact it had, on the same side. */
  ghost predicate KeepsContacts(job: Job, tiles: seq<Tile>)
    requires job.Ok() && |tiles| == |job.before|
  {
    forall j, side: Edge :: 0 <= j < |tiles| && j != job.index && Touching(job.Old(), job.before[j]) == Some(side) ==>
      Touching(tiles[job.index], tiles[j]) == Some(side)
  }

  /** A candidate that counts as many kept contacts as there were has kept each of them. */
  lemma FullCountKeepsContacts(job: Job, tiles: seq<Tile>)
    requires job.Ok() && |tiles| == |job.before| && AllHaveArea(job.before) && AllHaveArea(tiles)
    requires Count(job, tiles, Same) >= Count(job, job.before, Same)
    ensures KeepsContacts(job, tiles)
  {
    var n := |tiles|;
    SubsetSize(Tally(job, tiles, Same, n, 0), Tally(job, job.before, Same, n, 0));
    forall j, side: Edge | 0 <= j < |tiles| && j != job.index && Touching(job.Old(), job.before[j]) == Some(side)
      ensures Touching(tiles[job.index], tiles[j]) == Some(side)
    {
      TouchingIsMutual(job.Old(), job.before[j]);
      TouchingIsMutual(tiles[job.index], tiles[j]);
      var p: (nat, nat) := if job.index < j then (job.index, j) else (j, job.index);
      assert IsPair(p.0, p.1) && p in Reached(n, n, 0);
      assert p in Tally(job, job.before, Same, n, 0);
    }
  }

  // ----- a slide for any size: each contact stays as long as the two still face each other

  /** Across `side`, the spans of the two share something. */
  predicate Faces(side: Edge, a: Tile, b: Tile) {
    if side.Vertical() then a.y < b.BottomEnd() && a.BottomEnd() > b.y
    else a.x < b.RightEnd() && a.RightEnd() > b.x
  }

  /**
   Wherever the corner goes and whatever the size, a tile that touched slides
   along with the side it touched, and with that side only. So it touches there
   still, unless the two no longer face each other: then not at all.
   */
  lemma SlidContact(job: Job, x: int, y: int, j: nat, side: Edge)
    requires job.Ok() && j < |job.before| && j != job.index && job.width >= 1 && job.height >= 1
    requires HasArea(job.Old()) && HasArea(job.before[j]) && Touching(job.Old(), job.before[j]) == Some(side)
    ensures var (own, other) := (Target(job, x, y, job.index), Target(job, x, y, j));
      && Touching(own, other) == (if Faces(side, own, other) then Some(side) else None)
      && (if side.Vertical() then other.y == job.before[j].y else other.x == job.before[j].x)
  {
  }

  /** Any tile past a side keeps its distance from that side; along an axis on which it is past none it stays. */
  lemma SlidKeepsGaps(job: Job, x: int, y: int, j: nat)
    requires job.Ok() && j < |job.before| && j != job.index && HasArea(job.Old()) && HasArea(job.before[j])
    ensures var (was, other, own, slid) := (job.Old(), job.before[j], Target(job, x, y, job.index), Target(job, x, y, j));
      && (other.x >= was.RightEnd() ==> slid.x - own.RightEnd() == other.x - was.RightEnd())
      && (other.RightEnd() <= was.x ==> own.x - slid.RightEnd() == was.x - other.RightEnd())
      && (other.x < was.RightEnd() && other.RightEnd() > was.x ==> slid.x == other.x)
      && (other.y >= was.BottomEnd() ==> slid.y - own.BottomEnd() == other.y - was.BottomEnd())
      && (other.BottomEnd() <= was.y ==> own.y - slid.BottomEnd() == was.y - other.BottomEnd())
      && (other.y < was.BottomEnd() && other.BottomEnd() > was.y ==> slid.y == other.y)
  {
  }

  /** Keeping every contact on its side is counting as many as there were. */
  lemma KeptContactsCount(job: Job, tiles: seq<Tile>)
    requires job.Ok() && |tiles| == |job.before| && AllHaveArea(job.before) && AllHaveArea(tiles)
    requires KeepsContacts(job, tiles)
    ensures Count(job, tiles, Same) == Count(job, job.before, Same)
  {
    var n := |tiles|;
    forall p | p in Reached(n, n, 0)
      ensures Tallied(job, tiles, Same, p.0, p.1) <==> Tallied(job, job.before, Same, p.0, p.1)
    {
      TouchingIsMutual(job.before[p.0], job.before[p.1]);
      TouchingIsMutual(tiles[p.0], tiles[p.1]);
    }
    assert Tally(job, tiles, Same, n, 0) == Tally(job, job.before, Same, n, 0);
  }

  lemma MovedHaveArea(job: Job, tiles: seq<Tile>)
    requires job.Ok() && AllHaveArea(job.before) && job.width >= 1 && job.height >= 1 && OnlyMoved(job, tiles)
    ensures AllHaveArea(tiles)
  {
    forall i | 0 <= i < |tiles| ensures HasArea(tiles[i]) {
      assert HasArea(job.before[i]);
    }
  }

  /** If any candidate keeps tiles apart and every contact on its side, so does the choice. */
  lemma ChoiceKeepsContacts(job: Job, k: nat)
    requires job.Ok() && AllHaveArea(job.before) && job.width >= 1 && job.height >= 1
    requires k < |Candidates(job)| && Candidates(job)[k].Some? && KeepsApart(job.before, Candidates(job)[k].value)
    requires KeepsContacts(job, Candidates(job)[k].value)
    ensures Choice(job).Some? && KeepsContacts(job, Choice(job).value)
  {
    var tiles := Candidates(job)[k].value;
    CandidatesOnlyMove(job, k);
    MovedHaveArea(job, tiles);
    KeptContactsCount(job, tiles);
    ChoiceIsBest(job);
    var choice := Choice(job).value;
    MovedHaveArea(job, choice);
    ChoiceRanksFirst(job, tiles);
    FullCountKeepsContacts(job, choice);
  }

  /** Slid from corner `k`, every tile it touched still faces it. */
  ghost predicate AllFace(job: Job, k: nat)
    requires job.Ok() && k < 4
  {
    var (x, y) := Corners(job)[k];
    forall j: nat, side: Edge :: j < |job.before| && j != job.index && Touching(job.Old(), job.before[j]) == Some(side) ==>
      Faces(side, Target(job, x, y, job.index), Target(job, x, y, j))
  }

  lemma SlidKeepsContacts(job: Job, k: nat)
    requires job.Ok() && AllHaveArea(job.before) && job.width >= 1 && job.height >= 1 && k < 4 && AllFace(job, k)
    requires Slid(job, Corners(job)[k].0, Corners(job)[k].1).Some?
    ensures KeepsContacts(job, Slid(job, Corners(job)[k].0, Corners(job)[k].1).value)
  {
    var (x, y) := Corners(job)[k];
    var tiles := Slid(job, x, y).value;
    forall i: nat | i < |tiles| ensures tiles[i] == Target(job, x, y, i) {
      assert IsTile(job, i);
    }
    forall j, side: Edge | 0 <= j < |tiles| && j != job.index && Touching(job.Old(), job.before[j]) == Some(side)
      ensures Touching(tiles[job.index], tiles[j]) == Some(side)
    {
      SlidContact(job, x, y, j, side);
    }
  }

  /**
   A resize to any size keeps crossings: when some slide stays on the canvas,
   keeps tiles apart and leaves every tile that touched facing the resized one,
   whatever is returned keeps every contact on its side.
   */
  lemma FacingKeepsCrossings(layout: SharedLayout, key: string, id: Option<string>, width: nat, height: nat, corner: nat)
    requires AllHaveArea(layout.tiles) && Find(layout.tiles, key, id).Some? && corner < 4
    requires var job := Job(layout.tiles, Find(layout.tiles, key, id).value, width, height);
      && Slid(job, Corners(job)[corner].0, Corners(job)[corner].1).Some?
      && KeepsApart(layout.tiles, Slid(job, Corners(job)[corner].0, Corners(job)[corner].1).value)
      && AllFace(job, corner)
    ensures var job := Job(layout.tiles, Find(layout.tiles, key, id).value, width, height);
      var next := Resized(layout, key, id, width, height);
      next.Some? ==> |next.value.tiles| == |job.before| && KeepsContacts(job, next.value.tiles)
  {
    var job := Job(layout.tiles, Find(layout.tiles, key, id).value, width, height);
    var next := Resized(layout, key, id, width, height);
    if next.Some? {
      ChoiceIsBest(job);
      assert SoundTile(next.value.tiles[job.index]);
      SlidKeepsContacts(job, corner);
      assert Candidates(job)[4 + corner] == Slid(job, Corners(job)[corner].0, Corners(job)[corner].1);
      ChoiceKeepsContacts(job, 4 + corner);
    }
  }

  /** Only the extent across the touched sides changes: all contacts are left or right and the height stays, or the other way round. */
  ghost predicate AlongContacts(job: Job)
    requires job.Ok()
  {
    || (job.height == job.Old().height
        && forall j :: 0 <= j < |job.before| && j != job.index && Touching(job.Old(), job.before[j]).Some? ==>
             Touching(job.Old(), job.before[j]).value.Vertical())
    || (job.width == job.Old().width
        && forall j :: 0 <= j < |job.before| && j != job.index && Touching(job.Old(), job.before[j]).Some? ==>
             !Touching(job.Old(), job.before[j]).value.Vertical())
  }

  lemma AlongStillFace(job: Job, k: nat)
    requires job.Ok() && AllHaveArea(job.before) && AlongContacts(job) && k < 4
    ensures AllFace(job, k)
  {
    var (x, y) := Corners(job)[k];
    CornerGrows(job, k);
    forall j: nat, side: Edge | j < |job.before| && j != job.index && Touching(job.Old(), job.before[j]) == Some(side)
      ensures Faces(side, Target(job, x, y, job.index), Target(job, x, y, j))
    {
      assert HasArea(job.Old()) && HasArea(job.before[j]);
      FacesAlong(job, x, y, j, side);
    }
  }

  lemma FacesAlong(job: Job, x: int, y: int, j: nat, side: Edge)
    requires job.Ok() && j < |job.before| && j != job.index
    requires HasArea(job.Old()) && HasArea(job.before[j]) && Touching(job.Old(), job.before[j]) == Some(side)
    requires if side.Vertical() then y == job.Old().y && job.height == job.Old().height
             else x == job.Old().x && job.width == job.Old().width
    ensures Faces(side, Target(job, x, y, job.index), Target(job, x, y, j))
  {
  }

  /** So in a row or a column, growing or shrinking along it loses no crossing while some slide fits. */
  lemma RowKeepsCrossings(layout: SharedLayout, key: string, id: Option<string>, width: nat, height: nat, corner: nat)
    requires AllHaveArea(layout.tiles) && Find(layout.tiles, key, id).Some? && corner < 4
    requires var job := Job(layout.tiles, Find(layout.tiles, key, id).value, width, height);
      && AlongContacts(job)
      && Slid(job, Corners(job)[corner].0, Corners(job)[corner].1).Some?
      && KeepsApart(layout.tiles, Slid(job, Corners(job)[corner].0, Corners(job)[corner].1).value)
    ensures var job := Job(layout.tiles, Find(layout.tiles, key, id).value, width, height);
      var next := Resized(layout, key, id, width, height);
      next.Some? ==> |next.value.tiles| == |job.before| && KeepsContacts(job, next.value.tiles)
  {
    AlongStillFace(Job(layout.tiles, Find(layout.tiles, key, id).value, width, height), corner);
    FacingKeepsCrossings(layout, key, id, width, height, corner);
  }

  /** The four corners tried are all the ways to keep one. */
  lemma CornersExactly(job: Job, tile: Tile)
    requires job.Ok()
    ensures KeepsCorner(job, tile) <==> (tile.x, tile.y) in Corners(job)
    ensures KeepsCorner(job, tile) <==>
      exists right: bool, bottom: bool :: KeptCorner(job, tile, right, bottom)
  {
    var was := job.Old();
    if KeepsCorner(job, tile) {
      assert KeptCorner(job, tile, tile.x != was.x, tile.y != was.y);
      var (right, bottom) := (was.RightEnd() - job.width, was.BottomEnd() - job.height);
      assert Corners(job)[0] == (was.x, was.y) && Corners(job)[1] == (right, was.y);
      assert Corners(job)[2] == (was.x, bottom) && Corners(job)[3] == (right, bottom);
    }
  }

  /** The tile at its new size has this corner where the old one had it. */
  predicate KeptCorner(job: Job, tile: Tile, right: bool, bottom: bool)
    requires job.Ok()
  {
    && (if right then tile.x + job.width == job.Old().RightEnd() else tile.x == job.Old().x)
    && (if bottom then tile.y + job.height == job.Old().BottomEnd() else tile.y == job.Old().y)
  }

  /** A tile other than the resized one changed its place. */
  predicate Shifts(job: Job, tiles: seq<Tile>, i: nat)
    requires job.Ok() && |tiles| == |job.before|
  {
    i < |tiles| && i != job.index && (tiles[i].x != job.before[i].x || tiles[i].y != job.before[i].y)
  }

  /** The two last parts of the score: whether it touched and touches anything, and how many tiles moved. */
  lemma ScoreSays(job: Job, tiles: seq<Tile>)
    requires job.Ok() && |tiles| == |job.before|
    ensures var score := Scored(job, tiles);
      && (score.touches <==>
            (exists j :: 0 <= j < |tiles| && j != job.index && Touching(job.Old(), job.before[j]).Some?)
            && (exists j :: 0 <= j < |tiles| && j != job.index && Touching(tiles[job.index], tiles[j]).Some?))
      && score.moved == |set i: nat | i < |tiles| && Shifts(job, tiles, i)|
                        + (if (tiles[job.index].x, tiles[job.index].y) in Corners(job) then 0 else 1)
  {
    CornersExactly(job, tiles[job.index]);
    assert Displaced(job, tiles) == set i: nat | i < |tiles| && Shifts(job, tiles, i);
  }

  /** Two tiles that touched, the resized one among them or not. */
  predicate Touched(job: Job, i: nat, j: nat, own: bool) {
    i < j < |job.before| && Touching(job.before[i], job.before[j]).Some? && (own <==> i == job.index || j == job.index)
  }

  predicate KeptSide(job: Job, tiles: seq<Tile>, i: nat, j: nat)
    requires |tiles| == |job.before| && i < |tiles| && j < |tiles|
  {
    Touching(tiles[i], tiles[j]) == Touching(job.before[i], job.before[j])
  }

  /** Its first parts count pairs that touched: with the resized tile, on the same side and on any; without it, on the same side. */
  lemma ScoreCounts(job: Job, tiles: seq<Tile>)
    requires job.Ok() && |tiles| == |job.before|
    ensures var score := Scored(job, tiles);
      && score.same == |set i: nat, j: nat | i < |tiles| && j < |tiles| && Touched(job, i, j, true) && KeptSide(job, tiles, i, j) :: (i, j)|
      && score.any == |set i: nat, j: nat | i < |tiles| && j < |tiles| && Touched(job, i, j, true) && Touching(tiles[i], tiles[j]).Some? :: (i, j)|
      && score.rest == |set i: nat, j: nat | i < |tiles| && j < |tiles| && Touched(job, i, j, false) && KeptSide(job, tiles, i, j) :: (i, j)|
  {
    SameCounts(job, tiles);
    AnyCounts(job, tiles);
    RestCounts(job, tiles);
  }

  lemma AllReached(n: nat, i: nat, j: nat)
    ensures (i, j) in Reached(n, n, 0) <==> i < j < n
  {
    assert IsPair(i, j) <==> i < j;
  }

  lemma SameCounts(job: Job, tiles: seq<Tile>)
    requires job.Ok() && |tiles| == |job.before|
    ensures Count(job, tiles, Same) ==
      |set i: nat, j: nat | i < |tiles| && j < |tiles| && Touched(job, i, j, true) && KeptSide(job, tiles, i, j) :: (i, j)|
  {
    forall i: nat, j: nat ensures (i, j) in Reached(|tiles|, |tiles|, 0) <==> i < j < |tiles| { AllReached(|tiles|, i, j); }
    assert Tally(job, tiles, Same, |tiles|, 0) ==
      set i: nat, j: nat | i < |tiles| && j < |tiles| && Touched(job, i, j, true) && KeptSide(job, tiles, i, j) :: (i, j);
  }

  lemma AnyCounts(job: Job, tiles: seq<Tile>)
    requires job.Ok() && |tiles| == |job.before|
    ensures Count(job, tiles, Any) ==
      |set i: nat, j: nat | i < |tiles| && j < |tiles| && Touched(job, i, j, true) && Touching(tiles[i], tiles[j]).Some? :: (i, j)|
  {
    forall i: nat, j: nat ensures (i, j) in Reached(|tiles|, |tiles|, 0) <==> i < j < |tiles| { AllReached(|tiles|, i, j); }
    assert Tally(job, tiles, Any, |tiles|, 0) ==
      set i: nat, j: nat | i < |tiles| && j < |tiles| && Touched(job, i, j, true) && Touching(tiles[i], tiles[j]).Some? :: (i, j);
  }

  lemma RestCounts(job: Job, tiles: seq<Tile>)
    requires job.Ok() && |tiles| == |job.before|
    ensures Count(job, tiles, Rest) ==
      |set i: nat, j: nat | i < |tiles| && j < |tiles| && Touched(job, i, j, false) && KeptSide(job, tiles, i, j) :: (i, j)|
  {
    forall i: nat, j: nat ensures (i, j) in Reached(|tiles|, |tiles|, 0) <==> i < j < |tiles| { AllReached(|tiles|, i, j); }
    assert Tally(job, tiles, Rest, |tiles|, 0) ==
      set i: nat, j: nat | i < |tiles| && j < |tiles| && Touched(job, i, j, false) && KeptSide(job, tiles, i, j) :: (i, j);
  }

  lemma {:induction false} BesideEachHas(others: seq<Tile>, w: nat, h: nat, j: nat, side: Edge)
    requires j < |others|
    ensures Beside(others[j], w, h)[Rank(side)] in BesideEach(others, w, h)
  {
    if j > 0 {
      BesideEachHas(others[1..], w, h, j - 1, side);
    }
  }

  /** The resized tile lined up against a side of another one, which like all the rest stays where it is. */
  predicate PutBeside(job: Job, tiles: seq<Tile>, j: nat, side: Edge)
    requires job.Ok()
  {
    && |tiles| == |job.before| && j < |tiles| && j != job.index
    && (forall i :: 0 <= i < |tiles| && i != job.index ==> tiles[i] == job.before[i])
    && tiles[job.index] == job.Old().(x := tiles[job.index].x, y := tiles[job.index].y, width := job.width, height := job.height)
    && LinedUp(job.before[j], tiles[job.index], side) && OnCanvas(tiles[job.index])
  }

  /** With no other way, it goes beside any tile where there is room: every such spot is tried. */
  lemma BesideIsTried(job: Job, tiles: seq<Tile>, j: nat, side: Edge)
    requires job.Ok() && PutBeside(job, tiles, j, side) && HasArea(job.before[j]) && job.width >= 1 && job.height >= 1
    ensures Some(tiles) in Candidates(job)
    ensures KeepsApart(job.before, tiles) ==> Choice(job).Some?
  {
    var (t, others) := (tiles[job.index], Others(job));
    var at: nat := if j < job.index then j else j - 1;
    assert others[at] == job.before[j];
    BesideIsLinedUp(job.before[j], t, side);
    BesideEachHas(others, job.width, job.height, at, side);
    var spots := BesideEach(others, job.width, job.height);
    var k: nat :| k < |spots| && spots[k] == (t.x, t.y);
    assert Spots(job)[k] == (t.x, t.y);
    assert Placed(job, (t.x, t.y)) == Some(tiles) by {
      assert Arranged(job, t.x, t.y, {job.index}) == tiles;
    }
    assert Candidates(job)[8 + k] == Some(tiles);
    ChoiceIsBest(job);
  }

  // ----- the theorems, about the edit itself

  /** Whatever a resize returns keeps tiles apart, and only moves tiles besides giving one its size. */
  lemma ResizeKeepsApart(layout: SharedLayout, key: string, id: Option<string>, width: nat, height: nat)
    requires Resized(layout, key, id, width, height).Some?
    ensures var next := Resized(layout, key, id, width, height).value;
      && Valid(next) && next.IsNewerThan(layout) && next.editor == key
      && (Apart(layout.tiles) ==> Apart(next.tiles))
      && match Find(layout.tiles, key, id)
         case Some(at) => OnlyMoved(Job(layout.tiles, at, width, height), next.tiles)
         case None =>
           && |next.tiles| == |layout.tiles| + 1 && layout.tiles < next.tiles
           && var t := next.tiles[|layout.tiles|]; t == Tile(key, None, t.x, t.y, width, height)
  {
    var at := Find(layout.tiles, key, id);
    var next := Resized(layout, key, id, width, height).value;
    if at.Some? {
      ChoiceIsBest(Job(layout.tiles, at.value, width, height));
    } else {
      var spot := FreeSpot(layout.tiles, First(layout.tiles), key, width, height).value;
      forall i, j | Apart(layout.tiles) && 0 <= i < j < |next.tiles| ensures !Overlaps(next.tiles[i], next.tiles[j]) {
        assert Clear(spot, layout.tiles);
      }
    }
  }

  lemma GrowingChoiceKeepsContacts(job: Job, corner: nat)
    requires job.Ok() && job.Grows() && AllHaveArea(job.before) && Apart(job.before) && corner < 4
    requires Slid(job, Corners(job)[corner].0, Corners(job)[corner].1).Some?
    ensures Choice(job).Some? && KeepsContacts(job, Choice(job).value)
  {
    var slid := Slid(job, Corners(job)[corner].0, Corners(job)[corner].1).value;
    assert HasArea(job.Old());
    SlidFits(job, corner);
    assert Candidates(job)[4 + corner] == Some(slid);
    CandidatesOnlyMove(job, 4 + corner);
    MovedHaveArea(job, slid);
    FullCountKeepsContacts(job, slid);
    ChoiceKeepsContacts(job, 4 + corner);
  }

  /**
   Growing keeps crossings: when tiles are apart, the new size is no smaller
   either way, and some slide stays on the canvas, the resized tile keeps every
   contact it had, on the same side.
   */
  lemma GrowingKeepsCrossings(layout: SharedLayout, key: string, id: Option<string>, width: nat, height: nat, corner: nat)
    requires AllHaveArea(layout.tiles) && Apart(layout.tiles)
    requires Find(layout.tiles, key, id).Some? && corner < 4
    requires var job := Job(layout.tiles, Find(layout.tiles, key, id).value, width, height);
      job.Grows() && Slid(job, Corners(job)[corner].0, Corners(job)[corner].1).Some?
    ensures var job := Job(layout.tiles, Find(layout.tiles, key, id).value, width, height);
      var next := Resized(layout, key, id, width, height);
      next.Some? ==> |next.value.tiles| == |job.before| && KeepsContacts(job, next.value.tiles)
  {
    GrowingChoiceKeepsContacts(Job(layout.tiles, Find(layout.tiles, key, id).value, width, height), corner);
  }

  lemma MovedIsSound(job: Job, tiles: seq<Tile>, layout: SharedLayout, key: string)
    requires job.Ok() && layout.tiles == job.before && OnlyMoved(job, tiles) && Valid(layout)
    requires 1 <= job.width <= MAX_DIMENSION && 1 <= job.height <= MAX_DIMENSION
    requires layout.version < MAX_TOKEN && job.Old().key == key
    ensures Edited(layout, key, tiles).Some?
  {
    forall i, j | 0 <= i < j < |tiles| ensures tiles[i].Name() != tiles[j].Name() {
      assert job.before[i].Name() != job.before[j].Name();
    }
    forall i | 0 <= i < |tiles| ensures SoundTile(tiles[i]) {
      assert SoundTile(job.before[i]);
    }
  }

  /**
   A resize of a valid layout's tile to another valid size gives a layout
   exactly when the version can still be raised and some candidate keeps tiles
   apart, and one always does while the right end of all the other tiles is on
   the canvas.
   */
  lemma ResizeFits(layout: SharedLayout, key: string, id: Option<string>, width: nat, height: nat)
    requires Valid(layout) && Find(layout.tiles, key, id).Some?
    requires 1 <= width <= MAX_DIMENSION && 1 <= height <= MAX_DIMENSION
    requires var t := layout.tiles[Find(layout.tiles, key, id).value]; (t.width, t.height) != (width, height)
    ensures var job := Job(layout.tiles, Find(layout.tiles, key, id).value, width, height);
      && (Resized(layout, key, id, width, height).Some? <==>
          layout.version < MAX_TOKEN
          && exists tiles :: Some(tiles) in Candidates(job) && KeepsApart(job.before, tiles))
      && (layout.version < MAX_TOKEN && -MAX_COORDINATE <= PastAll(job) <= MAX_COORDINATE ==>
          Resized(layout, key, id, width, height).Some?)
  {
    var job := Job(layout.tiles, Find(layout.tiles, key, id).value, width, height);
    ChoiceIsBest(job);
    if Choice(job).Some? && layout.version < MAX_TOKEN {
      MovedIsSound(job, Choice(job).value, layout, key);
    }
    if -MAX_COORDINATE <= PastAll(job) <= MAX_COORDINATE {
      assert SoundTile(job.Old());
      PastAllFits(job);
    }
  }

  /** The size it has already is no edit. */
  lemma SameSizeIsNoEdit(layout: SharedLayout, key: string, id: Option<string>, width: nat, height: nat)
    requires Find(layout.tiles, key, id).Some?
    requires var t := layout.tiles[Find(layout.tiles, key, id).value]; (t.width, t.height) == (width, height)
    ensures Resized(layout, key, id, width, height) == None
  {
  }

  /** A tile added to a layout that is valid keeps it so exactly when it is sound itself and its name is new. */
  lemma AddedTileIsSound(layout: SharedLayout, key: string, t: Tile)
    requires Valid(layout) && |layout.tiles| < MAX_SHARED_TILES && t.key == key && OnCanvas(t) && t.display.None?
    ensures Edited(layout, key, layout.tiles + [t]).Some? <==>
      layout.version < MAX_TOKEN && IsFingerprint(key) && 1 <= t.width <= MAX_DIMENSION && 1 <= t.height <= MAX_DIMENSION
      && Find(layout.tiles, key, None).None?
  {
    var all := layout.tiles + [t];
    assert all[|layout.tiles|] == t;
    forall i | 0 <= i < |layout.tiles| ensures SoundTile(all[i]) { assert SoundTile(layout.tiles[i]); }
    if Find(layout.tiles, key, None).Some? {
      assert all[Find(layout.tiles, key, None).value].Name() == t.Name();
    }
    forall i, j | 0 <= i < j < |layout.tiles| ensures all[i].Name() != all[j].Name() {
      assert layout.tiles[i].Name() != layout.tiles[j].Name();
    }
  }

  /**
   A computer without that tile gets one exactly when there is room and a spot
   for it, its key and size are valid and the version can be raised: right of
   the first tile where there is room, else left, below, above or past all.
   */
  lemma MissingTileIsAdded(layout: SharedLayout, key: string, id: Option<string>, width: nat, height: nat)
    requires Valid(layout) && Find(layout.tiles, key, id).None?
    ensures var (next, anchor) := (Resized(layout, key, id, width, height), First(layout.tiles));
      && (next.Some? <==>
          (|layout.tiles| < MAX_SHARED_TILES && FreeSpot(layout.tiles, anchor, key, width, height).Some?
           && layout.version < MAX_TOKEN && IsFingerprint(key) && Find(layout.tiles, key, None).None?
           && 1 <= width <= MAX_DIMENSION && 1 <= height <= MAX_DIMENSION))
      && (next.Some? && layout.tiles != [] ==>
            |next.value.tiles| == |layout.tiles| + 1 && FirstRoom(layout.tiles[0], next.value.tiles[|layout.tiles|], layout.tiles))
  {
    var spot := FreeSpot(layout.tiles, First(layout.tiles), key, width, height);
    if spot.Some? && |layout.tiles| < MAX_SHARED_TILES {
      AddedTileIsSound(layout, key, spot.value);
      if layout.tiles != [] && width >= 1 && height >= 1 {
        assert SoundTile(layout.tiles[0]);
        FreeSpotIsFirst(layout.tiles, layout.tiles[0], key, width, height);
      }
    }
  }
}
