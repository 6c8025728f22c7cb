/**
 The arrangement every paired computer keeps (src/desktop.rs): rectangles keyed
 by a computer's key fingerprint, with the stamp of the edit that made them.
 Source integers are i32 and u32 and every sum is taken in i64, so unbounded
 integers compute the same values.
 */
module Tiles {
  import opened Wrappers
  import opened Basics

  const MAX_COORDINATE := 100_000
  const MAX_DIMENSION := 16_384
  const MAX_SHARED_TILES := 32
  const MAX_TOKEN := 9_007_199_254_740_991
  const MAX_U64 := 0xFFFF_FFFF_FFFF_FFFF

  datatype Edge = Left | Right | Top | Bottom {
    function Opposite(): Edge {
      match this
      case Left => Right
      case Right => Left
      case Top => Bottom
      case Bottom => Top
    }

    predicate Vertical() { Left? || Right? }

    /** The edges where the two ends of this one lie. */
    function First(): Edge { if Vertical() then Top else Left }
    function Last(): Edge { if Vertical() then Bottom else Right }

    predicate Lesser() { Left? || Top? }
  }

  /** A monitor's identity. `sound` is what Display::validate answers for it. */
  datatype Display = Display(id: string, sound: bool)

  datatype Tile = Tile(key: string, display: Option<Display>, x: int, y: int, width: nat, height: nat) {
    function RightEnd(): int { x + width }
    function BottomEnd(): int { y + height }

    /** What identifies a tile: its computer, and the monitor on it if any. */
    function Name(): (string, Option<string>) {
      (key, if display.Some? then Some(display.value.id) else None)
    }
  }

  datatype SharedLayout = SharedLayout(version: nat, editor: string, tiles: seq<Tile>) {
    /** Tuple order of (version, editor), as is_newer_than compares them. */
    predicate IsNewerThan(other: SharedLayout) {
      version > other.version || (version == other.version && StringLess(other.editor, editor))
    }
  }

  /** Strict lexicographic order of strings. */
  predicate StringLess(a: string, b: string) {
    b != [] && (a == [] || a[0] < b[0] || (a[0] == b[0] && StringLess(a[1..], b[1..])))
  }

  // ----- geometry of two tiles

  /** After `k` characters in common, `a` ends or has the smaller one. */
  predicate LessAt(a: string, b: string, k: nat) {
    k <= |a| && k < |b| && a[..k] == b[..k] && (k == |a| || a[k] < b[k])
  }

  lemma {:induction false} StringLessExactly(a: string, b: string)
    ensures StringLess(a, b) <==> exists k: nat :: LessAt(a, b, k)
  {
    if b != [] && a != [] && a[0] == b[0] {
      StringLessExactly(a[1..], b[1..]);
      if k: nat :| LessAt(a[1..], b[1..], k) {
        assert a[..k + 1] == [a[0]] + a[1..][..k] && b[..k + 1] == [b[0]] + b[1..][..k];
        assert LessAt(a, b, k + 1);
      }
      if k: nat :| LessAt(a, b, k) {
        assert k > 0 && a[..k][1..] == a[1..][..k - 1] && b[..k][1..] == b[1..][..k - 1];
        assert LessAt(a[1..], b[1..], k - 1);
      }
    } else {
      if StringLess(a, b) { assert LessAt(a, b, 0); }
      forall k: nat | LessAt(a, b, k) ensures StringLess(a, b) {
        if k > 0 { SameHead(a, b, k); }
      }
    }
  }

  lemma SameHead(a: string, b: string, k: nat)
    requires LessAt(a, b, k) && k > 0
    ensures a != [] && b != [] && a[0] == b[0]
  {
    assert a[..k][0] == a[0] && b[..k][0] == b[0];
  }

  predicate Overlaps(a: Tile, b: Tile) {
    a.x < b.RightEnd() && a.RightEnd() > b.x && a.y < b.BottomEnd() && a.BottomEnd() > b.y
  }

  /** The side of `a` that `b` shares part of, if any. */
  function Touching(a: Tile, b: Tile): Option<Edge> {
    var beside := a.y < b.BottomEnd() && a.BottomEnd() > b.y;
    var stacked := a.x < b.RightEnd() && a.RightEnd() > b.x;
    if beside && a.RightEnd() == b.x then Some(Right)
    else if beside && b.RightEnd() == a.x then Some(Left)
    else if stacked && a.BottomEnd() == b.y then Some(Bottom)
    else if stacked && b.BottomEnd() == a.y then Some(Top)
    else None
  }

  predicate HasArea(t: Tile) {
    t.width >= 1 && t.height >= 1
  }

  predicate AllHaveArea(tiles: seq<Tile>) {
    forall i :: 0 <= i < |tiles| ==> HasArea(tiles[i])
  }

  predicate Apart(tiles: seq<Tile>) {
    forall i, j :: 0 <= i < j < |tiles| ==> !Overlaps(tiles[i], tiles[j])
  }

  /** Contact and overlap exclude each other, and contact reads alike from both sides. */
  lemma TouchingIsMutual(a: Tile, b: Tile)
    requires HasArea(a) && HasArea(b)
    ensures Touching(a, b).Some? ==> !Overlaps(a, b)
    ensures forall side: Edge :: Touching(a, b) == Some(side) <==> Touching(b, a) == Some(side.Opposite())
  {
  }

  // ----- moving a tile

  predicate OnCanvas(t: Tile) {
    -MAX_COORDINATE <= t.x <= MAX_COORDINATE && -MAX_COORDINATE <= t.y <= MAX_COORDINATE
  }

  /** `t` moved by (dx, dy). None when that is off the canvas. */
  function Shifted(t: Tile, dx: int, dy: int): Option<Tile> {
    var moved := t.(x := t.x + dx, y := t.y + dy);
    if OnCanvas(moved) then Some(moved) else None
  }

  /** Where a tile of size (w, h) goes against each side of `anchor`. */
  function Beside(anchor: Tile, w: int, h: int): (r: seq<(int, int)>)
    ensures |r| == 4
  {
    [(anchor.RightEnd(), anchor.y), (anchor.x - w, anchor.y),
     (anchor.x, anchor.BottomEnd()), (anchor.x, anchor.y - h)]
  }

  /** The largest of `ends`, or 0 when there is none. */
  function MaxOr0(ends: seq<int>): (r: int)
    ensures forall e :: e in ends ==> e <= r
    ensures if ends == [] then r == 0 else r in ends
  {
    if ends == [] then 0
    else if |ends| == 1 then ends[0]
    else
      assert ends == ends[..|ends| - 1] + [ends[|ends| - 1]];
      var rest := MaxOr0(ends[..|ends| - 1]);
      if ends[|ends| - 1] >= rest then ends[|ends| - 1] else rest
  }

  function RightEnds(tiles: seq<Tile>): (r: seq<int>)
    ensures |r| == |tiles|
    ensures forall i :: 0 <= i < |tiles| ==> r[i] == tiles[i].RightEnd()
  {
    seq(|tiles|, i requires 0 <= i < |tiles| => tiles[i].RightEnd())
  }

  predicate Clear(t: Tile, tiles: seq<Tile>) {
    forall i :: 0 <= i < |tiles| ==> !Overlaps(t, tiles[i])
  }

  /** The first of `spots` where `tile` is on the canvas and clear of `tiles`. */
  function FirstClear(tile: Tile, spots: seq<(int, int)>, tiles: seq<Tile>): (r: Option<Tile>)
    ensures r.Some? ==> OnCanvas(r.value) && Clear(r.value, tiles)
    ensures r.Some? ==> exists k :: 0 <= k < |spots| && r.value == tile.(x := tile.x + spots[k].0, y := tile.y + spots[k].1)
    ensures r.None? ==> forall k :: 0 <= k < |spots| ==>
      var at := tile.(x := tile.x + spots[k].0, y := tile.y + spots[k].1);
      !OnCanvas(at) || !Clear(at, tiles)
  {
    if spots == [] then None
    else
      var at := Shifted(tile, spots[0].0, spots[0].1);
      if at.Some? && Clear(at.value, tiles) then at else FirstClear(tile, spots[1..], tiles)
  }

  /**
   Where a new tile goes among `tiles`: beside `anchor` where there is room,
   else to the right of all of them. The spot past everything is never taken,
   so there is no answer only when that spot is off the canvas.
   */
  function FreeSpot(tiles: seq<Tile>, anchor: Option<Tile>, key: string, width: nat, height: nat): (r: Option<Tile>)
    ensures r.Some? ==> OnCanvas(r.value) && Clear(r.value, tiles)
    ensures r.Some? ==> r.value == Tile(key, None, r.value.x, r.value.y, width, height)
    ensures r.Some? && anchor.Some? && width >= 1 && height >= 1 && HasArea(anchor.value) ==>
      Touching(anchor.value, r.value).Some? || r.value.x == MaxOr0(RightEnds(tiles))
    ensures r.None? ==>
      var row := if anchor.Some? then anchor.value.y else 0;
      !OnCanvas(Tile(key, None, MaxOr0(RightEnds(tiles)), row, width, height))
  {
    var tile := Tile(key, None, 0, 0, width, height);
    var past := (MaxOr0(RightEnds(tiles)), if anchor.Some? then anchor.value.y else 0);
    var spots := (if anchor.Some? then Beside(anchor.value, width, height) else []) + [past];
    var r := FirstClear(tile, spots, tiles);
    assert spots[|spots| - 1] == past;
    assert Clear(tile.(x := tile.x + past.0, y := tile.y + past.1), tiles) by {
      forall i | 0 <= i < |tiles| ensures !Overlaps(tile.(x := tile.x + past.0, y := tile.y + past.1), tiles[i]) {
        assert RightEnds(tiles)[i] in RightEnds(tiles);
      }
    }
    r
  }

  /** `t` is against this side of `anchor`, lined up with its top or left. */
  predicate LinedUp(anchor: Tile, t: Tile, side: Edge) {
    Touching(anchor, t) == Some(side) && (if side.Vertical() then t.y == anchor.y else t.x == anchor.x)
  }

  /** The sides in the order they are tried. */
  function Rank(side: Edge): nat {
    match side
    case Right => 0
    case Left => 1
    case Bottom => 2
    case Top => 3
  }

  predicate Fits(t: Tile, tiles: seq<Tile>) {
    OnCanvas(t) && Clear(t, tiles)
  }

  lemma BesideIsLinedUp(anchor: Tile, t: Tile, side: Edge)
    requires HasArea(anchor) && HasArea(t)
    ensures LinedUp(anchor, t, side) <==> Beside(anchor, t.width, t.height)[Rank(side)] == (t.x, t.y)
  {
  }

  /** No tile of this name and size fits against the side. */
  ghost predicate NoRoom(anchor: Tile, like: Tile, side: Edge, tiles: seq<Tile>) {
    forall x, y :: LinedUp(anchor, like.(x := x, y := y), side) ==> !Fits(like.(x := x, y := y), tiles)
  }

  lemma NoRoomAt(anchor: Tile, like: Tile, side: Edge, tiles: seq<Tile>)
    requires HasArea(anchor) && HasArea(like)
    requires var spot := Beside(anchor, like.width, like.height)[Rank(side)]; !Fits(like.(x := spot.0, y := spot.1), tiles)
    ensures NoRoom(anchor, like, side, tiles)
  {
    forall x, y | LinedUp(anchor, like.(x := x, y := y), side) ensures !Fits(like.(x := x, y := y), tiles) {
      BesideIsLinedUp(anchor, like.(x := x, y := y), side);
    }
  }

  /** Right of the anchor where there is room, else left, else below, else above, else past everything in its row. */
  ghost predicate FirstRoom(anchor: Tile, t: Tile, tiles: seq<Tile>) {
    && Fits(t, tiles)
    && ((exists side :: LinedUp(anchor, t, side) && forall better: Edge :: Rank(better) < Rank(side) ==> NoRoom(anchor, t, better, tiles))
        || (t.x == MaxOr0(RightEnds(tiles)) && t.y == anchor.y && forall side: Edge :: NoRoom(anchor, t, side, tiles)))
  }

  lemma FreeSpotIsFirst(tiles: seq<Tile>, anchor: Tile, key: string, width: nat, height: nat)
    requires HasArea(anchor) && width >= 1 && height >= 1 && FreeSpot(tiles, Some(anchor), key, width, height).Some?
    ensures FirstRoom(anchor, FreeSpot(tiles, Some(anchor), key, width, height).value, tiles)
  {
    var tile := Tile(key, None, 0, 0, width, height);
    var spots := Beside(anchor, width, height) + [(MaxOr0(RightEnds(tiles)), anchor.y)];
    var t := FreeSpot(tiles, Some(anchor), key, width, height).value;
    var k: nat := FirstClearIndex(tile, spots, tiles);
    forall side: Edge | Rank(side) < k ensures NoRoom(anchor, t, side, tiles) {
      assert spots[Rank(side)] == Beside(anchor, width, height)[Rank(side)];
      NoRoomAt(anchor, t, side, tiles);
    }
    if k < 4 {
      var side := if k == 0 then Right else if k == 1 then Left else if k == 2 then Bottom else Top;
      BesideIsLinedUp(anchor, t, side);
      assert LinedUp(anchor, t, side);
    }
  }

  /** Which spot was taken: none before it fits. */
  lemma {:induction false} FirstClearIndex(tile: Tile, spots: seq<(int, int)>, tiles: seq<Tile>) returns (k: nat)
    requires FirstClear(tile, spots, tiles).Some?
    ensures k < |spots|
    ensures FirstClear(tile, spots, tiles).value == tile.(x := tile.x + spots[k].0, y := tile.y + spots[k].1)
    ensures forall j :: 0 <= j < k ==> !Fits(tile.(x := tile.x + spots[j].0, y := tile.y + spots[j].1), tiles)
  {
    var at := Shifted(tile, spots[0].0, spots[0].1);
    if at.Some? && Clear(at.value, tiles) {
      return 0;
    }
    var rest := FirstClearIndex(tile, spots[1..], tiles);
    k := rest + 1;
    forall j | 0 <= j < k ensures !Fits(tile.(x := tile.x + spots[j].0, y := tile.y + spots[j].1), tiles) {
      if j > 0 { assert spots[1..][j - 1] == spots[j]; }
    }
  }

  /** Pixels: tiles overlap exactly when they share one. */
  predicate Covers(t: Tile, px: int, py: int) {
    t.x <= px < t.RightEnd() && t.y <= py < t.BottomEnd()
  }

  lemma OverlapsExactly(a: Tile, b: Tile)
    requires HasArea(a) && HasArea(b)
    ensures Overlaps(a, b) <==> exists px, py :: Covers(a, px, py) && Covers(b, px, py)
  {
    if Overlaps(a, b) {
      var (px, py) := (Max(a.x, b.x), Max(a.y, b.y));
      assert Covers(a, px, py) && Covers(b, px, py);
    }
  }

  /** The pixel next to (px, py) across `side`. */
  function Across(side: Edge, px: int, py: int): (int, int) {
    match side
    case Left => (px - 1, py)
    case Right => (px + 1, py)
    case Top => (px, py - 1)
    case Bottom => (px, py + 1)
  }

  /** A pixel of `a` with one of `b` next to it across `side`. */
  ghost predicate Adjoins(a: Tile, b: Tile, side: Edge) {
    exists px, py :: Covers(a, px, py) && Covers(b, Across(side, px, py).0, Across(side, px, py).1)
  }

  /** Tiles that do not overlap touch on a side exactly when a pixel of one is next to a pixel of the other there. */
  lemma TouchingExactly(a: Tile, b: Tile, side: Edge)
    requires HasArea(a) && HasArea(b) && !Overlaps(a, b)
    ensures Touching(a, b) == Some(side) <==> Adjoins(a, b, side)
  {
    if Touching(a, b) == Some(side) {
      var px := match side case Left => a.x case Right => a.RightEnd() - 1 case Top => Max(a.x, b.x) case Bottom => Max(a.x, b.x);
      var py := match side case Left => Max(a.y, b.y) case Right => Max(a.y, b.y) case Top => a.y case Bottom => a.BottomEnd() - 1;
      assert Covers(a, px, py) && Covers(b, Across(side, px, py).0, Across(side, px, py).1);
    }
  }

  // ----- what a layout must satisfy to be kept or sent

  predicate IsFingerprint(key: string) {
    |key| == 64 && forall i :: 0 <= i < |key| ==> '0' <= key[i] <= '9' || 'a' <= key[i] <= 'f'
  }

  predicate SoundTile(t: Tile) {
    && IsFingerprint(t.key)
    && (t.display.Some? ==> t.display.value.sound)
    && OnCanvas(t)
    && 1 <= t.width <= MAX_DIMENSION
    && 1 <= t.height <= MAX_DIMENSION
  }

  predicate Valid(layout: SharedLayout) {
    && IsFingerprint(layout.editor)
    && layout.version <= MAX_TOKEN
    && |layout.tiles| <= MAX_SHARED_TILES
    && (forall i :: 0 <= i < |layout.tiles| ==> SoundTile(layout.tiles[i]))
    && (forall i, j :: 0 <= i < j < |layout.tiles| ==> layout.tiles[i].Name() != layout.tiles[j].Name())
  }

  /** SharedLayout::validate: the tiles in order, remembering the names seen. */
  method Validate(layout: SharedLayout) returns (ok: bool)
    ensures ok <==> Valid(layout)
  {
    if !IsFingerprint(layout.editor) || layout.version > MAX_TOKEN || |layout.tiles| > MAX_SHARED_TILES {
      return false;
    }
    var names := {};
    for k := 0 to |layout.tiles|
      invariant forall i :: 0 <= i < k ==> SoundTile(layout.tiles[i])
      invariant names == set i | 0 <= i < k :: layout.tiles[i].Name()
      invariant forall i, j :: 0 <= i < j < k ==> layout.tiles[i].Name() != layout.tiles[j].Name()
    {
      if layout.tiles[k].Name() in names || !SoundTile(layout.tiles[k]) {
        return false;
      }
      names := names + {layout.tiles[k].Name()};
    }
    return true;
  }
}
