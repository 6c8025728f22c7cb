/**
 The other ways a layout is made or edited: a person's move with the tiles its
 editor could not show put back, tiles for newly paired computers, a tile taken
 over by a new key (src/desktop.rs), and the first layout (src/daemon.rs).
 */
module Editors {
  import opened Wrappers
  import opened Tiles
  import opened Resize

  const PEER_TILE_SIZE := (1920, 1080)
  const MAX_I32 := 0x7FFF_FFFF

  predicate HasKey(tiles: seq<Tile>, key: string) {
    exists i :: 0 <= i < |tiles| && tiles[i].key == key
  }

  lemma ApartWith(tiles: seq<Tile>, t: Tile)
    requires Apart(tiles) && Clear(t, tiles)
    ensures Apart(tiles + [t])
  {
  }

  /** Whether `t` is a tile the editor could not show and its edit does not cover. */
  predicate Hidden(t: Tile, edit: seq<Tile>, known: string -> bool) {
    !known(t.key) && Clear(t, edit)
  }

  /** A tile clear of the first `n` of `tiles` is clear of those taken from before it too. */
  lemma StillClear(tiles: seq<Tile>, n: nat, previous: seq<Tile>, k: nat)
    requires n <= |tiles| && k < |previous| && Apart(previous) && Clear(previous[k], tiles[..n])
    requires forall t :: t in tiles[n..] ==> t in previous[..k]
    ensures Clear(previous[k], tiles)
  {
    forall i | 0 <= i < |tiles| ensures !Overlaps(previous[k], tiles[i]) {
      if i < n {
        assert tiles[..n][i] == tiles[i];
      } else {
        assert tiles[n..][i - n] in tiles[n..];
        assert tiles[i] in previous[..k];
      }
    }
  }

  /** The first `k` tiles were gone through, all of them unless it is full, and nothing was taken from the rest. */
  ghost predicate TakenInOrder(edit: seq<Tile>, previous: seq<Tile>, known: string -> bool, k: nat, r: seq<Tile>) {
    && edit <= r && k <= |previous| && (k == |previous| || |r| >= MAX_SHARED_TILES)
    && (forall t :: t in r[|edit|..] ==> t in previous[..k])
    && (Apart(previous) ==> forall t :: t in previous[..k] && !known(t.key) && Clear(t, edit) ==> t in r)
  }

  /**
   An edit with the tiles of `previous` its editor could not show put back.
   From tiles that were apart, and with room for them, exactly the hidden ones
   the edit does not cover come back.
   */
  method WithOthersFrom(edit: SharedLayout, previous: SharedLayout, known: string -> bool) returns (r: SharedLayout)
    ensures r == edit.(tiles := r.tiles) && edit.tiles <= r.tiles
    ensures |r.tiles| <= MAX_SHARED_TILES || r == edit
    ensures Apart(edit.tiles) ==> Apart(r.tiles)
    ensures forall t :: t in r.tiles[|edit.tiles|..] ==> t in previous.tiles && !known(t.key) && Clear(t, edit.tiles)
    ensures Apart(previous.tiles) && |r.tiles| < MAX_SHARED_TILES ==>
      forall t :: t in previous.tiles && !known(t.key) && Clear(t, edit.tiles) ==> t in r.tiles
    ensures exists k: nat :: TakenInOrder(edit.tiles, previous.tiles, known, k, r.tiles)
  {
    var tiles := edit.tiles;
    var k := 0;
    while k < |previous.tiles| && |tiles| < MAX_SHARED_TILES
      invariant k <= |previous.tiles| && edit.tiles <= tiles
      invariant |tiles| <= MAX_SHARED_TILES || tiles == edit.tiles
      invariant Apart(edit.tiles) ==> Apart(tiles)
      invariant forall t :: t in tiles[|edit.tiles|..] ==> t in previous.tiles[..k] && Hidden(t, edit.tiles, known)
      invariant Apart(previous.tiles) ==> forall t :: t in previous.tiles[..k] && Hidden(t, edit.tiles, known) ==> t in tiles
    {
      var t := previous.tiles[k];
      if !known(t.key) && Clear(t, tiles) {
        if Apart(tiles) {
          ApartWith(tiles, t);
        }
        assert Clear(t, edit.tiles) by {
          assert forall i :: 0 <= i < |edit.tiles| ==> edit.tiles[i] == tiles[i];
        }
        assert (tiles + [t])[|edit.tiles|..] == tiles[|edit.tiles|..] + [t];
        tiles := tiles + [t];
      } else if Hidden(t, edit.tiles, known) && Apart(previous.tiles) {
        StillClear(tiles, |edit.tiles|, previous.tiles, k);
        assert false;
      }
      assert previous.tiles[..k + 1] == previous.tiles[..k] + [t];
      k := k + 1;
    }
    if k == |previous.tiles| {
      assert previous.tiles[..k] == previous.tiles;
    }
    assert TakenInOrder(edit.tiles, previous.tiles, known, k, tiles);
    return edit.(tiles := tiles);
  }

  function FirstOf(tiles: seq<Tile>, key: string): (r: Option<Tile>)
    ensures r.Some? ==> r.value in tiles && r.value.key == key
    ensures r.None? ==> !HasKey(tiles, key)
  {
    if tiles == [] then None
    else if tiles[0].key == key then Some(tiles[0])
    else
      var r := FirstOf(tiles[1..], key);
      assert r.None? ==> forall i :: 0 < i < |tiles| ==> tiles[i] == tiles[1..][i - 1];
      r
  }

  /** A tile `with_tiles_for` adds: of the given size, for one of `keys` that had none. */
  predicate AddedTile(t: Tile, own: string, keys: seq<string>, had: seq<Tile>, width: nat, height: nat) {
    && t == Tile(t.key, None, t.x, t.y, width, height) && OnCanvas(t)
    && t.key in keys && t.key != own && !HasKey(had, t.key)
  }

  lemma KeepsKeys(tiles: seq<Tile>, t: Tile)
    ensures HasKey(tiles + [t], t.key)
    ensures forall key :: HasKey(tiles, key) ==> HasKey(tiles + [t], key)
  {
    assert (tiles + [t])[|tiles|] == t;
    forall key | HasKey(tiles, key) ensures HasKey(tiles + [t], key) {
      var i :| 0 <= i < |tiles| && tiles[i].key == key;
      assert (tiles + [t])[i].key == key;
    }
  }

  /** The tiles with one more for `key`, if it lacks one and there is room; None when its spot is off the canvas. */
  function WithTileFor(tiles: seq<Tile>, own: string, key: string, width: nat, height: nat): (r: Option<seq<Tile>>)
    ensures r.Some? ==> tiles <= r.value && |r.value| <= |tiles| + 1
    ensures r.None? ==> !HasKey(tiles, key) && |tiles| < MAX_SHARED_TILES
  {
    if key == own || HasKey(tiles, key) || |tiles| >= MAX_SHARED_TILES then Some(tiles)
    else match FreeSpot(tiles, FirstOf(tiles, own), key, width, height)
         case Some(spot) => Some(tiles + [spot])
         case None => None
  }

  /** It goes right of this computer's first tile where there is room, else left, below, above, or past everything in its row. */
  lemma AddedBesideOwn(tiles: seq<Tile>, own: string, key: string, width: nat, height: nat, at: nat)
    requires at < |tiles| && tiles[at].key == own && HasArea(tiles[at]) && width >= 1 && height >= 1
    requires forall i :: 0 <= i < at ==> tiles[i].key != own
    requires key != own && !HasKey(tiles, key) && |tiles| < MAX_SHARED_TILES
    requires WithTileFor(tiles, own, key, width, height).Some?
    ensures var all := WithTileFor(tiles, own, key, width, height).value;
      |all| == |tiles| + 1 && all[|tiles|].key == key && FirstRoom(tiles[at], all[|tiles|], tiles)
  {
    FirstOfIs(tiles, own, at);
    FreeSpotIsFirst(tiles, tiles[at], key, width, height);
  }

  lemma {:induction false} FirstOfIs(tiles: seq<Tile>, key: string, at: nat)
    requires at < |tiles| && tiles[at].key == key && forall i :: 0 <= i < at ==> tiles[i].key != key
    ensures FirstOf(tiles, key) == Some(tiles[at])
  {
    if at > 0 {
      FirstOfIs(tiles[1..], key, at - 1);
    }
  }

  /** A tile for each of `keys` in turn. */
  function WithAll(tiles: seq<Tile>, own: string, keys: seq<string>, width: nat, height: nat): (r: Option<seq<Tile>>)
    ensures r.Some? ==> tiles <= r.value
  {
    if keys == [] then Some(tiles)
    else match WithAll(tiles, own, keys[..|keys| - 1], width, height)
         case Some(before) => WithTileFor(before, own, keys[|keys| - 1], width, height)
         case None => None
  }

  lemma OneMoreKey(tiles: seq<Tile>, own: string, keys: seq<string>, k: nat, width: nat, height: nat, sofar: seq<Tile>)
    requires k < |keys| && WithAll(tiles, own, keys[..k], width, height) == Some(sofar)
    ensures WithAll(tiles, own, keys[..k + 1], width, height) == WithTileFor(sofar, own, keys[k], width, height)
  {
    assert keys[..k + 1][..k] == keys[..k];
  }

  /** No room, or an off-canvas spot, settles it for the rest of the keys. */
  lemma {:induction false} SettledEarly(tiles: seq<Tile>, own: string, keys: seq<string>, k: nat, width: nat, height: nat)
    requires k <= |keys|
    requires var r := WithAll(tiles, own, keys[..k], width, height); r.None? || |r.value| >= MAX_SHARED_TILES
    ensures WithAll(tiles, own, keys, width, height) == WithAll(tiles, own, keys[..k], width, height)
    decreases |keys| - k
  {
    if k < |keys| {
      assert keys[..k + 1][..k] == keys[..k];
      SettledEarly(tiles, own, keys, k + 1, width, height);
    } else {
      assert keys[..k] == keys;
    }
  }

  /** What is added to a layout makes a valid edit exactly for keys and a size that are. */
  lemma AddedIsSound(layout: SharedLayout, own: string, keys: seq<string>, tiles: seq<Tile>, width: nat, height: nat)
    requires Valid(layout) && layout.tiles < tiles && |tiles| <= MAX_SHARED_TILES
    requires forall i :: |layout.tiles| <= i < |tiles| ==> AddedTile(tiles[i], own, keys, tiles[..i], width, height)
    ensures Edited(layout, own, tiles).Some? <==> CanAdd(layout, own, tiles[|layout.tiles|..], width, height)
  {
    var (old', added) := (|layout.tiles|, tiles[|layout.tiles|..]);
    forall i | 0 <= i < old' ensures SoundTile(tiles[i]) { assert tiles[i] == layout.tiles[i] && SoundTile(layout.tiles[i]); }
    forall i, j | 0 <= i < j < |tiles| ensures tiles[i].Name() != tiles[j].Name() {
      if j < old' {
        assert layout.tiles[i].Name() != layout.tiles[j].Name();
      } else {
        assert !HasKey(tiles[..j], tiles[j].key) && tiles[..j][i] == tiles[i];
      }
    }
    assert tiles[old'] == added[0];
    if CanAdd(layout, own, added, width, height) {
      forall i | old' <= i < |tiles| ensures SoundTile(tiles[i]) { assert tiles[i] == added[i - old']; }
    } else {
      assert forall k :: 0 <= k < |added| ==> added[k] == tiles[old' + k];
    }
  }

  /** The version can go up, and this computer, the computers added and the size are all ones a layout may have. */
  predicate CanAdd(layout: SharedLayout, own: string, added: seq<Tile>, width: nat, height: nat) {
    && layout.version < MAX_TOKEN && IsFingerprint(own)
    && 1 <= width <= MAX_DIMENSION && 1 <= height <= MAX_DIMENSION
    && forall k :: 0 <= k < |added| ==> IsFingerprint(added[k].key)
  }

  /**
   A tile for each of `keys` the layout lacks, until it is full. There is an
   edit exactly when something is missing, there is room and a spot for each on
   the canvas, and the edit is one that may be made.
   */
  method WithTilesFor(layout: SharedLayout, own: string, keys: seq<string>, width: nat, height: nat)
    returns (r: Option<SharedLayout>)
    ensures r.Some? ==>
      && Valid(r.value) && r.value.IsNewerThan(layout) && r.value.editor == own
      && layout.tiles < r.value.tiles
      && (Apart(layout.tiles) ==> Apart(r.value.tiles))
      && (forall i :: |layout.tiles| <= i < |r.value.tiles| ==>
            AddedTile(r.value.tiles[i], own, keys, r.value.tiles[..i], width, height))
      && (|r.value.tiles| == MAX_SHARED_TILES || forall key :: key in keys && key != own ==> HasKey(r.value.tiles, key))
    ensures Valid(layout) ==>
      var all := WithAll(layout.tiles, own, keys, width, height);
      (r.Some? <==>
        (|layout.tiles| < MAX_SHARED_TILES && (exists key :: key in keys && key != own && !HasKey(layout.tiles, key))
         && all.Some? && CanAdd(layout, own, all.value[|layout.tiles|..], width, height)))
  {
    var all := AddTiles(layout, own, keys, width, height);
    WithAllGrows(layout.tiles, own, keys, width, height);
    if all.Some? {
      AddsExactlyWhen(layout.tiles, own, keys, width, height);
    }
    if all.None? || |all.value| == |layout.tiles| {
      return None;
    }
    if Valid(layout) {
      AddedIsSound(layout, own, keys, all.value, width, height);
    }
    r := MakeEdit(layout, own, all.value);
  }

  method AddTiles(layout: SharedLayout, own: string, keys: seq<string>, width: nat, height: nat) returns (r: Option<seq<Tile>>)
    ensures r == WithAll(layout.tiles, own, keys, width, height)
  {
    var tiles := layout.tiles;
    for k := 0 to |keys|
      invariant WithAll(layout.tiles, own, keys[..k], width, height) == Some(tiles)
    {
      var key := keys[k];
      OneMoreKey(layout.tiles, own, keys, k, width, height, tiles);
      if key == own || HasKey(tiles, key) {
        continue;
      }
      if |tiles| >= MAX_SHARED_TILES {
        SettledEarly(layout.tiles, own, keys, k, width, height);
        return Some(tiles);
      }
      var spot := FreeSpot(tiles, FirstOf(tiles, own), key, width, height);
      if spot.None? {
        SettledEarly(layout.tiles, own, keys, k + 1, width, height);
        return None;
      }
      tiles := tiles + [spot.value];
    }
    assert keys[..|keys|] == keys;
    return Some(tiles);
  }

  /** Only tiles for missing keys were added, clear of the rest, and all of them unless it is full. */
  ghost predicate Grown(tiles: seq<Tile>, own: string, keys: seq<string>, width: nat, height: nat, r: seq<Tile>) {
    && tiles <= r && (|r| <= MAX_SHARED_TILES || r == tiles)
    && (Apart(tiles) ==> Apart(r))
    && (forall i :: |tiles| <= i < |r| ==> AddedTile(r[i], own, keys, r[..i], width, height))
    && (|r| >= MAX_SHARED_TILES || forall key :: key in keys && key != own ==> HasKey(r, key))
  }

  lemma GrownStep(tiles: seq<Tile>, own: string, before: seq<string>, keys: seq<string>, width: nat, height: nat,
                  r: seq<Tile>, spot: Tile)
    requires Grown(tiles, own, before, width, height, r) && |r| < MAX_SHARED_TILES
    requires keys == before + [spot.key] && spot.key != own && !HasKey(r, spot.key)
    requires spot == Tile(spot.key, None, spot.x, spot.y, width, height) && OnCanvas(spot) && Clear(spot, r)
    ensures Grown(tiles, own, keys, width, height, r + [spot])
  {
    var all := r + [spot];
    if Apart(r) { ApartWith(r, spot); }
    KeepsKeys(r, spot);
    forall i | |tiles| <= i < |all| ensures AddedTile(all[i], own, keys, all[..i], width, height) {
      assert all[..i] == r[..i];
      if i < |r| {
        assert AddedTile(r[i], own, before, r[..i], width, height);
      } else {
        assert r[..i] == r;
      }
    }
  }

  lemma {:induction false} WithAllGrows(tiles: seq<Tile>, own: string, keys: seq<string>, width: nat, height: nat)
    ensures var r := WithAll(tiles, own, keys, width, height);
      r.Some? ==> Grown(tiles, own, keys, width, height, r.value)
  {
    if keys != [] {
      var (before, key) := (keys[..|keys| - 1], keys[|keys| - 1]);
      assert keys == before + [key];
      WithAllGrows(tiles, own, before, width, height);
      var r := WithAll(tiles, own, before, width, height);
      if r.Some? && key != own && !HasKey(r.value, key) && |r.value| < MAX_SHARED_TILES {
        var spot := FreeSpot(r.value, FirstOf(r.value, own), key, width, height);
        if spot.Some? {
          GrownStep(tiles, own, before, keys, width, height, r.value, spot.value);
        }
      } else if r.Some? {
        GrownSame(tiles, own, before, keys, width, height, r.value);
      }
    }
  }

  lemma GrownSame(tiles: seq<Tile>, own: string, before: seq<string>, keys: seq<string>, width: nat, height: nat, r: seq<Tile>)
    requires Grown(tiles, own, before, width, height, r) && before <= keys && |keys| == |before| + 1
    requires var key := keys[|before|]; key == own || HasKey(r, key) || |r| >= MAX_SHARED_TILES
    ensures Grown(tiles, own, keys, width, height, r)
  {
    assert keys == before + [keys[|before|]];
    forall i | |tiles| <= i < |r| ensures AddedTile(r[i], own, keys, r[..i], width, height) {
      assert AddedTile(r[i], own, before, r[..i], width, height);
    }
  }

  /** Nothing missing or no room, nothing added; else something is. */
  lemma AddsExactlyWhen(tiles: seq<Tile>, own: string, keys: seq<string>, width: nat, height: nat)
    requires WithAll(tiles, own, keys, width, height).Some?
    ensures WithAll(tiles, own, keys, width, height).value != tiles <==>
      |tiles| < MAX_SHARED_TILES && exists key :: key in keys && key != own && !HasKey(tiles, key)
  {
    WithAllGrows(tiles, own, keys, width, height);
    if |tiles| >= MAX_SHARED_TILES {
      assert WithAll(tiles, own, keys[..0], width, height) == Some(tiles);
      SettledEarly(tiles, own, keys, 0, width, height);
    } else {
      var r := WithAll(tiles, own, keys, width, height).value;
      if r != tiles {
        assert AddedTile(r[|tiles|], own, keys, r[..|tiles|], width, height) && r[..|tiles|] == tiles;
      }
    }
  }

  /** Every tile of the computer `from`, now of the computer `to`. */
  function Renamed(tiles: seq<Tile>, from: string, to: string): (r: seq<Tile>)
    ensures |r| == |tiles|
    ensures forall i :: 0 <= i < |tiles| ==> r[i] == if tiles[i].key == from then tiles[i].(key := to) else tiles[i]
  {
    seq(|tiles|, i requires 0 <= i < |tiles| => if tiles[i].key == from then tiles[i].(key := to) else tiles[i])
  }

  /** Taking a tile over and giving it back changes nothing, and neither moves a tile. */
  lemma RenamedBack(tiles: seq<Tile>, from: string, to: string)
    requires !HasKey(tiles, to)
    ensures Renamed(Renamed(tiles, from, to), to, from) == tiles
    ensures Apart(tiles) ==> Apart(Renamed(tiles, from, to))
  {
    var there := Renamed(tiles, from, to);
    forall i | 0 <= i < |tiles| ensures Renamed(there, to, from)[i] == tiles[i] {
      assert tiles[i].key != to;
    }
    assert forall i, j :: 0 <= i < j < |tiles| ==> Overlaps(there[i], there[j]) == Overlaps(tiles[i], tiles[j]);
  }

  lemma RenamedIsSound(layout: SharedLayout, own: string, from: string, to: string)
    requires Valid(layout) && !HasKey(layout.tiles, to) && HasKey(layout.tiles, from)
    ensures Edited(layout, own, Renamed(layout.tiles, from, to)).Some? <==>
      layout.version < MAX_TOKEN && IsFingerprint(own) && IsFingerprint(to)
  {
    var tiles := Renamed(layout.tiles, from, to);
    var at :| 0 <= at < |tiles| && layout.tiles[at].key == from;
    assert SoundTile(tiles[at]) ==> IsFingerprint(to);
    forall i, j | 0 <= i < j < |tiles| ensures tiles[i].Name() != tiles[j].Name() {
      assert layout.tiles[i].Name() != layout.tiles[j].Name();
      assert layout.tiles[i].key != to && layout.tiles[j].key != to;
    }
    if layout.version < MAX_TOKEN && IsFingerprint(own) && IsFingerprint(to) {
      forall i | 0 <= i < |tiles| ensures SoundTile(tiles[i]) {
        assert SoundTile(layout.tiles[i]);
      }
    }
  }

  /** `to` takes over the tile of `from`. */
  method WithKeyReplaced(layout: SharedLayout, own: string, from: string, to: string) returns (r: Option<SharedLayout>)
    ensures r.Some? ==>
      && !HasKey(layout.tiles, to) && HasKey(layout.tiles, from)
      && r == Edited(layout, own, Renamed(layout.tiles, from, to))
      && (Apart(layout.tiles) ==> Apart(r.value.tiles))
      && Renamed(r.value.tiles, to, from) == layout.tiles
    ensures Valid(layout) ==>
      (r.Some? <==> !HasKey(layout.tiles, to) && HasKey(layout.tiles, from)
                    && layout.version < MAX_TOKEN && IsFingerprint(own) && IsFingerprint(to))
  {
    if HasKey(layout.tiles, to) || !HasKey(layout.tiles, from) {
      return None;
    }
    var tiles := layout.tiles;
    for k := 0 to |tiles|
      invariant |tiles| == |layout.tiles|
      invariant forall i :: 0 <= i < |tiles| ==>
        tiles[i] == if i < k && layout.tiles[i].key == from then layout.tiles[i].(key := to) else layout.tiles[i]
    {
      if tiles[k].key == from {
        tiles := tiles[k := tiles[k].(key := to)];
      }
    }
    assert tiles == Renamed(layout.tiles, from, to);
    RenamedBack(layout.tiles, from, to);
    if Valid(layout) {
      RenamedIsSound(layout, own, from, to);
    }
    r := MakeEdit(layout, own, tiles);
  }

  // ----- the first layout

  function SaturatingAdd(a: int, b: nat): int {
    if a + b > MAX_I32 then MAX_I32 else a + b
  }

  /** `own` and then the keys not met before, in order. */
  function Distinct(own: string, keys: seq<string>): (r: seq<string>)
    ensures |r| >= 1 && r[0] == own
    ensures forall i, j :: 0 <= i < j < |r| ==> r[i] != r[j]
    ensures forall key :: key in r <==> key == own || key in keys
  {
    if keys == [] then [own]
    else
      var last := keys[|keys| - 1];
      var r := Distinct(own, keys[..|keys| - 1]);
      assert keys == keys[..|keys| - 1] + [last];
      if last in r then r else r + [last]
  }

  /**
   This computer's tile, then each paired computer's to its right. What is
   returned is apart, has a tile for each computer that fits, and each tile
   touches the next, so every edge between them leads somewhere.
   */
  method InitialLayout(own: string, width: nat, height: nat, keys: seq<string>) returns (r: Option<SharedLayout>)
    ensures r.Some? ==>
      && Valid(r.value) && r.value.version == 0 && r.value.editor == own
      && Apart(r.value.tiles)
      && |r.value.tiles| == (if |Distinct(own, keys)| < MAX_SHARED_TILES then |Distinct(own, keys)| else MAX_SHARED_TILES)
      && (forall i :: 0 <= i < |r.value.tiles| ==> r.value.tiles[i].key == Distinct(own, keys)[i])
      && (r.value.tiles[0].width, r.value.tiles[0].height) == (width, height)
      && (forall i :: 0 < i < |r.value.tiles| ==> (r.value.tiles[i].width, r.value.tiles[i].height) == PEER_TILE_SIZE)
      && (forall i :: 0 <= i < |r.value.tiles| - 1 ==> Touching(r.value.tiles[i], r.value.tiles[i + 1]) == Some(Right))
    ensures r.Some? <==>
      (1 <= width <= MAX_DIMENSION && 1 <= height <= MAX_DIMENSION
       && forall i :: 0 <= i < |Distinct(own, keys)| && i < MAX_SHARED_TILES ==> IsFingerprint(Distinct(own, keys)[i]))
  {
    var tiles := Row(Distinct(own, keys), width, height);
    RowIsSound(own, tiles, Distinct(own, keys), width, height);
    var layout := SharedLayout(0, own, tiles);
    var ok := Validate(layout);
    if !ok {
      return None;
    }
    InARow(tiles);
    return Some(layout);
  }

  /** The first tiles of a row: this computer's, then others', each where the one before ends. */
  ghost predicate RowOf(tiles: seq<Tile>, names: seq<string>, width: nat, height: nat) {
    && |tiles| <= |names| && |tiles| <= MAX_SHARED_TILES
    && (forall i :: 0 <= i < |tiles| ==> tiles[i].key == names[i] && tiles[i].display.None? && tiles[i].y == 0)
    && (tiles != [] ==> (tiles[0].x, tiles[0].width, tiles[0].height) == (0, width, height))
    && (forall i :: 0 < i < |tiles| ==> (tiles[i].width, tiles[i].height) == PEER_TILE_SIZE)
    && (forall i :: 0 <= i < |tiles| - 1 ==> tiles[i + 1].x == SaturatingAdd(tiles[i].x, tiles[i].width))
  }

  method Row(names: seq<string>, width: nat, height: nat) returns (tiles: seq<Tile>)
    ensures RowOf(tiles, names, width, height)
    ensures |tiles| == if |names| < MAX_SHARED_TILES then |names| else MAX_SHARED_TILES
  {
    tiles := [];
    var x := 0;
    while |tiles| < |names| && |tiles| < MAX_SHARED_TILES
      invariant RowOf(tiles, names, width, height)
      invariant x == if tiles == [] then 0 else SaturatingAdd(tiles[|tiles| - 1].x, tiles[|tiles| - 1].width)
    {
      var (w, h) := if tiles == [] then (width, height) else PEER_TILE_SIZE;
      tiles := tiles + [Tile(names[|tiles|], None, x, 0, w, h)];
      x := SaturatingAdd(x, w);
    }
  }

  lemma {:induction false} RowIsOnCanvas(tiles: seq<Tile>, names: seq<string>, width: nat, height: nat, i: nat)
    requires RowOf(tiles, names, width, height) && width <= MAX_DIMENSION && i < |tiles|
    ensures 0 <= tiles[i].x <= MAX_DIMENSION + PEER_TILE_SIZE.0 * i && OnCanvas(tiles[i])
  {
    if i > 0 {
      RowIsOnCanvas(tiles, names, width, height, i - 1);
      assert tiles[i - 1 + 1].x == SaturatingAdd(tiles[i - 1].x, tiles[i - 1].width);
    }
  }

  /** Such a row is a layout exactly for a size and keys that a layout may have: it never leaves the canvas. */
  lemma RowIsSound(own: string, tiles: seq<Tile>, names: seq<string>, width: nat, height: nat)
    requires RowOf(tiles, names, width, height) && |names| >= 1 && names[0] == own
    requires |tiles| == if |names| < MAX_SHARED_TILES then |names| else MAX_SHARED_TILES
    requires forall i, j :: 0 <= i < j < |names| ==> names[i] != names[j]
    ensures Valid(SharedLayout(0, own, tiles)) <==>
      (1 <= width <= MAX_DIMENSION && 1 <= height <= MAX_DIMENSION
       && forall i :: 0 <= i < |names| && i < MAX_SHARED_TILES ==> IsFingerprint(names[i]))
  {
    forall i, j | 0 <= i < j < |tiles| ensures tiles[i].Name() != tiles[j].Name() {
      assert names[i] != names[j];
    }
    if width <= MAX_DIMENSION {
      forall i | 0 <= i < |tiles| ensures OnCanvas(tiles[i]) { RowIsOnCanvas(tiles, names, width, height, i); }
    }
    if Valid(SharedLayout(0, own, tiles)) {
      assert SoundTile(tiles[0]);
      forall i | 0 <= i < |names| && i < MAX_SHARED_TILES ensures IsFingerprint(names[i]) { assert SoundTile(tiles[i]); }
    }
  }

  /** Tiles on the canvas, each where the one before it ends, touch in turn and stay apart. */
  lemma InARow(tiles: seq<Tile>)
    requires forall i :: 0 <= i < |tiles| ==> SoundTile(tiles[i]) && tiles[i].y == 0
    requires forall i :: 0 <= i < |tiles| - 1 ==> tiles[i + 1].x == SaturatingAdd(tiles[i].x, tiles[i].width)
    ensures Apart(tiles)
    ensures forall i :: 0 <= i < |tiles| - 1 ==> Touching(tiles[i], tiles[i + 1]) == Some(Right)
  {
    forall i | 0 <= i < |tiles| - 1 ensures Touching(tiles[i], tiles[i + 1]) == Some(Right) {
      assert SoundTile(tiles[i]) && SoundTile(tiles[i + 1]);
    }
    forall i, j | 0 <= i < j < |tiles| ensures !Overlaps(tiles[i], tiles[j]) {
      EndsBefore(tiles, i, j);
    }
  }

  lemma {:induction false} EndsBefore(tiles: seq<Tile>, i: nat, j: nat)
    requires i < j < |tiles|
    requires forall i :: 0 <= i < |tiles| ==> SoundTile(tiles[i])
    requires forall i :: 0 <= i < |tiles| - 1 ==> tiles[i + 1].x == SaturatingAdd(tiles[i].x, tiles[i].width)
    ensures tiles[i].RightEnd() <= tiles[j].x
    decreases j
  {
    assert SoundTile(tiles[j]) && SoundTile(tiles[j - 1]);
    if i < j - 1 {
      EndsBefore(tiles, i, j - 1);
    }
  }
}
