/** The sprite report of tools/render_snapshot_frame.c: a first pass lists the sprites
    of a scanline, a second follows the chains of sticky sprites through that list. */
module SpriteChains {
  import opened Machine

  const DISPLAY_LIMIT := 381
  const PER_SCANLINE := 96
  const FRAME_WIDTH := 320
  const FRAME_HEIGHT := 224
  const TILE_PIXELS := 16
  const ZOOM_ROM_BYTES := 0x1_0000

  type Vram = s: seq<u16> | |s| == 0x8800 witness seq(0x8800, _ => 0)

  // ---------------------------------------------------------------- one sprite

  function Scb2(vram: Vram, sprite: nat): u16 requires sprite < DISPLAY_LIMIT { vram[0x8000 + sprite] }
  function Scb3(vram: Vram, sprite: nat): u16 requires sprite < DISPLAY_LIMIT { vram[0x8200 + sprite] }
  function Scb4(vram: Vram, sprite: nat): u16 requires sprite < DISPLAY_LIMIT { vram[0x8400 + sprite] }

  predicate Sticky(scb3: u16) { scb3 / 64 % 2 == 1 }

  /** report_sprite_y */
  function SpriteY(scb3: u16): int { (496 - scb3 / 128 % 512) % 512 }

  function Rows(scb3: u16): int { scb3 % 64 }

  /** report_sprite_on_scanline */
  predicate OnScanline(line: int, y: int, rows: int) {
    rows >= 0x20 || (line - y) % 512 < rows * TILE_PIXELS
  }

  // ---------------------------------------------------------------- the hardware's chains

  /** Position of a chain: vertical part and, for the second pass, the horizontal. */
  datatype Shape = Shape(y: int, rows: int)

  /** The vertical shape a sprite has by the chain it belongs to: its own, or that of
      the sprite before it.  Before sprite 0 there is nothing to stick to. */
  function ShapeOf(vram: Vram, sprite: nat): Shape
    requires sprite < DISPLAY_LIMIT
  {
    if !Sticky(Scb3(vram, sprite)) then Shape(SpriteY(Scb3(vram, sprite)), Rows(Scb3(vram, sprite)))
    else if sprite == 0 then Shape(0, 0) else ShapeOf(vram, sprite - 1)
  }

  function ZoomX(vram: Vram, sprite: nat): int
    requires sprite < DISPLAY_LIMIT
  {
    Scb2(vram, sprite) / 256 % 16
  }

  /** The vertical zoom of the chain. */
  function ZoomY(vram: Vram, sprite: nat): int
    requires sprite < DISPLAY_LIMIT
  {
    if !Sticky(Scb3(vram, sprite)) then Scb2(vram, sprite) % 256
    else if sprite == 0 then 0xFF else ZoomY(vram, sprite - 1)
  }

  /** A sticky sprite stands right of the one before it. */
  function X(vram: Vram, sprite: nat): int
    requires sprite < DISPLAY_LIMIT
  {
    if !Sticky(Scb3(vram, sprite)) then Scb4(vram, sprite) / 128 % 512
    else if sprite == 0 then 0 else (X(vram, sprite - 1) + ZoomX(vram, sprite - 1) + 1) % 512
  }

  predicate Active(vram: Vram, line: int, sprite: nat)
    requires sprite < DISPLAY_LIMIT
  {
    var s := ShapeOf(vram, sprite);
    s.rows != 0 && OnScanline(line, s.y, s.rows)
  }

  /** The active sprites below n, in order. */
  function Actives(vram: Vram, line: int, n: nat): (r: seq<nat>)
    requires n <= DISPLAY_LIMIT
    ensures forall i :: 0 <= i < |r| ==> r[i] < n && Active(vram, line, r[i])
  {
    if n == 0 then []
    else Actives(vram, line, n - 1) + if Active(vram, line, n - 1) then [n - 1] else []
  }

  /** What fits on a scanline. */
  function Limited(xs: seq<nat>): seq<nat> {
    if |xs| <= PER_SCANLINE then xs else xs[..PER_SCANLINE]
  }

  lemma {:induction false} ActivesGrow(vram: Vram, line: int, n: nat, m: nat)
    requires n <= m <= DISPLAY_LIMIT
    ensures Actives(vram, line, n) <= Actives(vram, line, m)
    decreases m
  {
    hide Active;
    if n < m {
      ActivesGrow(vram, line, n, m - 1);
    }
  }

  /** In the list of active sprites a sticky one comes directly after the sprite it
      sticks to: a chain is on the scanline as a whole or not at all. */
  lemma {:induction false} StickyFollowsItsPredecessor(vram: Vram, line: int, n: nat, i: nat)
    requires n <= DISPLAY_LIMIT && i < |Actives(vram, line, n)|
    requires Sticky(Scb3(vram, Actives(vram, line, n)[i]))
    ensures i > 0 && Actives(vram, line, n)[i] > 0
    ensures Actives(vram, line, n)[i - 1] == Actives(vram, line, n)[i] - 1
    decreases n
  {
    var front := Actives(vram, line, n - 1);
    if i < |front| {
      StickyFollowsItsPredecessor(vram, line, n - 1, i);
    } else {
      PredecessorIsActive(vram, line, n - 1);
    }
  }

  lemma PredecessorIsActive(vram: Vram, line: int, sprite: nat)
    requires sprite < DISPLAY_LIMIT && Active(vram, line, sprite) && Sticky(Scb3(vram, sprite))
    ensures sprite > 0 && Active(vram, line, sprite - 1)
    ensures |Actives(vram, line, sprite)| > 0
    ensures Actives(vram, line, sprite)[|Actives(vram, line, sprite)| - 1] == sprite - 1
  {
  }

  // ---------------------------------------------------------------- the first pass

  /** report_build_active_sprite_list */
  method BuildActiveSpriteList(vram: Vram, line: int, active: array<nat>) returns (count: nat, limited: bool)
    requires active.Length == PER_SCANLINE
    modifies active
    ensures count <= PER_SCANLINE && active[..count] == Limited(Actives(vram, line, DISPLAY_LIMIT))
    ensures limited <==> |Actives(vram, line, DISPLAY_LIMIT)| >= PER_SCANLINE
  {
    hide OnScanline, SpriteY, Rows, Sticky;
    var y, rows := 0, 0;
    count, limited := 0, false;
    for sprite := 0 to DISPLAY_LIMIT
      invariant sprite == 0 ==> y == 0 && rows == 0
      invariant sprite > 0 ==> Shape(y, rows) == ShapeOf(vram, sprite - 1)
      invariant count < PER_SCANLINE && !limited
      invariant active[..count] == Actives(vram, line, sprite)
    {
      ActivesGrow(vram, line, sprite + 1, DISPLAY_LIMIT);
      var scb3 := vram[0x8200 + sprite];
      if !Sticky(scb3) {
        y, rows := SpriteY(scb3), Rows(scb3);
      }
      if rows == 0 || !OnScanline(line, y, rows) {
        continue;
      }
      active[count] := sprite;
      count := count + 1;
      assert active[..count] == active[..count - 1] + [sprite];
      if count == PER_SCANLINE {
        limited := true;
        return;
      }
    }
  }

  // ---------------------------------------------------------------- the zoom tables

  function Flip5(v: int): int { v / 32 * 32 + 31 - v % 32 }

  /** report_sprite_zoom_source: the tile row, with a zoom ROM or without */
  function ZoomTile(rom: seq<u8>, zoomY: u8, zoomLine: u8): int {
    if |rom| >= ZOOM_ROM_BYTES then rom[zoomY * 256 + zoomLine] / 16
    else (if zoomY == 0xFF then zoomLine else if zoomLine <= zoomY then zoomLine * 256 / (zoomY + 1) else 0xFF) / 16
  }

  lemma ZoomTileIsSmall(rom: seq<u8>, zoomY: u8, zoomLine: u8)
    ensures 0 <= ZoomTile(rom, zoomY, zoomLine) < 16
  {
    if |rom| < ZOOM_ROM_BYTES && zoomY != 0xFF && zoomLine <= zoomY {
      var q := zoomLine * 256 / (zoomY + 1);
      assert q * (zoomY + 1) <= zoomLine * 256 < 256 * (zoomY + 1);
      SmallerFactor(q, 256, zoomY + 1);
    }
  }

  /** The tile row drawn: the line within the sprite, mirrored at the middle and, for
      tall sprites, at every period of the zoom. */
  function TileRow(rom: seq<u8>, line: int, y: int, rows: int, zoomY: u8): int {
    var spriteLine := (line - y) % 512;
    var inverted := spriteLine / 256 % 2 == 1;
    var zoomLine := if inverted then 255 - spriteLine % 256 else spriteLine % 256;
    var period := 2 * (zoomY + 1);
    var folded := zoomLine % period;
    var mirrored := rows > 0x20 && folded > zoomY;
    var source := if rows <= 0x20 then zoomLine else if mirrored then period - 1 - folded else folded;
    var tile := ZoomTile(rom, zoomY, source % 256);
    if inverted != mirrored then Flip5(tile) else tile
  }

  lemma TileRowIsSmall(rom: seq<u8>, line: int, y: int, rows: int, zoomY: u8)
    ensures 0 <= TileRow(rom, line, y, rows, zoomY) < 32
  {
    hide ZoomTile;
    forall v: u8 ensures 0 <= ZoomTile(rom, zoomY, v) < 16 {
      ZoomTileIsSmall(rom, zoomY, v);
    }
  }

  // ---------------------------------------------------------------- the second pass

  /** Off the right edge and not yet round to the left. */
  predicate OffScreen(x: int) { FRAME_WIDTH <= x <= 0x1F0 }

  function CountOff(vram: Vram, sprites: seq<nat>): nat
    requires forall i :: 0 <= i < |sprites| ==> sprites[i] < DISPLAY_LIMIT
  {
    if sprites == [] then 0
    else CountOff(vram, sprites[..|sprites| - 1]) + if OffScreen(X(vram, sprites[|sprites| - 1])) then 1 else 0
  }

  datatype Totals = Totals(active: nat, drawable: nat, xSkipped: nat, mapSkipped: int, rechecked: int)

  /** What the second pass carries from one listed sprite to the next. */
  datatype Chain = Chain(x: int, y: int, rows: int, zoomY: int, zoomX: int)

  function ChainAt(vram: Vram, sprite: nat): Chain
    requires sprite < DISPLAY_LIMIT
  {
    var s := ShapeOf(vram, sprite);
    Chain(X(vram, sprite), s.y, s.rows, ZoomY(vram, sprite), ZoomX(vram, sprite))
  }

  /** The chain variables for the next sprite of the list. */
  function Follow(vram: Vram, chain: Chain, sprite: nat): Chain
    requires sprite < DISPLAY_LIMIT
  {
    var scb2, scb3, scb4 := Scb2(vram, sprite), Scb3(vram, sprite), Scb4(vram, sprite);
    if Sticky(scb3) then Chain((chain.x + chain.zoomX + 1) % 512, chain.y, chain.rows, chain.zoomY, scb2 / 256 % 16)
    else Chain(scb4 / 128 % 512, SpriteY(scb3), Rows(scb3), scb2 % 256, scb2 / 256 % 16)
  }

  /** Following the filtered list comes to the same as following the hardware's chain. */
  lemma FollowIsChain(vram: Vram, line: int, i: nat, chain: Chain)
    requires var list := Actives(vram, line, DISPLAY_LIMIT);
             i < |list| && (i > 0 ==> chain == ChainAt(vram, list[i - 1]))
    ensures var sprite := Actives(vram, line, DISPLAY_LIMIT)[i]; Follow(vram, chain, sprite) == ChainAt(vram, sprite)
  {
    hide Sticky, SpriteY, Rows, OnScanline, Active;
    var sprite := Actives(vram, line, DISPLAY_LIMIT)[i];
    if Sticky(Scb3(vram, sprite)) {
      StickyFollowsItsPredecessor(vram, line, DISPLAY_LIMIT, i);
    }
  }

  lemma ZoomIsByte(vram: Vram, sprite: nat)
    requires sprite < DISPLAY_LIMIT
    ensures 0 <= ZoomY(vram, sprite) < 0x100
  {
  }

  /** The chain walk of print_sprite_report on one scanline; `palettes` counts the
      samples of each palette, `decode` finds the palette in a sprite-map entry. */
  method WalkChains(vram: Vram, rom: seq<u8>, line: int, sprites: seq<nat>, decode: (u16, u16) -> u8,
                    palettes: array<nat>)
    returns (t: Totals)
    requires sprites == Limited(Actives(vram, line, DISPLAY_LIMIT)) && palettes.Length == 256
    modifies palettes
    ensures t.active == |sprites| && t.active == t.drawable + t.xSkipped
    ensures t.xSkipped == CountOff(vram, sprites) && t.mapSkipped == 0 && t.rechecked == 0
    ensures Sum(palettes[..]) == old(Sum(palettes[..])) + t.drawable
  {
    hide Actives, Follow, OnScanline, TileRow, ShapeOf, X, ZoomY, ZoomX, OffScreen, Sum;
    t := Totals(0, 0, 0, 0, 0);
    var chain := Chain(0, 0, 0, 0xFF, 0x0F);
    for i := 0 to |sprites|
      invariant i > 0 ==> chain == ChainAt(vram, sprites[i - 1])
      invariant t.active == i == t.drawable + t.xSkipped
      invariant t.xSkipped == CountOff(vram, sprites[..i]) && t.mapSkipped == 0 && t.rechecked == 0
      invariant Sum(palettes[..]) == old(Sum(palettes[..])) + t.drawable
    {
      var sprite := sprites[i];
      ListedIsActive(vram, line, i);
      FollowIsChain(vram, line, i, chain);
      chain := Follow(vram, chain, sprite);
      assert sprites[..i + 1][..i] == sprites[..i];
      t := t.(active := t.active + 1);
      if chain.rows == 0 || !OnScanline(line, chain.y, chain.rows) {
        t := t.(rechecked := t.rechecked + 1);
        continue;
      }
      if OffScreen(chain.x) {
        t := t.(xSkipped := t.xSkipped + 1);
        continue;
      }
      ZoomIsByte(vram, sprite);
      var tileY := TileRow(rom, line, chain.y, chain.rows, chain.zoomY);
      TileRowIsSmall(rom, line, chain.y, chain.rows, chain.zoomY);
      var mapAddr := sprite * 64 + tileY * 2;
      if mapAddr + 1 >= 0x7000 {
        t := t.(mapSkipped := t.mapSkipped + 1);
        continue;
      }
      var palette := decode(vram[mapAddr], vram[mapAddr + 1]);
      SumGrows(palettes[..], palette);
      palettes[palette] := palettes[palette] + 1;
      t := t.(drawable := t.drawable + 1);
    }
    assert sprites[..|sprites|] == sprites;
  }

  lemma ListedIsActive(vram: Vram, line: int, i: nat)
    requires i < |Limited(Actives(vram, line, DISPLAY_LIMIT))|
    ensures var list := Actives(vram, line, DISPLAY_LIMIT);
            && i < |list| && list[i] == Limited(list)[i] < DISPLAY_LIMIT
            && ShapeOf(vram, list[i]).rows != 0
            && OnScanline(line, ShapeOf(vram, list[i]).y, ShapeOf(vram, list[i]).rows)
  {
    hide OnScanline, ShapeOf;
  }

  function Sum(xs: seq<nat>): nat {
    if xs == [] then 0 else xs[0] + Sum(xs[1..])
  }

  lemma {:induction false} SumGrows(xs: seq<nat>, i: nat)
    requires i < |xs|
    ensures Sum(xs[i := xs[i] + 1]) == Sum(xs) + 1
  {
    var ys := xs[i := xs[i] + 1];
    if i == 0 {
      assert ys[1..] == xs[1..];
    } else {
      assert ys[1..] == xs[1..][i - 1 := xs[1..][i - 1] + 1];
      SumGrows(xs[1..], i - 1);
    }
  }

  lemma {:induction false} SumOfZeros(n: nat)
    ensures Sum(seq(n, _ => 0)) == 0
  {
    if n > 0 {
      assert seq(n, _ => 0)[1..] == seq(n - 1, _ => 0);
      SumOfZeros(n - 1);
    }
  }

  /** print_sprite_report over all scanlines: every listed sample is drawable or off
      screen, none is rejected by the recheck or by the map guard, and the palette
      counts add up to the drawable samples. */
  method SpriteReport(vram: Vram, rom: seq<u8>, decode: (u16, u16) -> u8)
    returns (t: Totals, limitedLines: nat, maxActive: nat, paletteSamples: seq<nat>)
    ensures t.active == t.drawable + t.xSkipped && t.mapSkipped == 0 && t.rechecked == 0
    ensures |paletteSamples| == 256 && Sum(paletteSamples) == t.drawable
    ensures limitedLines <= FRAME_HEIGHT && maxActive <= PER_SCANLINE
    ensures limitedLines > 0 ==> maxActive == PER_SCANLINE
    ensures forall line :: 0 <= line < FRAME_HEIGHT ==> |Limited(Actives(vram, line, DISPLAY_LIMIT))| <= maxActive
  {
    hide Actives, Sum, Limited;
    var palettes := new nat[256](_ => 0);
    assert palettes[..] == seq(256, _ => 0);
    SumOfZeros(256);
    var active := new nat[PER_SCANLINE](_ => 0);
    t, limitedLines, maxActive := Totals(0, 0, 0, 0, 0), 0, 0;
    for line := 0 to FRAME_HEIGHT
      invariant t.active == t.drawable + t.xSkipped && t.mapSkipped == 0 && t.rechecked == 0
      invariant Sum(palettes[..]) == t.drawable
      invariant limitedLines <= line && maxActive <= PER_SCANLINE
      invariant limitedLines > 0 ==> maxActive == PER_SCANLINE
      invariant forall k :: 0 <= k < line ==> |Limited(Actives(vram, k, DISPLAY_LIMIT))| <= maxActive
    {
      var count, limited := BuildActiveSpriteList(vram, line, active);
      LimitedFills(Actives(vram, line, DISPLAY_LIMIT));
      if count > maxActive {
        maxActive := count;
      }
      if limited {
        limitedLines := limitedLines + 1;
      }
      var u := WalkChains(vram, rom, line, active[..count], decode, palettes);
      t := Totals(t.active + u.active, t.drawable + u.drawable, t.xSkipped + u.xSkipped,
                  t.mapSkipped + u.mapSkipped, t.rechecked + u.rechecked);
    }
    paletteSamples := palettes[..];
  }

  lemma LimitedFills(xs: seq<nat>)
    ensures |Limited(xs)| <= PER_SCANLINE && (|xs| >= PER_SCANLINE ==> |Limited(xs)| == PER_SCANLINE)
  {
  }
}
