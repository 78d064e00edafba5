/** The tile camera of the trigger, scaled-tile and smooth-scrolling demos:
    a map position in tiles, an on-screen viewport in pixels, the number of
    whole tiles that fit in it, and the draw loop that picks one tile index
    per screen cell (the edge tile for cells off the map). The
    smooth-scrolling copy adds a sub-tile pixel offset; the scaled copy adds
    a scale and a cache (see `ScaledCamera`). */
module Camera {
  import opened Wrappers
  import opened Arith
  import opened Grid
  import opened Tiled

  /** The rescaling functions the scaled demo switches between. */
  datatype Algo = Scale | SmoothScale | Scale2x

  /** A rescaled copy of one tile image. */
  datatype Scaled = Scaled(source: TileImage, algo: Algo, width: int, height: int)

  /** The camera's fields. `tilesWide`/`tilesHigh` are the source's
      `tile_width`/`tile_height` (a count of tiles, not a size). */
  datatype Camera = Camera(x: int, y: int, tilesWide: int, tilesHigh: int, viewport: Rect, edgeTile: int,
                           offsetX: int, offsetY: int, scale: int, algo: Option<Algo>, cache: map<int, Scaled>)

  /** The constructor: at (0, 0), no viewport yet, edge tile 0, aligned to
      the tile grid, unscaled, with an empty cache. */
  function NewCamera(): (c: Camera)
    ensures c.x == 0 && c.y == 0 && c.tilesWide == 0 && c.tilesHigh == 0 && c.edgeTile == 0
    ensures c.offsetX == 0 && c.offsetY == 0 && c.scale == 1 && c.algo.None? && c.cache == map[]
  {
    Camera(0, 0, 0, 0, Rect(0, 0, 0, 0), 0, 0, 0, 1, None, map[])
  }

  /** `set_viewport`: as many whole map tiles as fit across and down the
      viewport (floor division). */
  function SetViewport(cam: Camera, viewport: Rect, tw: pos, th: pos): (r: Camera)
    requires viewport.width >= 0 && viewport.height >= 0
    ensures r == cam.(viewport := viewport, tilesWide := r.tilesWide, tilesHigh := r.tilesHigh)
    ensures r.tilesWide * tw <= viewport.width < (r.tilesWide + 1) * tw
    ensures r.tilesHigh * th <= viewport.height < (r.tilesHigh + 1) * th
  {
    cam.(viewport := viewport, tilesWide := viewport.width / tw, tilesHigh := viewport.height / th)
  }

  /** `set_position`. */
  function SetPosition(cam: Camera, x: int, y: int): (r: Camera)
    ensures r.x == x && r.y == y && r == cam.(x := x, y := y)
  {
    cam.(x := x, y := y)
  }

  /** The map cell under draw cell `c`: the camera position is the centre
      of the grid of cells. */
  function MapCellOf(cam: Camera, c: Cell): Cell {
    Cell(cam.x - cam.tilesWide / 2 + c.x, cam.y - cam.tilesHigh / 2 + c.y)
  }

  predicate OnMap(m: TileMap, c: Cell) {
    0 <= c.x < m.width && 0 <= c.y < m.height
  }

  /** The tile index draw cell `c` uses: `edge_tile` off the map,
      `get_tile` on it (`None` when `get_tile` raises). */
  function TileIndexAt(m: TileMap, cam: Camera, layer: string, c: Cell): Option<int> {
    var mc := MapCellOf(cam, c);
    if !OnMap(m, mc) then Some(cam.edgeTile) else GetTile(m, layer, mc.x, mc.y)
  }

  /** Draw cell `c` shows map tile (cam.x - tilesWide // 2 + c.x,
      cam.y - tilesHigh // 2 + c.y): its row-major layer entry when that
      tile is on a well-formed map, the edge tile otherwise. */
  lemma TileIndexAtReads(m: TileMap, cam: Camera, layer: string, c: Cell)
    requires WellFormed(m) && layer in m.layers
    ensures MapCellOf(cam, c) == Cell(cam.x - cam.tilesWide / 2 + c.x, cam.y - cam.tilesHigh / 2 + c.y)
    ensures var mc := MapCellOf(cam, c); OnMap(m, mc) ==>
      0 <= mc.x + mc.y * m.width < |m.layers[layer]| &&
      TileIndexAt(m, cam, layer, c) == Some(m.layers[layer][mc.x + mc.y * m.width])
    ensures !OnMap(m, MapCellOf(cam, c)) ==> TileIndexAt(m, cam, layer, c) == Some(cam.edgeTile)
  {
    var mc := MapCellOf(cam, c);
    if OnMap(m, mc) {
      GetTileInside(m, layer, mc.x, mc.y);
    }
  }

  /** `get_rect`: where the avatar is drawn, the screen cell in the middle
      of the camera's grid, one tile (times the scale) in size. */
  function GetRect(cam: Camera, tw: pos, th: pos): (r: Rect)
    ensures r.width == tw * cam.scale && r.height == th * cam.scale
  {
    Rect(cam.tilesWide / 2 * tw, cam.tilesHigh / 2 * th, tw * cam.scale, th * cam.scale)
  }

  /** Why a draw aborts. */
  datatype DrawError =
    | LookupError         // get_tile raised (KeyError or IndexError)
    | TextureIndexError   // tiles[idx] raised
    | NoneTile            // the None tile reached blit or a scaling function
    | UnsupportedScale    // RuntimeError('Only 1x and 2x are supported.')
    | NoAlgorithm         // scale 2 with no scaling function set

  /** The unscaled screen rectangle of draw cell `c`, shifted by the
      camera's pixel offset. */
  function CellTarget(cam: Camera, c: Cell, tw: pos, th: pos): Rect {
    Rect(cam.viewport.x + c.x * tw + cam.offsetX, cam.viewport.y + c.y * th + cam.offsetY, tw, th)
  }

  /** One cell of the unscaled draw loop. With `skipEmpty` (the
      smooth-scrolling copy's `tile_idx != 0`) index 0 draws nothing;
      without it (the `tile_idx is not None` test of the other copies,
      which always holds) index 0 sends the `None` tile to `blit`. */
  function DrawCell(m: TileMap, cam: Camera, layer: string, skipEmpty: bool, c: Cell): (r: Result<Option<Blit>, DrawError>)
    ensures TileIndexAt(m, cam, layer, c).None? ==> r == Failure(LookupError)
    ensures skipEmpty && TileIndexAt(m, cam, layer, c) == Some(0) ==> r == Success(None)
    ensures r.Success? && r.value.Some? ==>
      var b := r.value.value;
      TileIndexAt(m, cam, layer, c) == Some(b.tile) && b.target == CellTarget(cam, c, m.tileWidth, m.tileHeight) &&
      PyIndex(m.tiles, b.tile).Some? && PyIndex(m.tiles, b.tile).value.Some?
  {
    match TileIndexAt(m, cam, layer, c)
    case None => Failure(LookupError)
    case Some(idx) =>
      if skipEmpty && idx == 0 then Success(None)
      else
        match PyIndex(m.tiles, idx)
        case None => Failure(TextureIndexError)
        case Some(tile) =>
          if tile.None? then Failure(NoneTile)
          else Success(Some(Blit(idx, CellTarget(cam, c, m.tileWidth, m.tileHeight))))
  }

  /** `draw` of the trigger demo as written: `range(tilesHigh)` by
      `range(tilesWide)`, index 0 not skipped. */
  function DrawTriggers(m: TileMap, cam: Camera, layer: string): Result<seq<Blit>, DrawError> {
    Collect(RowMajor(0, cam.tilesWide, 0, cam.tilesHigh), c => DrawCell(m, cam, layer, false, c))
  }

  /** The trigger demo's draw with the smooth-scrolling copy's `!= 0` test. */
  function DrawTriggersFixed(m: TileMap, cam: Camera, layer: string): Result<seq<Blit>, DrawError> {
    Collect(RowMajor(0, cam.tilesWide, 0, cam.tilesHigh), c => DrawCell(m, cam, layer, true, c))
  }

  /** `draw` of the smooth-scrolling demo: one extra cell all round (two
      extra rows below) to cover the pixel offset, index 0 skipped. */
  function DrawSmooth(m: TileMap, cam: Camera, layer: string): Result<seq<Blit>, DrawError> {
    Collect(RowMajor(-1, cam.tilesWide + 1, -1, cam.tilesHigh + 2), c => DrawCell(m, cam, layer, true, c))
  }

  /** The draw cells the smooth-scrolling demo visits: rows -1 through
      tilesHigh + 1 and columns -1 through tilesWide, row by row. */
  lemma DrawSmoothCells(cam: Camera, c: Cell)
    ensures c in RowMajor(-1, cam.tilesWide + 1, -1, cam.tilesHigh + 2) <==>
      -1 <= c.x <= cam.tilesWide && -1 <= c.y <= cam.tilesHigh + 1
    ensures RowMajorOrdered(RowMajor(-1, cam.tilesWide + 1, -1, cam.tilesHigh + 2))
  {
  }

  /** Every layer entry and the edge tile name a tile of the list. */
  predicate ValidIndices(m: TileMap, layer: string, cam: Camera) {
    layer in m.layers && 0 <= cam.edgeTile < |m.tiles| &&
    forall i :: 0 <= i < |m.layers[layer]| ==> 0 <= m.layers[layer][i] < |m.tiles|
  }

  /** What a draw cell should show: its tile, at its screen rectangle,
      unless the tile is 0. */
  function Shown(m: TileMap, cam: Camera, layer: string, c: Cell): Option<Blit> {
    match TileIndexAt(m, cam, layer, c)
    case Some(idx) => if idx != 0 then Some(Blit(idx, CellTarget(cam, c, m.tileWidth, m.tileHeight))) else None
    case None => None
  }

  lemma DrawCellShown(m: TileMap, cam: Camera, layer: string, c: Cell)
    requires WellFormed(m) && TileList(m.tiles) && ValidIndices(m, layer, cam)
    ensures DrawCell(m, cam, layer, true, c) == Success(Shown(m, cam, layer, c))
  {
    TileIndexAtReads(m, cam, layer, c);
    var mc := MapCellOf(cam, c);
    if OnMap(m, mc) {
      RowMajorBound(m.width, m.height, mc.x, mc.y);
    }
  }

  /** With index 0 skipped, any block of draw cells over a well-formed map
      draws without error and blits exactly the non-empty tiles of its
      cells, each at the cell's screen rectangle. */
  lemma DrawShowsNonEmpty(m: TileMap, cam: Camera, layer: string, x0: int, x1: int, y0: int, y1: int)
    requires WellFormed(m) && TileList(m.tiles) && ValidIndices(m, layer, cam)
    ensures Collect(RowMajor(x0, x1, y0, y1), c => DrawCell(m, cam, layer, true, c)).Success?
    ensures forall b :: b in Collect(RowMajor(x0, x1, y0, y1), c => DrawCell(m, cam, layer, true, c)).value <==>
      exists c: Cell :: x0 <= c.x < x1 && y0 <= c.y < y1 && Shown(m, cam, layer, c) == Some(b)
  {
    var f := c => DrawCell(m, cam, layer, true, c);
    var g := c => Shown(m, cam, layer, c);
    forall c: Cell | x0 <= c.x < x1 && y0 <= c.y < y1
      ensures f(c) == Success(g(c))
    {
      DrawCellShown(m, cam, layer, c);
    }
    CollectRect(x0, x1, y0, y1, f, g);
  }

  /** The trigger demo's draw as written fails as soon as one visible cell
      holds tile 0 (an empty cell of the layer, or the constructor's edge
      tile 0 off the map): `tiles[0]` is `None`. */
  lemma DrawTriggersFailsOnEmpty(m: TileMap, cam: Camera, layer: string, c: Cell)
    requires TileList(m.tiles)
    requires 0 <= c.x < cam.tilesWide && 0 <= c.y < cam.tilesHigh
    requires TileIndexAt(m, cam, layer, c) == Some(0)
    ensures DrawTriggers(m, cam, layer).Failure?
  {
    var cells := RowMajor(0, cam.tilesWide, 0, cam.tilesHigh);
    assert c in cells;
    var i :| 0 <= i < |cells| && cells[i] == c;
    assert DrawCell(m, cam, layer, false, cells[i]) == Failure(NoneTile);
  }

  /** The fixed draw of the trigger demo, like the smooth-scrolling one,
      never blits tile 0. */
  lemma DrawNeverBlitsEmpty(m: TileMap, cam: Camera, layer: string)
    ensures DrawTriggersFixed(m, cam, layer).Success? ==>
      forall b :: b in DrawTriggersFixed(m, cam, layer).value ==> b.tile != 0
    ensures DrawSmooth(m, cam, layer).Success? ==>
      forall b :: b in DrawSmooth(m, cam, layer).value ==> b.tile != 0
  {
  }

  /** The draw cell in the middle of the grid is the camera's own map tile,
      drawn where `get_rect` puts the avatar when the viewport is at the
      screen origin and the camera is aligned. */
  lemma CentreCellIsCamera(cam: Camera, tw: pos, th: pos)
    requires cam.viewport.x == 0 && cam.viewport.y == 0 && cam.offsetX == 0 && cam.offsetY == 0
    requires cam.scale == 1
    ensures var c := Cell(cam.tilesWide / 2, cam.tilesHigh / 2);
      MapCellOf(cam, c) == Cell(cam.x, cam.y) && CellTarget(cam, c, tw, th) == GetRect(cam, tw, th)
  {
  }

  // ----------------------------------------------- smooth scrolling

  /** `set_offset(x, y)`: an offset that is a whole number of tiles moves
      the camera by that many tiles (the other way) and realigns it;
      otherwise the camera stays and keeps the offset. Each axis on its
      own. */
  function SetOffset(cam: Camera, ox: int, oy: int, tw: pos, th: pos): (r: Camera)
    ensures ox % tw == 0 ==> r.x == cam.x - ox / tw && r.offsetX == 0
    ensures ox % tw != 0 ==> r.x == cam.x && r.offsetX == ox
    ensures oy % th == 0 ==> r.y == cam.y - oy / th && r.offsetY == 0
    ensures oy % th != 0 ==> r.y == cam.y && r.offsetY == oy
    ensures r == cam.(x := r.x, offsetX := r.offsetX, y := r.y, offsetY := r.offsetY)
  {
    var c1 := if ox % tw == 0 then cam.(x := cam.x - ox / tw, offsetX := 0) else cam.(offsetX := ox);
    if oy % th == 0 then c1.(y := c1.y - oy / th, offsetY := 0) else c1.(offsetY := oy)
  }

  /** The pixel step along one axis: -1 for the first key, 1 for the
      second, the second winning when both are held. */
  function KeyDelta(negative: bool, positive: bool): (d: int)
    ensures -1 <= d <= 1
    ensures positive ==> d == 1
    ensures !positive && negative ==> d == -1
    ensures !positive && !negative ==> d == 0
  {
    var d := if negative then -1 else 0;
    if positive then 1 else d
  }

  /** The keys held during one smooth-scrolling tick. */
  datatype Keys = Keys(up: bool, down: bool, left: bool, right: bool)

  /** The map pixel column the avatar's left edge is over. `draw` puts map
      column `cam.x` at `offsetX` pixels right of the avatar, so the avatar
      sits `offsetX` pixels left of that column's edge. */
  function ViewPixelX(cam: Camera, tw: pos): int {
    cam.x * tw - cam.offsetX
  }

  /** The same for rows. */
  function ViewPixelY(cam: Camera, th: pos): int {
    cam.y * th - cam.offsetY
  }

  /** The walkable branch of `update`: move the offset one pixel against
      the key direction, so the view scrolls one pixel with the key. */
  function Nudge(cam: Camera, dx: int, dy: int, tw: pos, th: pos): (r: Camera)
    ensures ViewPixelX(r, tw) == ViewPixelX(cam, tw) + dx
    ensures ViewPixelY(r, th) == ViewPixelY(cam, th) + dy
    ensures r == cam.(x := r.x, offsetX := r.offsetX, y := r.y, offsetY := r.offsetY)
  {
    WholeTiles(cam.offsetX - dx, tw);
    WholeTiles(cam.offsetY - dy, th);
    SetOffset(cam, cam.offsetX - dx, cam.offsetY - dy, tw, th)
  }

  lemma WholeTiles(o: int, t: pos)
    ensures o % t == 0 ==> (o / t) * t == o
  {
    DivModUnique(o, t, o / t, o % t);
  }

  /** `update` of the smooth-scrolling demo on a tick that is due: the
      tile the avatar would step into is looked up in the `Unwalkable`
      layer; 0 lets the step happen, anything else leaves the camera as it
      was. `None` is the `get_tile` exception. */
  function UpdateSmooth(m: TileMap, cam: Camera, keys: Keys): (r: Option<Camera>)
    ensures var dx, dy := KeyDelta(keys.left, keys.right), KeyDelta(keys.up, keys.down);
      var tx := (cam.x * m.tileWidth + cam.offsetX) / m.tileWidth + dx;
      var ty := (cam.y * m.tileHeight + cam.offsetY) / m.tileHeight + dy;
      && (GetTile(m, "Unwalkable", tx, ty).None? <==> r.None?)
      // a walkable tile: the view scrolls exactly one pixel with the keys,
      // and only the position and offsets change
      && (GetTile(m, "Unwalkable", tx, ty) == Some(0) ==>
            && r.Some?
            && ViewPixelX(r.value, m.tileWidth) == ViewPixelX(cam, m.tileWidth) + dx
            && ViewPixelY(r.value, m.tileHeight) == ViewPixelY(cam, m.tileHeight) + dy
            && r.value == cam.(x := r.value.x, offsetX := r.value.offsetX, y := r.value.y, offsetY := r.value.offsetY))
      // an unwalkable one: nothing moves
      && (GetTile(m, "Unwalkable", tx, ty).Some? && GetTile(m, "Unwalkable", tx, ty) != Some(0) ==> r == Some(cam))
  {
    var dx := KeyDelta(keys.left, keys.right);
    var dy := KeyDelta(keys.up, keys.down);
    var tx := (cam.x * m.tileWidth + cam.offsetX) / m.tileWidth + dx;
    var ty := (cam.y * m.tileHeight + cam.offsetY) / m.tileHeight + dy;
    match GetTile(m, "Unwalkable", tx, ty)
    case None => None
    case Some(tile) => Some(if tile == 0 then Nudge(cam, dx, dy, m.tileWidth, m.tileHeight) else cam)
  }

  /** The offsets stay strictly within one tile of the grid. */
  predicate OffsetInTile(cam: Camera, tw: pos, th: pos) {
    -(tw as int) < cam.offsetX < tw && -(th as int) < cam.offsetY < th
  }

  lemma NudgeKeepsOffsetInTile(cam: Camera, dx: int, dy: int, tw: pos, th: pos)
    requires OffsetInTile(cam, tw, th) && -1 <= dx <= 1 && -1 <= dy <= 1
    ensures OffsetInTile(Nudge(cam, dx, dy, tw, th), tw, th)
  {
    var ox, oy := cam.offsetX - dx, cam.offsetY - dy;
    if ox == tw || ox == -(tw as int) {
      assert ox % tw == 0 by { DivModUnique(ox, tw, if ox == tw then 1 else -1, 0); }
    }
    if oy == th || oy == -(th as int) {
      assert oy % th == 0 by { DivModUnique(oy, th, if oy == th then 1 else -1, 0); }
    }
  }

  /** Every smooth-scrolling update keeps the offsets within one tile. */
  lemma UpdateSmoothKeepsOffsetInTile(m: TileMap, cam: Camera, keys: Keys)
    requires OffsetInTile(cam, m.tileWidth, m.tileHeight)
    requires UpdateSmooth(m, cam, keys).Some?
    ensures OffsetInTile(UpdateSmooth(m, cam, keys).value, m.tileWidth, m.tileHeight)
  {
    NudgeKeepsOffsetInTile(cam, KeyDelta(keys.left, keys.right), KeyDelta(keys.up, keys.down), m.tileWidth, m.tileHeight);
  }

  /** As written, the lookup reads the column holding map pixel
      `x·tw + offset_x`, the mirror image of the avatar's `x·tw − offset_x`.
      Part way through a step right (offset `−k`), a step left is decided
      by column `x − 2`, although the avatar's left edge stays inside
      column `x`, so it only covers columns `x` and `x + 1`. */
  lemma SmoothLeftChecksTwoBack(m: TileMap, cam: Camera)
    requires 0 < -cam.offsetX < m.tileWidth && cam.offsetY == 0
    ensures var r := UpdateSmooth(m, cam, Keys(false, false, true, false));
      var t := GetTile(m, "Unwalkable", cam.x - 2, cam.y);
      && (t.None? <==> r.None?)
      && (t.Some? && t != Some(0) ==> r == Some(cam))
      && (t == Some(0) ==> r.Some? && ViewPixelX(r.value, m.tileWidth) == ViewPixelX(cam, m.tileWidth) - 1)
    // after the step the avatar covers pixels p .. p + tw - 1, all inside
    // columns x and x + 1
    ensures var p := ViewPixelX(cam, m.tileWidth) - 1;
      cam.x * m.tileWidth <= p && p + m.tileWidth - 1 < (cam.x + 2) * m.tileWidth
  {
    var tw := m.tileWidth;
    DivModUnique(cam.x * tw + cam.offsetX, tw, cam.x - 1, tw + cam.offsetX);
    DivModUnique(cam.y * m.tileHeight, m.tileHeight, cam.y, 0);
  }

  /** `n` walkable ticks with only the right key held. */
  function NudgeRight(cam: Camera, n: nat, tw: pos, th: pos): Camera
    decreases n
  {
    if n == 0 then cam else NudgeRight(Nudge(cam, 1, 0, tw, th), n - 1, tw, th)
  }

  /** A nudge series from offset `-j` continues to offset `-(j + k)` while
      that stays inside the tile. */
  lemma {:induction false} NudgeRightShift(cam: Camera, k: nat, tw: pos, th: pos)
    requires cam.offsetY == 0 && cam.offsetX <= 0 && -cam.offsetX + k < tw
    ensures NudgeRight(cam, k, tw, th) == cam.(offsetX := cam.offsetX - k)
    decreases k
  {
    if k > 0 {
      var ox := cam.offsetX - 1;
      assert ox % tw != 0 by { DivModUnique(ox, tw, -1, tw + ox); }
      var c1 := Nudge(cam, 1, 0, tw, th);
      assert c1 == cam.(offsetX := ox);
      NudgeRightShift(c1, k - 1, tw, th);
    }
  }

  /** `tw` walkable right steps from an aligned camera move it exactly one
      tile right and leave it aligned again. */
  lemma RightStepsAdvanceOneTile(cam: Camera, tw: pos, th: pos)
    requires cam.offsetX == 0 && cam.offsetY == 0
    ensures NudgeRight(cam, tw, tw, th) == cam.(x := cam.x + 1)
  {
    NudgeRightShift(cam, tw - 1, tw, th);
    NudgeRightSplit(cam, tw - 1, 1, tw, th);
    var t: int := -(tw as int);
    assert t % tw == 0 && t / tw == -1 by { DivModUnique(t, tw, -1, 0); }
  }

  lemma {:induction false} NudgeRightSplit(cam: Camera, a: nat, b: nat, tw: pos, th: pos)
    ensures NudgeRight(cam, a + b, tw, th) == NudgeRight(NudgeRight(cam, a, tw, th), b, tw, th)
    decreases a
  {
    if a > 0 {
      NudgeRightSplit(Nudge(cam, 1, 0, tw, th), a - 1, b, tw, th);
    }
  }
}
