/** The scaled-tile demo's camera: a scale of 1 or 2, the rescaling
    function in use, and a memo of rescaled tiles keyed by tile index that
    the draw loop fills and `set_scale` empties. The rescalers themselves
    are opaque; a rescaled tile is described by its source, the function
    used and its doubled size. */
module ScaledCamera {
  import opened Wrappers
  import opened Grid
  import opened Tiled
  import opened Camera

  /** `set_scale`: new scale and function, cache emptied. */
  function SetScale(cam: Camera, scale: int, algo: Option<Algo>): (r: Camera)
    ensures r.cache == map[]
    ensures r.scale == scale && r.algo == algo
    ensures r == cam.(scale := scale, algo := algo, cache := r.cache)
  {
    cam.(scale := scale, algo := algo, cache := map[])
  }

  /** `get_scaled_tile` without the cache: `tiles[idx]`, then `scale2x`
      (which doubles) or the chosen function asked for twice the tile's
      size. A `None` tile fails inside the rescaler or at `get_rect`, a
      missing function when it is called. */
  function Rescale(tiles: seq<Option<TileImage>>, algo: Option<Algo>, idx: int): (r: Result<Scaled, DrawError>)
    ensures PyIndex(tiles, idx).None? ==> r == Failure(TextureIndexError)
    ensures PyIndex(tiles, idx) == Some(None) ==> r == Failure(NoneTile)
    ensures r.Success? <==> PyIndex(tiles, idx).Some? && PyIndex(tiles, idx).value.Some? && algo.Some?
    ensures r.Success? ==>
      && PyIndex(tiles, idx) == Some(Some(r.value.source)) && algo == Some(r.value.algo)
      && r.value.width == 2 * r.value.source.width && r.value.height == 2 * r.value.source.height
  {
    match PyIndex(tiles, idx)
    case None => Failure(TextureIndexError)
    case Some(tile) =>
      if tile.None? then Failure(NoneTile)
      else if algo.None? then Failure(NoAlgorithm)
      else Success(Scaled(tile.value, algo.value, 2 * tile.value.width, 2 * tile.value.height))
  }

  /** `get_scaled_tile`: a hit returns the stored tile and leaves the
      cache alone; a miss rescales and stores the result under that index
      only. The second component is the cache afterwards. */
  function GetScaledTile(tiles: seq<Option<TileImage>>, algo: Option<Algo>, cache: map<int, Scaled>, idx: int)
    : (r: Result<(Scaled, map<int, Scaled>), DrawError>)
    ensures idx in cache ==> r == Success((cache[idx], cache))
    ensures idx !in cache ==> (r.Success? <==> Rescale(tiles, algo, idx).Success?)
    ensures idx !in cache && r.Failure? ==> r.error == Rescale(tiles, algo, idx).error
    ensures r.Success? ==> r.value.1 == cache[idx := r.value.0] && r.value.1.Keys == cache.Keys + {idx}
  {
    if idx in cache then Success((cache[idx], cache))
    else
      match Rescale(tiles, algo, idx)
      case Failure(e) => Failure(e)
      case Success(s) => Success((s, cache[idx := s]))
  }

  /** Every stored tile is what rescaling its index would give now. */
  predicate CacheSound(tiles: seq<Option<TileImage>>, algo: Option<Algo>, cache: map<int, Scaled>) {
    forall k :: k in cache ==> Rescale(tiles, algo, k) == Success(cache[k])
  }

  /** With a sound cache, the memo is invisible: `get_scaled_tile` fails
      or succeeds exactly as rescaling does, returns the same tile, and
      leaves the cache sound. */
  lemma GetScaledTileAgrees(tiles: seq<Option<TileImage>>, algo: Option<Algo>, cache: map<int, Scaled>, idx: int)
    requires CacheSound(tiles, algo, cache)
    ensures var r := GetScaledTile(tiles, algo, cache, idx);
      && (r.Success? ==> Rescale(tiles, algo, idx) == Success(r.value.0) && CacheSound(tiles, algo, r.value.1))
      && (r.Failure? ==> Rescale(tiles, algo, idx) == Failure(r.error))
  {
  }

  /** Where draw cell `c` lands at the camera's scale: the viewport origin
      plus the cell's position in scaled tiles, one scaled tile in size. */
  function ScaledTarget(cam: Camera, c: Cell, tw: pos, th: pos): Rect {
    Rect(cam.viewport.x + c.x * tw * cam.scale, cam.viewport.y + c.y * th * cam.scale, tw * cam.scale, th * cam.scale)
  }

  /** At scale 2, cell (x, y) lands at the viewport origin plus
      (x * tw * 2, y * th * 2), two tiles in size. */
  lemma ScaledTargetTwo(cam: Camera, c: Cell, tw: pos, th: pos)
    requires cam.scale == 2
    ensures ScaledTarget(cam, c, tw, th) == Rect(cam.viewport.x + c.x * tw * 2, cam.viewport.y + c.y * th * 2, tw * 2, th * 2)
  {
  }

  /** Blit `b` is draw cell `c`'s tile at `c`'s scaled position. */
  predicate Placed(m: TileMap, cam: Camera, layer: string, c: Cell, b: Blit) {
    TileIndexAt(m, cam, layer, c) == Some(b.tile) && b.target == ScaledTarget(cam, c, m.tileWidth, m.tileHeight)
  }

  /** The drawing step for one cell of the scaled demo, without the cache:
      scale 1 blits `tiles[idx]`, scale 2 the rescaled tile, any other
      scale raises. */
  function DrawCellPlain(m: TileMap, cam: Camera, layer: string, c: Cell): (r: Result<Option<Blit>, DrawError>)
    ensures TileIndexAt(m, cam, layer, c).None? ==> r == Failure(LookupError)
    ensures TileIndexAt(m, cam, layer, c).Some? && cam.scale != 1 && cam.scale != 2 ==> r == Failure(UnsupportedScale)
    ensures r.Success? ==> r.value.Some? && Placed(m, cam, layer, c, r.value.value)
  {
    match TileIndexAt(m, cam, layer, c)
    case None => Failure(LookupError)
    case Some(idx) =>
      var target := ScaledTarget(cam, c, m.tileWidth, m.tileHeight);
      if cam.scale == 1 then
        match PyIndex(m.tiles, idx)
        case None => Failure(TextureIndexError)
        case Some(tile) => if tile.None? then Failure(NoneTile) else Success(Some(Blit(idx, target)))
      else if cam.scale == 2 then
        match Rescale(m.tiles, cam.algo, idx)
        case Failure(e) => Failure(e)
        case Success(_) => Success(Some(Blit(idx, target)))
      else Failure(UnsupportedScale)
  }

  /** One cell of `draw` as written: like `DrawCellPlain`, but at scale 2
      the tile comes through `get_scaled_tile`, so the cache is threaded
      through. */
  function DrawCellCached(m: TileMap, cam: Camera, layer: string, cache: map<int, Scaled>, c: Cell)
    : (r: Result<(Option<Blit>, map<int, Scaled>), DrawError>)
    ensures r.Success? && cam.scale != 2 ==> r.value.1 == cache
    ensures r.Success? ==> cache.Keys <= r.value.1.Keys
  {
    match TileIndexAt(m, cam, layer, c)
    case None => Failure(LookupError)
    case Some(idx) =>
      var target := ScaledTarget(cam, c, m.tileWidth, m.tileHeight);
      if cam.scale == 1 then
        match PyIndex(m.tiles, idx)
        case None => Failure(TextureIndexError)
        case Some(tile) => if tile.None? then Failure(NoneTile) else Success((Some(Blit(idx, target)), cache))
      else if cam.scale == 2 then
        match GetScaledTile(m.tiles, cam.algo, cache, idx)
        case Failure(e) => Failure(e)
        case Success(p) => Success((Some(Blit(idx, target)), p.1))
      else Failure(UnsupportedScale)
  }

  /** With a sound cache, one cached step does what the plain step does
      and keeps the cache sound. */
  lemma DrawCellAgrees(m: TileMap, cam: Camera, layer: string, cache: map<int, Scaled>, c: Cell)
    requires CacheSound(m.tiles, cam.algo, cache)
    ensures var r := DrawCellCached(m, cam, layer, cache, c);
      && (r.Success? ==> DrawCellPlain(m, cam, layer, c) == Success(r.value.0) && CacheSound(m.tiles, cam.algo, r.value.1))
      && (r.Failure? ==> DrawCellPlain(m, cam, layer, c) == Failure(r.error))
  {
    match TileIndexAt(m, cam, layer, c)
    case None =>
    case Some(idx) =>
      if cam.scale == 2 {
        GetScaledTileAgrees(m.tiles, cam.algo, cache, idx);
      }
  }

  /** The draw loop over `cells`, threading the cache. */
  function DrawCells(m: TileMap, cam: Camera, layer: string, cells: seq<Cell>, cache: map<int, Scaled>)
    : (r: Result<(seq<Blit>, map<int, Scaled>), DrawError>)
    ensures r.Success? ==> |r.value.0| <= |cells| && cache.Keys <= r.value.1.Keys
    ensures r.Success? && cam.scale != 2 ==> r.value.1 == cache
  {
    if |cells| == 0 then Success(([], cache))
    else
      match DrawCellCached(m, cam, layer, cache, cells[0])
      case Failure(e) => Failure(e)
      case Success(p) =>
        match DrawCells(m, cam, layer, cells[1..], p.1)
        case Failure(e) => Failure(e)
        case Success(q) => Success((if p.0.Some? then [p.0.value] + q.0 else q.0, q.1))
  }

  /** `draw`: `range(tilesHigh)` by `range(tilesWide)`; the camera comes
      back with the cache the loop leaves behind. */
  function DrawScaled(m: TileMap, cam: Camera, layer: string): Result<(seq<Blit>, Camera), DrawError> {
    match DrawCells(m, cam, layer, RowMajor(0, cam.tilesWide, 0, cam.tilesHigh), cam.cache)
    case Failure(e) => Failure(e)
    case Success(p) => Success((p.0, cam.(cache := p.1)))
  }

  /** The cached loop draws exactly what the cache-free loop draws, fails
      exactly when and how it fails, and leaves a sound cache sound. */
  lemma {:induction false} DrawCellsAgrees(m: TileMap, cam: Camera, layer: string, cells: seq<Cell>, cache: map<int, Scaled>)
    requires CacheSound(m.tiles, cam.algo, cache)
    ensures var r := DrawCells(m, cam, layer, cells, cache);
      var p := Collect(cells, c => DrawCellPlain(m, cam, layer, c));
      && (r.Success? ==> p == Success(r.value.0) && CacheSound(m.tiles, cam.algo, r.value.1))
      && (r.Failure? ==> p == Failure(r.error))
  {
    if |cells| > 0 {
      DrawCellAgrees(m, cam, layer, cache, cells[0]);
      var s := DrawCellCached(m, cam, layer, cache, cells[0]);
      if s.Success? {
        DrawCellsAgrees(m, cam, layer, cells[1..], s.value.1);
      }
    }
  }

  /** The scaled draw, cache and all, agrees with the cache-free draw
      whenever the camera's cache is sound, and leaves it sound. */
  lemma DrawScaledAgrees(m: TileMap, cam: Camera, layer: string)
    requires CacheSound(m.tiles, cam.algo, cam.cache)
    ensures var r := DrawScaled(m, cam, layer);
      var p := Collect(RowMajor(0, cam.tilesWide, 0, cam.tilesHigh), c => DrawCellPlain(m, cam, layer, c));
      && (r.Success? ==> p == Success(r.value.0) && CacheSound(m.tiles, cam.algo, r.value.1.cache))
      && (r.Failure? ==> p == Failure(r.error))
  {
    DrawCellsAgrees(m, cam, layer, RowMajor(0, cam.tilesWide, 0, cam.tilesHigh), cam.cache);
  }

  /** Every blit of a successful cache-free draw is some grid cell's
      tile at that cell's scaled position. */
  lemma PlainBlitsPlaced(m: TileMap, cam: Camera, layer: string, x1: int, y1: int, b: Blit)
    requires Collect(RowMajor(0, x1, 0, y1), c => DrawCellPlain(m, cam, layer, c)).Success?
    requires b in Collect(RowMajor(0, x1, 0, y1), c => DrawCellPlain(m, cam, layer, c)).value
    ensures exists c: Cell :: 0 <= c.x < x1 && 0 <= c.y < y1 && Placed(m, cam, layer, c, b)
  {
    var cells := RowMajor(0, x1, 0, y1);
    var f := c => DrawCellPlain(m, cam, layer, c);
    var i :| 0 <= i < |cells| && f(cells[i]).Success? && f(cells[i]).value == Some(b);
    assert cells[i] in cells;
    assert Placed(m, cam, layer, cells[i], b);
  }

  /** A successful draw from a sound cache puts every blit at some grid
      cell's scaled position, showing that cell's tile (at scale 2 that
      position is `ScaledTargetTwo`'s). */
  lemma DrawScaledPlaced(m: TileMap, cam: Camera, layer: string, b: Blit)
    requires CacheSound(m.tiles, cam.algo, cam.cache)
    requires DrawScaled(m, cam, layer).Success? && b in DrawScaled(m, cam, layer).value.0
    ensures exists c: Cell :: 0 <= c.x < cam.tilesWide && 0 <= c.y < cam.tilesHigh && Placed(m, cam, layer, c, b)
  {
    DrawScaledAgrees(m, cam, layer);
    PlainBlitsPlaced(m, cam, layer, cam.tilesWide, cam.tilesHigh, b);
  }

  /** Any scale other than 1 or 2 aborts the draw at its first cell, once
      the grid has one: with `UnsupportedScale` if that cell's tile could
      be looked up. */
  lemma OtherScalesFail(m: TileMap, cam: Camera, layer: string)
    requires cam.scale != 1 && cam.scale != 2
    requires cam.tilesWide > 0 && cam.tilesHigh > 0
    ensures DrawScaled(m, cam, layer).Failure?
    ensures TileIndexAt(m, cam, layer, Cell(0, 0)).Some? ==> DrawScaled(m, cam, layer) == Failure(UnsupportedScale)
  {
    var cells := RowMajor(0, cam.tilesWide, 0, cam.tilesHigh);
    RowMajorAt(0, cam.tilesWide, 0, cam.tilesHigh, 0);
    assert cells[0] == Cell(0, 0);
  }

  // ----------------------------------------------- scaling modes

  /** The Space key's `scaling_mode += 1`, wrapping past 3 to 0. */
  function NextMode(mode: int): (n: int)
    ensures 0 <= mode <= 3 ==> 0 <= n <= 3
    ensures 0 <= mode < 3 ==> n == mode + 1
    ensures mode >= 3 ==> n == 0
  {
    var n := mode + 1;
    if n > 3 then 0 else n
  }

  /** The `set_scale` call each mode makes: 0 unscaled, 1 `scale`,
      2 `smoothscale`, 3 `scale2x`, all three at twice the size. */
  function ModeScale(mode: int): (r: Option<(int, Option<Algo>)>)
    ensures r.Some? <==> 0 <= mode <= 3
    ensures r.Some? ==> (r.value.0 == 1 <==> mode == 0) && (r.value.0 == 1 || r.value.0 == 2)
    ensures r.Some? ==> (r.value.1.None? <==> mode == 0)
  {
    if mode == 0 then Some((1, None))
    else if mode == 1 then Some((2, Some(Scale)))
    else if mode == 2 then Some((2, Some(SmoothScale)))
    else if mode == 3 then Some((2, Some(Scale2x)))
    else None
  }

  /** Releasing Space: advance the mode, then apply its scale. */
  function PressSpace(mode: int, cam: Camera): (r: (int, Camera))
    ensures r.0 == NextMode(mode)
  {
    var n := NextMode(mode);
    match ModeScale(n)
    case None => (n, cam)
    case Some(s) => (n, SetScale(cam, s.0, s.1))
  }

  /** From any valid mode, a Space press lands on a valid mode and applies
      that mode's scale and function (scale 1 exactly for mode 0, scale 2
      otherwise) with an empty (hence sound) cache, the view untouched;
      four presses in a row, each from the camera the last one left, come
      back to the starting mode and its scaling. */
  lemma SpaceCycles(mode: int, cam: Camera, tiles: seq<Option<TileImage>>)
    requires 0 <= mode <= 3
    ensures var r := PressSpace(mode, cam);
      && 0 <= r.0 <= 3
      && ModeScale(r.0) == Some((r.1.scale, r.1.algo))
      && (r.0 == 0 ==> r.1.scale == 1 && r.1.algo.None?)
      && (r.0 != 0 ==> r.1.scale == 2 && r.1.algo.Some?)
      && r.1.cache == map[] && CacheSound(tiles, r.1.algo, r.1.cache)
      && r.1.(scale := cam.scale, algo := cam.algo, cache := cam.cache) == cam
    ensures var r1 := PressSpace(mode, cam);
      var r2 := PressSpace(r1.0, r1.1);
      var r3 := PressSpace(r2.0, r2.1);
      var r4 := PressSpace(r3.0, r3.1);
      && r4.0 == mode && ModeScale(mode) == Some((r4.1.scale, r4.1.algo))
      && r4.1.cache == map[] && r4.1.(scale := cam.scale, algo := cam.algo, cache := cam.cache) == cam
  {
  }

  /** The first press from the initial mode 0 selects plain `scale`. */
  lemma FirstPressScales(cam: Camera)
    ensures PressSpace(0, cam) == (1, SetScale(cam, 2, Some(Scale)))
  {
  }
}
