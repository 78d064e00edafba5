/** The scrolling view of the two tilemap demos: a rectangle of map cells
    moved one tile at a time by the arrow keys and kept inside the map, and
    the render loop that reads one layer entry per visible cell. */
module Viewport {
  import opened Wrappers
  import opened Arith
  import opened Grid
  import opened Tiled

  /** The view rectangle, in tiles, lies inside the map. */
  predicate InMap(v: Rect, mapWidth: int, mapHeight: int) {
    0 <= v.x && v.x + v.width <= mapWidth && 0 <= v.y && v.y + v.height <= mapHeight
  }

  /** `view_left`: one tile left, stopping at column 0. */
  function ViewLeft(v: Rect): (r: Rect)
    ensures r.y == v.y && r.width == v.width && r.height == v.height
    ensures r.x >= 0
    ensures v.x >= 1 ==> r.x == v.x - 1
    ensures v.x <= 0 ==> r.x == 0
  {
    var x := v.x - 1;
    v.(x := if x < 0 then 0 else x)
  }

  /** `view_right`: one tile right, undone when the view would pass the
      map's right edge. */
  function ViewRight(v: Rect, mapWidth: int): (r: Rect)
    ensures r.y == v.y && r.width == v.width && r.height == v.height
    ensures r == v <==> v.x + 1 + v.width > mapWidth
    ensures r != v ==> r.x == v.x + 1 && r.x + r.width <= mapWidth
  {
    var moved := v.(x := v.x + 1);
    if moved.x + moved.width > mapWidth then moved.(x := moved.x - 1) else moved
  }

  /** `view_up`: one tile up, stopping at row 0. */
  function ViewUp(v: Rect): (r: Rect)
    ensures r.x == v.x && r.width == v.width && r.height == v.height
    ensures r.y >= 0
    ensures v.y >= 1 ==> r.y == v.y - 1
    ensures v.y <= 0 ==> r.y == 0
  {
    var y := v.y - 1;
    v.(y := if y < 0 then 0 else y)
  }

  /** `view_down`: one tile down, undone when the view would pass the
      map's bottom edge. */
  function ViewDown(v: Rect, mapHeight: int): (r: Rect)
    ensures r.x == v.x && r.width == v.width && r.height == v.height
    ensures r == v <==> v.y + 1 + v.height > mapHeight
    ensures r != v ==> r.y == v.y + 1 && r.y + r.height <= mapHeight
  {
    var moved := v.(y := v.y + 1);
    if moved.y + moved.height > mapHeight then moved.(y := moved.y - 1) else moved
  }

  /** The four moves keep the view inside the map. */
  lemma MovesKeepInMap(v: Rect, mapWidth: int, mapHeight: int)
    requires InMap(v, mapWidth, mapHeight)
    ensures InMap(ViewLeft(v), mapWidth, mapHeight)
    ensures InMap(ViewRight(v, mapWidth), mapWidth, mapHeight)
    ensures InMap(ViewUp(v), mapWidth, mapHeight)
    ensures InMap(ViewDown(v, mapHeight), mapWidth, mapHeight)
  {
  }

  /** Away from the edges, left and right undo each other, as do up and
      down. */
  lemma MovesUndo(v: Rect, mapWidth: int, mapHeight: int)
    requires InMap(v, mapWidth, mapHeight)
    ensures v.x >= 1 ==> ViewRight(ViewLeft(v), mapWidth) == v
    ensures v.x + v.width < mapWidth ==> ViewLeft(ViewRight(v, mapWidth)) == v
    ensures v.y >= 1 ==> ViewDown(ViewUp(v), mapHeight) == v
    ensures v.y + v.height < mapHeight ==> ViewUp(ViewDown(v, mapHeight)) == v
  {
  }

  /** The first view: the screen's size in whole tiles at the top-left
      corner; it lies inside any map at least that large. */
  function InitialView(screenWidth: nat, screenHeight: nat, tw: pos, th: pos): (v: Rect)
    ensures v.x == 0 && v.y == 0
    ensures v.width * tw <= screenWidth < (v.width + 1) * tw
    ensures v.height * th <= screenHeight < (v.height + 1) * th
  {
    Rect(0, 0, screenWidth / tw, screenHeight / th)
  }

  /** Why a render aborts. */
  datatype RenderError = LayerIndexError | TileIndexError | MissingLayer

  /** The layer entry that view cell `c` reads: the row-major index of the
      map cell under it, plus `extra` (1 in the single-layer demo). */
  function CellIndex(mapWidth: int, v: Rect, extra: int, c: Cell): int {
    GetIndex(mapWidth, c.x + v.x, c.y + v.y) + extra
  }

  /** One step of the render loop: `tiles[layer_data[...]]`, blitted at
      the cell's screen position unless it is the `None` tile. */
  function RenderCell(data: seq<int>, tiles: seq<Option<TileImage>>, mapWidth: int, v: Rect,
                      tw: pos, th: pos, extra: int, c: Cell): (r: Result<Option<Blit>, RenderError>)
    ensures PyIndex(data, CellIndex(mapWidth, v, extra, c)).None? ==> r == Failure(LayerIndexError)
    ensures r.Success? && r.value.Some? ==>
      r.value.value.target == Rect(c.x * tw, c.y * th, tw, th) &&
      PyIndex(data, CellIndex(mapWidth, v, extra, c)) == Some(r.value.value.tile) &&
      PyIndex(tiles, r.value.value.tile).Some? && PyIndex(tiles, r.value.value.tile).value.Some?
  {
    match PyIndex(data, CellIndex(mapWidth, v, extra, c))
    case None => Failure(LayerIndexError)
    case Some(t) =>
      match PyIndex(tiles, t)
      case None => Failure(TileIndexError)
      case Some(tile) =>
        if tile.None? then Success(None) else Success(Some(Blit(t, Rect(c.x * tw, c.y * th, tw, th))))
  }

  /** `render`: every cell of the view, row by row. */
  function Render(data: seq<int>, tiles: seq<Option<TileImage>>, mapWidth: int, v: Rect,
                  tw: pos, th: pos, extra: int): Result<seq<Blit>, RenderError> {
    Collect(RowMajor(0, v.width, 0, v.height), c => RenderCell(data, tiles, mapWidth, v, tw, th, extra, c))
  }

  /** `render(surface, layer, view_rect)` of the layered demo: row-major
      indexing into the named layer. The layer is looked up inside the
      loop, so an unknown name raises only once a cell is drawn: an empty
      view renders nothing whatever the name. */
  function RenderLayer(m: TileMap, layer: string, v: Rect): (r: Result<seq<Blit>, RenderError>)
    ensures r == Failure(MissingLayer) <==> layer !in m.layers && v.width > 0 && v.height > 0
    ensures v.width <= 0 || v.height <= 0 ==> r == Success([])
  {
    if layer !in m.layers then
      if v.width > 0 && v.height > 0 then Failure(MissingLayer) else Success([])
    else
      RenderFindsLayer(m.layers[layer], m.tiles, m.width, v, m.tileWidth, m.tileHeight, 0);
      RenderEmptyView(m.layers[layer], m.tiles, m.width, v, m.tileWidth, m.tileHeight, 0);
      Render(m.layers[layer], m.tiles, m.width, v, m.tileWidth, m.tileHeight, 0)
  }

  /** A view without cells draws nothing and cannot fail. */
  lemma RenderEmptyView(data: seq<int>, tiles: seq<Option<TileImage>>, mapWidth: int, v: Rect,
                        tw: pos, th: pos, extra: int)
    ensures v.width <= 0 || v.height <= 0 ==> Render(data, tiles, mapWidth, v, tw, th, extra) == Success([])
  {
    var cells := RowMajor(0, v.width, 0, v.height);
    assert v.width <= 0 || v.height <= 0 ==> |cells| == 0;
  }

  /** Once the layer is found, a render can only fail on an index. */
  lemma RenderFindsLayer(data: seq<int>, tiles: seq<Option<TileImage>>, mapWidth: int, v: Rect,
                         tw: pos, th: pos, extra: int)
    ensures Render(data, tiles, mapWidth, v, tw, th, extra) != Failure(MissingLayer)
  {
    var f := c => RenderCell(data, tiles, mapWidth, v, tw, th, extra, c);
    var cells := RowMajor(0, v.width, 0, v.height);
    var r := Collect(cells, f);
    if r.Failure? {
      var i :| 0 <= i < |cells| && f(cells[i]).Failure? && f(cells[i]).error == r.error;
      RenderCellFindsLayer(data, tiles, mapWidth, v, tw, th, extra, cells[i]);
    }
  }

  /** A render step fails only on an index. */
  lemma RenderCellFindsLayer(data: seq<int>, tiles: seq<Option<TileImage>>, mapWidth: int, v: Rect,
                             tw: pos, th: pos, extra: int, c: Cell)
    ensures RenderCell(data, tiles, mapWidth, v, tw, th, extra, c) != Failure(MissingLayer)
  {
  }

  /** `render(surface, view_rect)` of the single-layer demo, as written:
      one past the row-major index. */
  function RenderSingle(data: seq<int>, tiles: seq<Option<TileImage>>, mapWidth: int, v: Rect,
                        tw: pos, th: pos): Result<seq<Blit>, RenderError> {
    Render(data, tiles, mapWidth, v, tw, th, 1)
  }

  /** Every entry of the layer names a tile of the list. */
  predicate ValidEntries(data: seq<int>, tiles: seq<Option<TileImage>>) {
    forall i :: 0 <= i < |data| ==> 0 <= data[i] < |tiles|
  }

  /** What view cell `c` should show: the tile of the map cell under it,
      at the cell's screen position, unless that tile is 0. */
  function Visible(data: seq<int>, mapWidth: int, v: Rect, tw: pos, th: pos, c: Cell): Option<Blit> {
    var i := GetIndex(mapWidth, c.x + v.x, c.y + v.y);
    if 0 <= i < |data| && data[i] != 0 then Some(Blit(data[i], Rect(c.x * tw, c.y * th, tw, th))) else None
  }

  /** With row-major indexing, a view inside the map renders without error
      and blits exactly what its visible cells should show. */
  lemma RenderInMap(data: seq<int>, tiles: seq<Option<TileImage>>, mapWidth: int, mapHeight: int,
                    v: Rect, tw: pos, th: pos)
    requires |data| == mapWidth * mapHeight
    requires InMap(v, mapWidth, mapHeight)
    requires TileList(tiles) && ValidEntries(data, tiles)
    ensures Render(data, tiles, mapWidth, v, tw, th, 0).Success?
    ensures forall b :: b in Render(data, tiles, mapWidth, v, tw, th, 0).value <==>
      exists c: Cell :: 0 <= c.x < v.width && 0 <= c.y < v.height && Visible(data, mapWidth, v, tw, th, c) == Some(b)
  {
    var f := c => RenderCell(data, tiles, mapWidth, v, tw, th, 0, c);
    var g := c => Visible(data, mapWidth, v, tw, th, c);
    forall c: Cell | 0 <= c.x < v.width && 0 <= c.y < v.height
      ensures f(c) == Success(g(c))
    {
      RenderCellVisible(data, tiles, mapWidth, mapHeight, v, tw, th, c);
    }
    CollectRect(0, v.width, 0, v.height, f, g);
  }

  /** With row-major indexing, a view cell inside the map draws exactly
      what it should show, without error. */
  lemma RenderCellVisible(data: seq<int>, tiles: seq<Option<TileImage>>, mapWidth: int, mapHeight: int,
                          v: Rect, tw: pos, th: pos, c: Cell)
    requires |data| == mapWidth * mapHeight
    requires InMap(v, mapWidth, mapHeight)
    requires TileList(tiles) && ValidEntries(data, tiles)
    requires 0 <= c.x < v.width && 0 <= c.y < v.height
    ensures RenderCell(data, tiles, mapWidth, v, tw, th, 0, c) == Success(Visible(data, mapWidth, v, tw, th, c))
  {
    RowMajorBound(mapWidth, mapHeight, c.x + v.x, c.y + v.y);
  }

  /** The single-layer render as written fails whenever the view covers
      the map's bottom-right cell: that cell reads entry `width * height`,
      one past the end of the layer. */
  lemma RenderSingleOverruns(data: seq<int>, tiles: seq<Option<TileImage>>, mapWidth: int, mapHeight: int,
                             v: Rect, tw: pos, th: pos)
    requires |data| == mapWidth * mapHeight
    requires InMap(v, mapWidth, mapHeight) && v.width > 0 && v.height > 0
    requires v.x + v.width == mapWidth && v.y + v.height == mapHeight
    ensures RenderSingle(data, tiles, mapWidth, v, tw, th).Failure?
  {
    var c := Cell(v.width - 1, v.height - 1);
    var cells := RowMajor(0, v.width, 0, v.height);
    assert c in cells;
    var i :| 0 <= i < |cells| && cells[i] == c;
    assert CellIndex(mapWidth, v, 1, c) == |data| by {
      assert (mapHeight - 1) * mapWidth + mapWidth == mapHeight * mapWidth;
    }
    assert RenderCell(data, tiles, mapWidth, v, tw, th, 1, cells[i]).Failure?;
  }

  /** The smallest case: a 2 x 1 map shown whole fails, whatever the
      image of tile 1. */
  lemma RenderSingleTwoByOne(img: TileImage)
    ensures RenderSingle([1, 1], [None, Some(img)], 2, Rect(0, 0, 2, 1), 32, 32).Failure?
  {
    var data: seq<int> := [1, 1];
    assert |data| == 2 * 1;
    RenderSingleOverruns(data, [None, Some(img)], 2, 1, Rect(0, 0, 2, 1), 32, 32);
  }

  /** Its two cells: the first is drawn from the second entry, the second
      reads past the end of the layer. */
  lemma RenderSingleTwoByOneCells(img: TileImage)
    ensures RenderCell([1, 1], [None, Some(img)], 2, Rect(0, 0, 2, 1), 32, 32, 1, Cell(0, 0))
      == Success(Some(Blit(1, Rect(0, 0, 32, 32))))
    ensures RenderCell([1, 1], [None, Some(img)], 2, Rect(0, 0, 2, 1), 32, 32, 1, Cell(1, 0))
      == Failure(LayerIndexError)
  {
  }
}
